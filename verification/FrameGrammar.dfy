/** Frames as trees: an independent, context-free description of what the framer of
    src/core/state.c accepts as one message, and the balance conditions the codecs rely on. */
module FrameGrammar {
  import opened Framer

  datatype Quote = Single | Double
  datatype QuotedChar = Raw(c: char) | Escaped(c: char)

  /** The inside of a frame, item by item. */
  datatype Text =
    | Empty
    | Plain(c: char, rest: Text)
    | Quoted(quote: Quote, body: seq<QuotedChar>, rest: Text)
    | Braced(inner: Text, rest: Text)

  function Mark(q: Quote): char {
    if q == Single then '\'' else '"'
  }

  predicate IsPlain(c: char) {
    c !in "{}'\""
  }

  predicate ValidBody(q: Quote, body: seq<QuotedChar>) {
    forall x | x in body :: x.Raw? ==> x.c != '\\' && x.c != Mark(q)
  }

  predicate Valid(t: Text) {
    match t
    case Empty => true
    case Plain(c, rest) => IsPlain(c) && Valid(rest)
    case Quoted(q, body, rest) => ValidBody(q, body) && Valid(rest)
    case Braced(inner, rest) => Valid(inner) && Valid(rest)
  }

  function PrintBody(body: seq<QuotedChar>): string {
    if body == [] then ""
    else (match body[0] case Raw(c) => [c] case Escaped(c) => ['\\', c]) + PrintBody(body[1..])
  }

  function Print(t: Text): string {
    match t
    case Empty => ""
    case Plain(c, rest) => [c] + Print(rest)
    case Quoted(q, body, rest) => [Mark(q)] + PrintBody(body) + [Mark(q)] + Print(rest)
    case Braced(inner, rest) => "{" + Print(inner) + "}" + Print(rest)
  }

  /** Scanned at depth `d` outside quotes, `s` returns there without closing the message. */
  predicate Level(d: int, s: string) {
    Stays(Pos(Json, d), s) && Walk(Pos(Json, d), s) == Pos(Json, d)
  }

  /** Balanced braces and quotes, whatever the surroundings. */
  predicate Balanced(s: string) {
    Level(1, s)
  }

  lemma LevelConcat(d: int, a: string, b: string)
    requires Level(d, a) && Level(d, b)
    ensures Level(d, a + b)
  {
    StaysConcat(Pos(Json, d), a, b);
    WalkConcat(Pos(Json, d), a, b);
  }

  lemma {:induction false} PlainIsLevel(d: int, s: string)
    requires forall c | c in s :: IsPlain(c)
    ensures Level(d, s)
  {
    if s != "" {
      assert s[0] in s && forall c | c in s[1..] :: c in s;
      PlainIsLevel(d, s[1..]);
    }
  }

  function Inside(q: Quote): Mode {
    if q == Single then Str1 else Str2
  }

  /** A quoted run and its closing mark lead back out of the quotes. */
  lemma {:induction false} BodyCloses(q: Quote, d: int, body: seq<QuotedChar>)
    requires ValidBody(q, body)
    ensures Stays(Pos(Inside(q), d), PrintBody(body) + [Mark(q)])
    ensures Walk(Pos(Inside(q), d), PrintBody(body) + [Mark(q)]) == Pos(Json, d)
    decreases |body|
  {
    var p := Pos(Inside(q), d);
    if body == [] {
      assert PrintBody(body) + [Mark(q)] == [Mark(q)];
      assert Next(p, Mark(q)) == Pos(Json, d);
    } else {
      assert body[0] in body && forall x | x in body[1..] :: x in body;
      BodyCloses(q, d, body[1..]);
      var tail := PrintBody(body[1..]) + [Mark(q)];
      var head := match body[0] case Raw(c) => [c] case Escaped(c) => ['\\', c];
      assert PrintBody(body) + [Mark(q)] == head + tail;
      if body[0].Escaped? {
        assert head[1..] == [body[0].c] && Next(Next(p, '\\'), body[0].c) == p;
        assert Walk(Next(p, '\\'), [body[0].c]) == p;
      } else {
        assert Next(p, body[0].c) == p;
      }
      assert Walk(p, head) == p && Stays(p, head);
      StaysConcat(p, head, tail);
      WalkConcat(p, head, tail);
    }
  }

  lemma QuotedIsLevel(d: int, q: Quote, body: seq<QuotedChar>)
    requires ValidBody(q, body)
    ensures Level(d, [Mark(q)] + PrintBody(body) + [Mark(q)])
  {
    BodyCloses(q, d, body);
    var s := [Mark(q)] + PrintBody(body) + [Mark(q)];
    assert s[1..] == PrintBody(body) + [Mark(q)];
    assert Next(Pos(Json, d), s[0]) == Pos(Inside(q), d);
  }

  lemma BracedIsLevel(d: int, inner: string)
    requires d >= 1 && Level(d + 1, inner)
    ensures Level(d, "{" + inner + "}")
  {
    var p, r := Pos(Json, d), Pos(Json, d + 1);
    assert Next(r, '}') == p;
    assert Walk(r, "}") == p && Stays(r, "}");
    StaysConcat(r, inner, "}");
    WalkConcat(r, inner, "}");
    var s := "{" + inner + "}";
    assert s[1..] == inner + "}";
  }

  /** Printed trees are balanced at every depth. */
  lemma {:induction false} PrintedIsLevel(d: int, t: Text)
    requires d >= 1 && Valid(t)
    ensures Level(d, Print(t))
    decreases t
  {
    match t
    case Empty =>
    case Plain(c, rest) =>
      PrintedIsLevel(d, rest);
      PlainIsLevel(d, [c]);
      LevelConcat(d, [c], Print(rest));
    case Quoted(q, body, rest) =>
      PrintedIsLevel(d, rest);
      QuotedIsLevel(d, q, body);
      LevelConcat(d, [Mark(q)] + PrintBody(body) + [Mark(q)], Print(rest));
    case Braced(inner, rest) =>
      PrintedIsLevel(d + 1, inner);
      PrintedIsLevel(d, rest);
      BracedIsLevel(d, Print(inner));
      LevelConcat(d, "{" + Print(inner) + "}", Print(rest));
  }

  lemma WrappedLevelIsFrame(inner: string)
    ensures IsFrame("{" + inner + "}") <==> Balanced(inner)
  {
    var f := "{" + inner + "}";
    var p := Pos(Json, 1);
    assert f[..|f| - 1] == "{" + inner;
    assert ("{" + inner)[1..] == inner;
    assert Next(OUTSIDE, '{') == p;
    assert f[1..] == inner + "}";
    WalkConcat(p, inner, "}");
    var q := Walk(p, inner);
    assert Walk(q, "}") == Next(q, '}');
    assert Walk(OUTSIDE, f) == Next(q, '}');
    if Stays(p, inner) {
      StaysEnd(p, inner);
    }
  }

  // ---------- From scanned bytes back to a tree ----------

  /** A run that leaves the quotes must contain a first closing mark. */
  lemma {:induction false} FirstClosing(q: Quote, d: int, s: string) returns (body: seq<QuotedChar>, rest: string)
    requires Walk(Pos(Inside(q), d), s).mode == Json
    ensures ValidBody(q, body) && s == PrintBody(body) + [Mark(q)] + rest
    decreases s
  {
    var p := Pos(Inside(q), d);
    if s[0] == Mark(q) {
      body, rest := [], s[1..];
    } else if s[0] == '\\' {
      assert s[1..] != "" && s[1..][1..] == s[2..];
      assert Next(Next(p, '\\'), s[1]) == p;
      var b;
      b, rest := FirstClosing(q, d, s[2..]);
      body := [Escaped(s[1])] + b;
      assert body[1..] == b;
      assert s == ['\\', s[1]] + s[2..];
    } else {
      assert Next(p, s[0]) == p;
      var b;
      b, rest := FirstClosing(q, d, s[1..]);
      body := [Raw(s[0])] + b;
      assert body[1..] == b;
      assert s == [s[0]] + s[1..];
    }
  }

  /** A run from depth `d` down to a lower one must contain a first brace that closes level `d`. */
  lemma {:induction false} ParseToClose(d: int, e: int, s: string) returns (t: Text, rest: string)
    requires 1 <= e < d
    requires Stays(Pos(Json, d), s) && Walk(Pos(Json, d), s) == Pos(Json, e)
    ensures Valid(t) && s == Print(t) + "}" + rest
    decreases |s|
  {
    if s[0] == '}' {
      t, rest := Empty, s[1..];
    } else if s[0] == '{' {
      var inner, after := ParseToClose(d + 1, e, s[1..]);
      LeaveBraces(d, inner, after, s);
      var t0;
      t0, rest := ParseToClose(d, e, after);
      t := Braced(inner, t0);
      Attach(s, "{" + Print(inner) + "}", after, Print(t0), rest);
    } else if s[0] == '"' || s[0] == '\'' {
      var after, q, body := ParseQuoted(d, s);
      var t0;
      t0, rest := ParseToClose(d, e, after);
      t := Quoted(q, body, t0);
      Attach(s, [Mark(q)] + PrintBody(body) + [Mark(q)], after, Print(t0), rest);
    } else {
      assert Next(Pos(Json, d), s[0]) == Pos(Json, d);
      var t0;
      t0, rest := ParseToClose(d, e, s[1..]);
      t := Plain(s[0], t0);
      Attach(s, [s[0]], s[1..], Print(t0), rest);
    }
  }

  lemma Attach(s: string, item: string, after: string, printed: string, rest: string)
    requires s == item + after && after == printed + "}" + rest
    ensures s == item + printed + "}" + rest
  {
  }

  lemma ParseQuoted(d: int, s: string) returns (after: string, q: Quote, body: seq<QuotedChar>)
    requires s != "" && (s[0] == '"' || s[0] == '\'')
    requires Walk(Pos(Json, d), s).mode == Json
    ensures ValidBody(q, body) && s == [Mark(q)] + (PrintBody(body) + [Mark(q)] + after)
    ensures Stays(Pos(Json, d), s) <==> Stays(Pos(Json, d), after)
    ensures Walk(Pos(Json, d), s) == Walk(Pos(Json, d), after)
  {
    q := if s[0] == '"' then Double else Single;
    body, after := FirstClosing(q, d, s[1..]);
    assert s == [s[0]] + s[1..];
    LeaveQuotes(d, q, body, after, s);
  }

  lemma LeaveBraces(d: int, inner: Text, after: string, s: string)
    requires d >= 1 && Valid(inner) && s == "{" + (Print(inner) + "}" + after)
    ensures Stays(Pos(Json, d), s) <==> Stays(Pos(Json, d), after)
    ensures Walk(Pos(Json, d), s) == Walk(Pos(Json, d), after)
  {
    PrintedIsLevel(d + 1, inner);
    BracedIsLevel(d, Print(inner));
    var b := "{" + Print(inner) + "}";
    assert s == b + after;
    StaysConcat(Pos(Json, d), b, after);
    WalkConcat(Pos(Json, d), b, after);
  }

  lemma LeaveQuotes(d: int, q: Quote, body: seq<QuotedChar>, after: string, s: string)
    requires ValidBody(q, body) && s == [Mark(q)] + (PrintBody(body) + [Mark(q)] + after)
    ensures Stays(Pos(Json, d), s) <==> Stays(Pos(Json, d), after)
    ensures Walk(Pos(Json, d), s) == Walk(Pos(Json, d), after)
  {
    QuotedIsLevel(d, q, body);
    var b := [Mark(q)] + PrintBody(body) + [Mark(q)];
    assert s == b + after;
    StaysConcat(Pos(Json, d), b, after);
    WalkConcat(Pos(Json, d), b, after);
  }

  lemma ParseBraced(s: string) returns (inner: Text, after: string)
    requires s != "" && s[0] == '{' && Balanced(s)
    ensures Valid(inner) && s == "{" + Print(inner) + "}" + after && Balanced(after)
  {
    inner, after := ParseToClose(2, 1, s[1..]);
    LeaveBraces(1, inner, after, s);
  }

  lemma LeavePlain(s: string)
    requires s != "" && IsPlain(s[0]) && Balanced(s)
    ensures Balanced(s[1..])
  {
  }

  /** A balanced run is the print of a tree. */
  lemma {:induction false} ParseBalanced(s: string) returns (t: Text)
    requires Balanced(s)
    ensures Valid(t) && Print(t) == s
    decreases |s|
  {
    if s == "" {
      t := Empty;
    } else if s[0] == '{' {
      var inner, after := ParseBraced(s);
      t := ParseBalanced(after);
      t := Braced(inner, t);
    } else if s[0] == '"' || s[0] == '\'' {
      var after, q, body := ParseQuoted(1, s);
      var t0 := ParseBalanced(after);
      t := Quoted(q, body, t0);
    } else {
      LeavePlain(s);
      t := ParseBalanced(s[1..]);
      t := Plain(s[0], t);
    }
  }

  /** The balance the scanner computes is the balance of the grammar. */
  lemma BalancedIffPrinted(s: string)
    ensures Balanced(s) <==> exists t :: Valid(t) && Print(t) == s
  {
    if Balanced(s) {
      var t := ParseBalanced(s);
    }
    if t :| Valid(t) && Print(t) == s {
      PrintedIsLevel(1, t);
    }
  }

  /** One message of the framer is exactly a braced tree: nothing else is ever handed up as one,
      and every braced tree is. */
  lemma FrameIffTree(f: string)
    ensures IsFrame(f) <==> exists t :: Valid(t) && f == "{" + Print(t) + "}"
  {
    if IsFrame(f) {
      EmittedAreFrames(f, f) by { FeedFrame([], f); assert [] + [f] == [f]; }
      var inner := f[1..|f| - 1];
      assert f == "{" + inner + "}";
      WrappedLevelIsFrame(inner);
      var t := ParseBalanced(inner);
    }
    if t :| Valid(t) && f == "{" + Print(t) + "}" {
      BracedTreeIsFrame(t);
    }
  }

  lemma BracedTreeIsFrame(t: Text)
    requires Valid(t)
    ensures IsFrame("{" + Print(t) + "}")
  {
    PrintedIsLevel(1, t);
    WrappedLevelIsFrame(Print(t));
  }

  /** Messages printed one after the other, with brace-free separators, come back one by one. */
  lemma {:induction false} PrintedSequenceIsRecovered(gaps: seq<string>, texts: seq<Text>)
    requires |gaps| == |texts| + 1
    requires forall g | g in gaps :: IsGap(g)
    requires forall t | t in texts :: Valid(t)
    ensures Feed(FRESH, Weave(gaps, FramesOf(texts))) == Scan(OUTSIDE, "", FramesOf(texts))
  {
    forall f | f in FramesOf(texts) ensures IsFrame(f) {
      var i :| 0 <= i < |texts| && f == FramesOf(texts)[i];
      BracedTreeIsFrame(texts[i]);
    }
    var stream := Weave(gaps, FramesOf(texts));
    assert stream + "" == stream;
    assert Partition(stream, gaps, FramesOf(texts), "");
    FramesArePartition(stream, FramesOf(texts), "");
  }

  function FramesOf(texts: seq<Text>): seq<string> {
    seq(|texts|, i requires 0 <= i < |texts| => "{" + Print(texts[i]) + "}")
  }
}
