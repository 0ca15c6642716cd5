/** JSON texts as the framer of src/core/state.c sees them: the concrete syntax of RFC 8259
    (values and whitespace in sections 2 and 3, objects in 4, arrays in 5, numbers in 6, strings in 7). Messages between
    cores are such objects (`message_to_str` in src/common/message.c). */
module JsonText {
  import opened CFormat
  import opened Framer
  import opened FrameGrammar

  datatype JChar = Unescaped(c: char) | Short(c: char) | Unicode(h: string)

  /** `gap` fields are the insignificant whitespace of the grammar. */
  datatype Value =
    | Word(w: string)
    | Number(minus: bool, whole: string, frac: string, exp: string)
    | Str(chars: seq<JChar>)
    | Arr(gap: string, elems: Elems)
    | Obj(gap: string, members: Members)
  datatype Elems = NoElem | Elem(before: string, v: Value, after: string, rest: Elems)
  datatype Members =
    | NoMember
    | Member(before: string, key: seq<JChar>, afterKey: string, beforeValue: string,
             v: Value, after: string, rest: Members)

  predicate IsBlank(s: string) {
    forall c | c in s :: c in " \t\n\r"
  }

  predicate Digits(s: string) {
    forall c | c in s :: '0' <= c <= '9'
  }

  predicate IsHex(c: char) {
    '0' <= c <= '9' || 'a' <= c <= 'f' || 'A' <= c <= 'F'
  }

  predicate ValidChar(x: JChar) {
    match x
    case Unescaped(c) => c >= ' ' && c != '"' && c != '\\'
    case Short(c) => c in "\"\\/bfnrt"
    case Unicode(h) => |h| == 4 && forall c | c in h :: IsHex(c)
  }

  predicate ValidString(chars: seq<JChar>) {
    forall x | x in chars :: ValidChar(x)
  }

  predicate ValidNumber(v: Value)
    requires v.Number?
  {
    && v.whole != "" && Digits(v.whole) && (|v.whole| > 1 ==> v.whole[0] != '0')
    && (v.frac == "" || (|v.frac| > 1 && v.frac[0] == '.' && Digits(v.frac[1..])))
    && (v.exp == "" || (&& v.exp[0] in "eE" && |v.exp| > 1
                        && var e := if v.exp[1] in "+-" then v.exp[2..] else v.exp[1..]; e != "" && Digits(e)))
  }

  predicate Valid(v: Value) {
    match v
    case Word(w) => w == "false" || w == "null" || w == "true"
    case Number(_, _, _, _) => ValidNumber(v)
    case Str(chars) => ValidString(chars)
    case Arr(gap, elems) => IsBlank(gap) && ValidElems(elems)
    case Obj(gap, members) => IsBlank(gap) && ValidMembers(members)
  }

  predicate ValidElems(es: Elems) {
    match es
    case NoElem => true
    case Elem(b, v, a, rest) => IsBlank(b) && Valid(v) && IsBlank(a) && ValidElems(rest)
  }

  predicate ValidMembers(ms: Members) {
    match ms
    case NoMember => true
    case Member(b, key, ak, bv, v, a, rest) =>
      IsBlank(b) && ValidString(key) && IsBlank(ak) && IsBlank(bv) && Valid(v) && IsBlank(a) && ValidMembers(rest)
  }

  /** The terminals of the grammar: the characters a string holds as they are, those it escapes, the
      digits of `\\u`, and the whitespace between tokens. */
  lemma Terminals(c: char, h: string)
    ensures ValidChar(Unescaped(c)) <==> c as int in {0x20, 0x21} || 0x23 <= c as int <= 0x5B || 0x5D <= c as int
    ensures ValidChar(Short(c)) <==> c as int in {0x22, 0x5C, 0x2F, 0x62, 0x66, 0x6E, 0x72, 0x74}
    ensures IsHex(c) <==> 0x30 <= c as int <= 0x39 || 0x41 <= c as int <= 0x46 || 0x61 <= c as int <= 0x66
    ensures IsBlank([c]) <==> c as int in {0x20, 0x09, 0x0A, 0x0D}
  {
    assert c in [c];
  }

  lemma {:induction false} NoLeadingZero(n: nat)
    ensures Digits(PrintNat(n)) && (n > 0 ==> PrintNat(n)[0] != '0') && (n < 10 ==> |PrintNat(n)| == 1)
  {
    if n >= 10 { NoLeadingZero(n / 10); }
  }

  /** Every decimal number, with a sign, a fraction and an exponent or without, is a value. */
  lemma DecimalsAreValues(minus: bool, n: nat, f: Option<string>, e: Option<(char, int)>)
    requires f.Some? ==> f.value != "" && Digits(f.value)
    requires e.Some? ==> e.value.0 in "eE"
    ensures Valid(Number(minus, PrintNat(n), if f.Some? then "." + f.value else "",
                         if e.Some? then [e.value.0] + PrintSigned(1, e.value.1) else ""))
  {
    NoLeadingZero(n);
    if f.Some? { assert ("." + f.value)[1..] == f.value; }
    if e.Some? { ExponentIsValid(e.value.0, e.value.1); }
  }

  lemma ExponentIsValid(mark: char, k: int)
    requires mark in "eE"
    ensures ValidNumber(Number(false, "0", "", [mark] + PrintSigned(1, k)))
  {
    var exp := [mark] + PrintSigned(1, k);
    NoLeadingZero(if k < 0 then -k else k);
    var p := PrintNat(if k < 0 then -k else k);
    if k < 0 {
      assert exp[2..] == p;
    } else {
      assert exp[1..] == p && exp[1] in p;
    }
  }

  function CharsOf(x: JChar): seq<QuotedChar> {
    match x
    case Unescaped(c) => [Raw(c)]
    case Short(c) => [Escaped(c)]
    case Unicode(h) => [Escaped('u')] + seq(|h|, i requires 0 <= i < |h| => Raw(h[i]))
  }

  function BodyOf(chars: seq<JChar>): seq<QuotedChar> {
    if chars == [] then [] else CharsOf(chars[0]) + BodyOf(chars[1..])
  }

  lemma {:induction false} RawsPrintThemselves(h: string)
    ensures PrintBody(seq(|h|, i requires 0 <= i < |h| => Raw(h[i]))) == h
  {
    var body := seq(|h|, i requires 0 <= i < |h| => Raw(h[i]));
    if h != "" {
      var t := h[1..];
      assert body[1..] == seq(|t|, i requires 0 <= i < |t| => Raw(t[i]));
      RawsPrintThemselves(t);
    }
  }

  /** How the characters of a string are written. */
  lemma CharsAreWritten(x: JChar)
    ensures PrintBody(CharsOf(x)) ==
            match x case Unescaped(c) => [c] case Short(c) => "\\" + [c] case Unicode(h) => "\\u" + h
  {
    if x.Unicode? {
      RawsPrintThemselves(x.h);
      assert CharsOf(x)[1..] == seq(|x.h|, i requires 0 <= i < |x.h| => Raw(x.h[i]));
    } else {
      assert CharsOf(x)[1..] == [];
    }
  }

  function PrintString(chars: seq<JChar>): string {
    ['"'] + PrintBody(BodyOf(chars)) + ['"']
  }

  function Print(v: Value): string {
    match v
    case Word(w) => w
    case Number(minus, whole, frac, exp) => (if minus then "-" else "") + whole + frac + exp
    case Str(chars) => PrintString(chars)
    case Arr(gap, elems) => "[" + (if elems.NoElem? then gap else PrintElems(elems)) + "]"
    case Obj(gap, members) => "{" + (if members.NoMember? then gap else PrintMembers(members)) + "}"
  }

  function PrintElems(es: Elems): string {
    match es
    case NoElem => ""
    case Elem(b, v, a, rest) => PrintItem(b, Print(v), a, !rest.NoElem?) + PrintElems(rest)
  }

  function PrintMembers(ms: Members): string {
    match ms
    case NoMember => ""
    case Member(b, key, ak, bv, v, a, rest) =>
      PrintKey(b, key, ak) + PrintItem(bv, Print(v), a, !rest.NoMember?) + PrintMembers(rest)
  }

  /** A member's name, up to the colon. */
  function PrintKey(before: string, key: seq<JChar>, after: string): string {
    before + PrintString(key) + after + ":"
  }

  /** A printed value of a list with its whitespace, and the comma unless it is the last. */
  function PrintItem(before: string, printed: string, after: string, more: bool): string {
    before + printed + after + if more then "," else ""
  }

  lemma {:induction false} BodyIsValid(chars: seq<JChar>)
    requires ValidString(chars)
    ensures ValidBody(Double, BodyOf(chars))
  {
    if chars != [] {
      assert chars[0] in chars && forall x | x in chars[1..] :: x in chars;
      BodyIsValid(chars[1..]);
      assert ValidChar(chars[0]);
      forall x | x in CharsOf(chars[0]) ensures x.Raw? ==> x.c != '\\' && x.c != '"' {
        if chars[0].Unicode? && x.Raw? {
          assert x.c in chars[0].h;
        }
      }
    }
  }

  lemma StringIsLevel(d: int, chars: seq<JChar>)
    requires ValidString(chars)
    ensures Level(d, PrintString(chars))
  {
    BodyIsValid(chars);
    QuotedIsLevel(d, Double, BodyOf(chars));
  }

  lemma FractionIsPlain(v: Value)
    requires v.Number? && ValidNumber(v)
    ensures forall c | c in v.frac :: IsPlain(c)
  {
    forall c | c in v.frac ensures IsPlain(c) {
      assert v.frac == [v.frac[0]] + v.frac[1..];
    }
  }

  lemma ExponentIsPlain(v: Value)
    requires v.Number? && ValidNumber(v)
    ensures forall c | c in v.exp :: IsPlain(c)
  {
    forall c | c in v.exp ensures IsPlain(c) {
      assert v.exp == [v.exp[0], v.exp[1]] + v.exp[2..];
      assert v.exp == [v.exp[0]] + v.exp[1..];
    }
  }

  lemma NumberIsPlain(v: Value)
    requires v.Number? && ValidNumber(v)
    ensures forall c | c in Print(v) :: IsPlain(c)
  {
    FractionIsPlain(v);
    ExponentIsPlain(v);
    forall c | c in v.whole ensures IsPlain(c) {
    }
  }

  lemma Cat(d: int, a: string, b: string)
    requires Level(d, a) && Level(d, b)
    ensures Level(d, a + b)
  {
    LevelConcat(d, a, b);
  }

  /** Scanned at any depth, a JSON value is passed over without closing anything. */
  lemma {:induction false} ValueIsLevel(d: int, v: Value)
    requires d >= 1 && Valid(v)
    ensures Level(d, Print(v))
    decreases v
  {
    match v
    case Word(w) => PlainIsLevel(d, w);
    case Number(_, _, _, _) => NumberIsPlain(v); PlainIsLevel(d, Print(v));
    case Str(chars) => StringIsLevel(d, chars);
    case Arr(gap, elems) =>
      var inner := if elems.NoElem? then gap else PrintElems(elems);
      PlainIsLevel(d, gap);
      ElemsAreLevel(d, elems);
      PlainIsLevel(d, "[");
      PlainIsLevel(d, "]");
      Cat(d, "[", inner);
      Cat(d, "[" + inner, "]");
    case Obj(gap, members) =>
      var inner := if members.NoMember? then gap else PrintMembers(members);
      PlainIsLevel(d + 1, gap);
      MembersAreLevel(d + 1, members);
      BracedIsLevel(d, inner);
  }

  lemma {:induction false} ElemsAreLevel(d: int, es: Elems)
    requires d >= 1 && ValidElems(es)
    ensures Level(d, PrintElems(es))
    decreases es
  {
    if es.Elem? {
      ValueIsLevel(d, es.v);
      ItemIsLevel(d, es.before, Print(es.v), es.after, !es.rest.NoElem?);
      ElemsAreLevel(d, es.rest);
      Cat(d, PrintItem(es.before, Print(es.v), es.after, !es.rest.NoElem?), PrintElems(es.rest));
    }
  }

  lemma ItemIsLevel(d: int, before: string, printed: string, after: string, more: bool)
    requires d >= 1 && IsBlank(before) && IsBlank(after) && Level(d, printed)
    ensures Level(d, PrintItem(before, printed, after, more))
  {
    var comma := if more then "," else "";
    PlainIsLevel(d, before);
    PlainIsLevel(d, after);
    PlainIsLevel(d, comma);
    Cat(d, before, printed);
    Cat(d, before + printed, after);
    Cat(d, before + printed + after, comma);
  }

  lemma KeyIsLevel(d: int, before: string, key: seq<JChar>, after: string)
    requires d >= 1 && IsBlank(before) && IsBlank(after) && ValidString(key)
    ensures Level(d, PrintKey(before, key, after))
  {
    PlainIsLevel(d, before);
    StringIsLevel(d, key);
    PlainIsLevel(d, after);
    PlainIsLevel(d, ":");
    Cat(d, before, PrintString(key));
    Cat(d, before + PrintString(key), after);
    Cat(d, before + PrintString(key) + after, ":");
  }

  lemma {:induction false} MembersAreLevel(d: int, ms: Members)
    requires d >= 1 && ValidMembers(ms)
    ensures Level(d, PrintMembers(ms))
    decreases ms
  {
    if ms.Member? {
      var key := PrintKey(ms.before, ms.key, ms.afterKey);
      var item := PrintItem(ms.beforeValue, Print(ms.v), ms.after, !ms.rest.NoMember?);
      KeyIsLevel(d, ms.before, ms.key, ms.afterKey);
      ValueIsLevel(d, ms.v);
      ItemIsLevel(d, ms.beforeValue, Print(ms.v), ms.after, !ms.rest.NoMember?);
      MembersAreLevel(d, ms.rest);
      Cat(d, key, item);
      Cat(d, key + item, PrintMembers(ms.rest));
    }
  }

  /** Of all JSON texts the objects, and only they, are single messages of the framer. */
  lemma ValueIsFrameIffObject(v: Value)
    requires Valid(v)
    ensures IsFrame(Print(v)) <==> v.Obj?
  {
    match v
    case Obj(gap, members) =>
      var inner := if members.NoMember? then gap else PrintMembers(members);
      PlainIsLevel(1, gap);
      MembersAreLevel(1, members);
      WrappedLevelIsFrame(inner);
    case Number(minus, whole, _, _) =>
      NumberIsPlain(v);
      assert Print(v)[0] in Print(v);
    case Word(_) =>
    case Str(chars) =>
    case Arr(_, _) =>
  }

  function Printed(objects: seq<Value>): seq<string> {
    seq(|objects|, i requires 0 <= i < |objects| => Print(objects[i]))
  }

  /** Objects sent one after the other, separated by whitespace (or anything without '{'),
      come back as exactly those texts, each at its last byte. */
  lemma ObjectStreamIsRecovered(gaps: seq<string>, objects: seq<Value>)
    requires |gaps| == |objects| + 1 && forall g | g in gaps :: IsGap(g)
    requires forall o | o in objects :: o.Obj? && Valid(o)
    ensures Feed(FRESH, Weave(gaps, Printed(objects))) == Scan(OUTSIDE, "", Printed(objects))
  {
    forall f | f in Printed(objects) ensures IsFrame(f) {
      var i :| 0 <= i < |objects| && f == Print(objects[i]);
      assert objects[i] in objects;
      ValueIsFrameIffObject(objects[i]);
    }
    var stream := Weave(gaps, Printed(objects));
    assert stream + "" == stream;
    assert Partition(stream, gaps, Printed(objects), "");
    FramesArePartition(stream, Printed(objects), "");
  }

  /** Before its last byte an object has produced nothing, and all of it is held back. */
  lemma ObjectEmittedAtLastByte(v: Value, k: nat)
    requires Valid(v) && v.Obj? && 0 < k < |Print(v)|
    ensures Feed(FRESH, Print(v)[..k]).frames == [] && Feed(FRESH, Print(v)[..k]).partial == Print(v)[..k]
  {
    ValueIsFrameIffObject(v);
    var f := Print(v);
    var body := f[..|f| - 1];
    assert body == body[..k] + body[k..] && body[..k] == f[..k];
    StaysConcat(OUTSIDE, f[..k], body[k..]);
    FeedInside(FRESH, f[..k]);
    assert "" + f[..k] == f[..k];
  }
}
