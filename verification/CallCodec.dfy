/** The positional wire format of calls from the component to the core: the encoder of
    src/api/middleware.c, the decoder `buffer_app_set` of src/core/state.c, and the stream
    between them. */
module CallCodec {
  import opened Framer
  import opened FrameGrammar
  import opened CFormat

  datatype Call = Call(moduleId: string, functionId: string, returnType: string, msgId: string,
                       args: seq<string>)

  /** The field widths the encoder sends and the decoder's offset 48 counts on. */
  predicate Sized(c: Call) {
    |c.moduleId| == 4 && |c.functionId| == 17 && |c.returnType| == 3 && |c.msgId| == 10
  }

  // ---------- Encoder ----------

  /** sprintf "{%010lu}", of which twelve bytes are sent. */
  function LengthField(n: nat): string {
    ("{" + PrintPadded(10, n) + "}")[..12]
  }

  function EncodeArgs(args: seq<string>): string {
    if args == [] then LengthField(0) else LengthField(|args[0]|) + args[0] + EncodeArgs(args[1..])
  }

  function Ids(c: Call): string {
    c.moduleId + "}{" + c.functionId + "}{" + c.returnType + "}{" + c.msgId + "}{"
  }

  /** What lies between the two outer braces on either side. */
  function Body(c: Call): string {
    "15}{" + Ids(c) + EncodeArgs(c.args)
  }

  function Encode(c: Call): string {
    "{{" + Body(c) + "}}"
  }

  /** The sending side: fields piece by piece, then one length and one text per argument. The
      first four parameters are what memory holds from each pointer on: the encoder sends a fixed
      number of bytes from there, whether or not a string ends before. */
  method CallModuleFunction(moduleId: string, functionId: string, returnType: string, msgId: string,
                            arguments: seq<string>) returns (sent: string)
    requires |moduleId| >= 4 && |functionId| >= 17 && |returnType| >= 3 && |msgId| >= 10
    ensures sent == Encode(Call(moduleId[..4], functionId[..17], returnType[..3], msgId[..10], arguments))
  {
    sent := "{" + "{" + "15" + "}{" + moduleId[..4] + "}{" + functionId[..17] + "}{"
            + returnType[..3] + "}{" + msgId[..10] + "}{";
    ghost var c := Call(moduleId[..4], functionId[..17], returnType[..3], msgId[..10], arguments);
    ghost var head := sent;
    var i := 0;
    while i < |arguments|
      invariant 0 <= i <= |arguments|
      invariant head + EncodeArgs(arguments) == sent + EncodeArgs(arguments[i..])
    {
      var str := "{" + PrintPadded(10, |arguments[i]|) + "}";
      assert sent + EncodeArgs(arguments[i..])
          == sent + str[..12] + arguments[i] + EncodeArgs(arguments[i + 1..]) by {
        assert arguments[i..][1..] == arguments[i + 1..];
      }
      sent := sent + str[..12] + arguments[i];
      i := i + 1;
    }
    var str := "{" + PrintPadded(10, 0) + "}";
    sent := sent + str[..12] + "}" + "}";
    PiecesMakeCall(c);
  }

  lemma PiecesMakeCall(c: Call)
    ensures "{" + "{" + "15" + "}{" + c.moduleId + "}{" + c.functionId + "}{" + c.returnType + "}{" + c.msgId + "}{"
            + EncodeArgs(c.args) + "}" + "}" == Encode(c)
  {
    Regroup("{", "15", "}{", c.moduleId, c.functionId, c.returnType, c.msgId, EncodeArgs(c.args), "}");
    assert "{" + "{" == "{{" && "15" + "}{" == "15}{" && "}" + "}" == "}}";
  }

  lemma Regroup(o: string, n: string, sep: string, m: string, f: string, r: string, i: string, e: string, c: string)
    ensures o + o + n + sep + m + sep + f + sep + r + sep + i + sep + e + c + c
         == (o + o) + ((n + sep) + (m + sep + f + sep + r + sep + i + sep) + e) + (c + c)
  {
    var ids := m + sep + f + sep + r + sep + i + sep;
    assert o + o + n + sep + m + sep + f + sep + r + sep + i + sep == (o + o) + (n + sep) + ids;
  }

  // ---------- Decoder ----------

  function ScanLit(lit: string, s: string): Option<string> {
    if lit <= s then Some(s[|lit|..]) else None
  }

  /** Where `%s` ends. */
  predicate IsStop(c: char) {
    IsSpace(c) || c == '\0'
  }

  function WordRun(w: nat, s: string): (r: string)
    ensures |r| <= |s|
  {
    if w == 0 || s == "" || IsStop(s[0]) then "" else [s[0]] + WordRun(w - 1, s[1..])
  }

  /** `%<w>s` */
  function ScanWord(w: nat, s: string): Option<(string, string)> {
    var t := SkipSpace(s);
    var run := WordRun(w, t);
    if run == "" then None else Some((run, t[|run|..]))
  }

  /** sscanf "{{%d}{%4s}{%17s}{%3s}{%10s}" */
  function ScanHeader(data: string): Option<Call> {
    var s :- ScanLit("{{", data);
    var cmd :- ScanInt(|s|, s);
    var s1 :- ScanLit("}{", cmd.1);
    var m :- ScanWord(4, s1);
    var s2 :- ScanLit("}{", m.1);
    var f :- ScanWord(17, s2);
    var s3 :- ScanLit("}{", f.1);
    var r :- ScanWord(3, s3);
    var s4 :- ScanLit("}{", r.1);
    var i :- ScanWord(10, s4);
    Some(Call(m.0, f.0, r.0, i.0, []))
  }

  /** `size = 0; sscanf(head, "{%010d}", &size)` */
  function ArgSize(head: string): (size: int)
    ensures INT_MIN <= size <= INT_MAX
  {
    match ScanLit("{", head)
    case None => 0
    case Some(s) => match ScanInt(10, s) case None => 0 case Some(v) => ToInt32(v.0)
  }

  /** The argument loop; None where the code would copy from outside the message. */
  function DecodeArgs(head: string): Option<seq<string>>
    decreases |head|
  {
    var size := ArgSize(head);
    if size == 0 then Some([])
    else if size < 0 || |head| < 12 + size then None
    else
      var rest :- DecodeArgs(head[12 + size..]);
      Some([head[12..12 + size]] + rest)
  }

  /** None: the code reads variables it never wrote, or outside the message. */
  function Decode(data: string): Option<Call> {
    var header :- ScanHeader(data);
    if |data| < 48 then None
    else
      var args :- DecodeArgs(data[48..]);
      Some(header.(args := args))
  }

  /** The receiving side: a header scan, then a loop that advances `head`. */
  method AppSet(data: string) returns (call: Option<Call>)
    ensures call == Decode(data)
  {
    var header := ScanHeader(data);
    if header.None? || |data| < 48 { return None; }
    var head := data[48..];
    var argArray: seq<string> := [];
    var size := ArgSize(head);
    assert forall more: seq<string> :: argArray + more == more;
    while size != 0
      invariant size == ArgSize(head)
      invariant DecodeArgs(data[48..]) ==
                match DecodeArgs(head) case None => None case Some(more) => Some(argArray + more)
      decreases |head|
    {
      if size < 0 || |head| < 12 + size { return None; }
      var arg1 := head[12..12 + size];
      assert forall more :: argArray + ([arg1] + more) == argArray + [arg1] + more;
      argArray := argArray + [arg1];
      head := head[12 + size..];
      size := ArgSize(head);
    }
    assert argArray + [] == argArray;
    call := Some(header.value.(args := argArray));
  }

  // ---------- One call ----------

  predicate NoStops(c: Call) {
    forall x | x in c.moduleId + c.functionId + c.returnType + c.msgId :: !IsStop(x)
  }

  /** An argument whose printed length reads back as itself and does not end the list. */
  predicate Sendable(arg: string) {
    0 < |arg| <= INT_MAX
  }

  function UpToEmpty(args: seq<string>): seq<string> {
    if args == [] || args[0] == "" then [] else [args[0]] + UpToEmpty(args[1..])
  }

  lemma LengthFieldReadsBack(n: nat, rest: string)
    ensures |LengthField(n)| == 12
    ensures ArgSize(LengthField(n) + rest) == n <==> n <= INT_MAX
  {
    Pow10Ten();
    if n < Pow10(10) { TenDigitsReadBack(n, rest); }
  }

  lemma TenDigitsReadBack(n: nat, rest: string)
    requires n < Pow10(10)
    ensures |LengthField(n)| == 12
    ensures ArgSize(LengthField(n) + rest) == ToInt32(n)
  {
    LengthFieldShape(n);
    ScanTen(n, "}" + rest);
    FieldSize(PrintPadded(10, n), n, rest);
  }

  lemma LengthFieldShape(n: nat)
    requires n < Pow10(10)
    ensures |PrintPadded(10, n)| == 10 && LengthField(n) == "{" + PrintPadded(10, n) + "}"
  {
    PaddedIsFixed(10, n);
  }

  lemma FieldSize(p: string, v: int, rest: string)
    requires ScanInt(10, p + ("}" + rest)) == Some((v, "}" + rest))
    ensures ArgSize("{" + p + "}" + rest) == ToInt32(v)
  {
    var s := "{" + p + "}" + rest;
    assert s[1..] == p + ("}" + rest) && "{" <= s;
  }

  lemma DecodeArgsOnce(a: string, tail: string)
    ensures var s := LengthField(|a|) + a + tail;
            && (|a| <= INT_MAX && a == "" ==> DecodeArgs(s) == Some([]))
            && (|a| <= INT_MAX && a != "" ==> 
                 (DecodeArgs(s) == match DecodeArgs(tail) case None => None case Some(more) => Some([a] + more)))
            && (|a| > INT_MAX && DecodeArgs(s).Some? && DecodeArgs(s).value != [] ==> DecodeArgs(s).value[0] != a)
  {
    var s := LengthField(|a|) + a + tail;
    assert s == LengthField(|a|) + (a + tail);
    LengthFieldReadsBack(|a|, a + tail);
    if 0 < |a| <= INT_MAX {
      assert s[12..12 + |a|] == a && s[12 + |a|..] == tail;
    } else if |a| > INT_MAX && DecodeArgs(s).Some? && DecodeArgs(s).value != [] {
      assert |DecodeArgs(s).value[0]| == ArgSize(s);
    }
  }

  lemma {:induction false} ArgsReadBack(args: seq<string>)
    ensures DecodeArgs(EncodeArgs(args) + "}}") == Some(args) <==> forall a | a in args :: Sendable(a)
  {
    var s := EncodeArgs(args) + "}}";
    if args == [] {
      LengthFieldReadsBack(0, "}}");
    } else {
      var a := args[0];
      var tail := EncodeArgs(args[1..]) + "}}";
      assert s == LengthField(|a|) + a + tail;
      DecodeArgsOnce(a, tail);
      ArgsReadBack(args[1..]);
      AllSendable(args);
      OneMoreArg(args, DecodeArgs(s), DecodeArgs(tail));
    }
  }

  lemma OneMoreArg(args: seq<string>, whole: Option<seq<string>>, rest: Option<seq<string>>)
    requires args != []
    requires |args[0]| <= INT_MAX && args[0] == "" ==> whole == Some([])
    requires Sendable(args[0]) ==> whole == match rest case None => None case Some(more) => Some([args[0]] + more)
    requires |args[0]| > INT_MAX && whole.Some? && whole.value != [] ==> whole.value[0] != args[0]
    ensures whole == Some(args) <==> Sendable(args[0]) && rest == Some(args[1..])
  {
    assert args == [args[0]] + args[1..];
    if rest.Some? {
      assert ([args[0]] + rest.value)[1..] == rest.value;
    }
  }

  lemma AllSendable(args: seq<string>)
    requires args != []
    ensures (forall a | a in args :: Sendable(a)) <==> Sendable(args[0]) && forall a | a in args[1..] :: Sendable(a)
  {
    assert args[0] in args && forall x | x in args[1..] :: x in args;
    assert forall x | x in args :: x == args[0] || x in args[1..];
  }

  /** An empty argument is read as the end of the list. */
  lemma {:induction false} ArgsStopAtEmpty(args: seq<string>)
    requires forall a | a in args :: |a| <= INT_MAX
    ensures DecodeArgs(EncodeArgs(args) + "}}") == Some(UpToEmpty(args))
  {
    var s := EncodeArgs(args) + "}}";
    if args == [] {
      LengthFieldReadsBack(0, "}}");
    } else {
      var a := args[0];
      var tail := EncodeArgs(args[1..]) + "}}";
      assert s == LengthField(|a|) + a + tail;
      assert a in args && forall x | x in args[1..] :: x in args;
      DecodeArgsOnce(a, tail);
      ArgsStopAtEmpty(args[1..]);
    }
  }

  lemma {:induction false} WordRunWhole(word: string, rest: string)
    requires forall c | c in word :: !IsStop(c)
    ensures WordRun(|word|, word + rest) == word
  {
    var s := word + rest;
    if word != "" {
      assert word[0] in word && s[1..] == word[1..] + rest;
      assert forall c | c in word[1..] :: c in word;
      WordRunWhole(word[1..], rest);
      assert s[0] == word[0];
    }
  }

  lemma ScanField(word: string, rest: string)
    requires word != "" && forall c | c in word :: !IsStop(c)
    ensures ScanWord(|word|, word + rest) == Some((word, rest))
  {
    var s := word + rest;
    assert s[0] in word;
    assert SkipSpace(s) == s;
    WordRunWhole(word, rest);
    assert s[|word|..] == rest;
  }

  lemma Separator(rest: string)
    ensures ScanLit("}{", "}{" + rest) == Some(rest)
  {
    assert "}{" <= "}{" + rest;
    assert ("}{" + rest)[2..] == rest;
  }

  lemma ScanCommand(rest: string)
    ensures ScanLit("{{", "{{15}{" + rest) == Some("15}{" + rest)
    ensures ScanInt(|"15}{" + rest|, "15}{" + rest) == Some((15, "}{" + rest))
  {
    var data, s := "{{15}{" + rest, "15}{" + rest;
    assert data[2..] == s && "{{" <= data;
    assert s == "15" + ("}{" + rest) && SkipSpace(s) == s;
    RunStops(|s|, "15", "}{" + rest);
    assert ValueOf("15") == 15 by { assert "15"[..1] == "1" && "1"[..0] == ""; assert ValueOf("1") == 1; }
    assert s[2..] == "}{" + rest;
  }

  lemma ScanIds(c: Call, rest: string)
    requires Sized(c) && NoStops(c)
    ensures ScanHeader("{{15}{" + (Ids(c) + rest)) == Some(c.(args := []))
  {
    var all := c.moduleId + c.functionId + c.returnType + c.msgId;
    forall x | x in c.moduleId || x in c.functionId || x in c.returnType || x in c.msgId
      ensures !IsStop(x)
    {
      assert x in all;
    }
    var t4 := c.msgId + ("}{" + rest);
    var t3 := c.returnType + ("}{" + t4);
    var t2 := c.functionId + ("}{" + t3);
    var t1 := c.moduleId + ("}{" + t2);
    assert Ids(c) + rest == t1;
    ScanCommand(t1);
    Separator(t1); Separator(t2); Separator(t3); Separator(t4);
    ScanField(c.moduleId, "}{" + t2);
    ScanField(c.functionId, "}{" + t3);
    ScanField(c.returnType, "}{" + t4);
    ScanField(c.msgId, "}{" + rest);
  }

  lemma ScannedIdsHaveNoStops(data: string)
    ensures ScanHeader(data).Some? ==> NoStops(ScanHeader(data).value)
  {
    if ScanHeader(data).Some? { ScannedFieldsAreWords(data); FieldsHaveNoStops(ScanHeader(data).value); }
  }

  lemma {:induction false} RunIsWord(w: nat, s: string)
    ensures Word(WordRun(w, s))
  {
    if w > 0 && s != "" && !IsStop(s[0]) { RunIsWord(w - 1, s[1..]); }
  }

  lemma ScannedIsWord(w: nat, s: string)
    ensures ScanWord(w, s).Some? ==> Word(ScanWord(w, s).value.0)
  {
    RunIsWord(w, SkipSpace(s));
  }

  lemma ScannedFieldsAreWords(data: string)
    requires ScanHeader(data).Some?
    ensures var c := ScanHeader(data).value;
            Word(c.moduleId) && Word(c.functionId) && Word(c.returnType) && Word(c.msgId)
  {
    var s := ScanLit("{{", data).value;
    var s1 := ScanLit("}{", ScanInt(|s|, s).value.1).value;
    var m := ScanWord(4, s1).value;
    var s2 := ScanLit("}{", m.1).value;
    var f := ScanWord(17, s2).value;
    var s3 := ScanLit("}{", f.1).value;
    var r := ScanWord(3, s3).value;
    var s4 := ScanLit("}{", r.1).value;
    ScannedIsWord(4, s1);
    ScannedIsWord(17, s2);
    ScannedIsWord(3, s3);
    ScannedIsWord(10, s4);
  }

  predicate Word(s: string) {
    forall x | x in s :: !IsStop(x)
  }

  lemma FieldsHaveNoStops(c: Call)
    requires Word(c.moduleId) && Word(c.functionId) && Word(c.returnType) && Word(c.msgId)
    ensures NoStops(c)
  {
  }

  lemma EncodeLayout(c: Call)
    requires Sized(c)
    ensures Encode(c) == "{{15}{" + (Ids(c) + (EncodeArgs(c.args) + "}}"))
    ensures |Encode(c)| >= 48 && Encode(c)[48..] == EncodeArgs(c.args) + "}}"
  {
    var head := "{{15}{" + Ids(c);
    assert |head| == 48;
    assert Encode(c) == head + (EncodeArgs(c.args) + "}}");
  }

  /** Decoding an encoded call gives the call back exactly when its identifiers hold no blanks
      and every argument is non-empty and no longer than INT_MAX. */
  lemma CallRoundTrip(c: Call)
    requires Sized(c)
    ensures Decode(Encode(c)) == Some(c) <==> NoStops(c) && forall a | a in c.args :: Sendable(a)
  {
    EncodeLayout(c);
    ArgsReadBack(c.args);
    ScannedIdsHaveNoStops(Encode(c));
    if NoStops(c) {
      ScanIds(c, EncodeArgs(c.args) + "}}");
    }
  }

  /** Of a call whose 17 function bytes hold the NUL of a shorter id the return type and the message
      identifier are never read: the header scan stops at the NUL, and the call is dispatched with
      whatever the two variables held before. */
  lemma ShortFunctionIdIsLost(c: Call)
    requires Sized(c) && '\0' in c.functionId && forall x | x in c.moduleId :: !IsStop(x)
    ensures Decode(Encode(c)).None?
  {
    EncodeLayout(c);
    var after := "}{" + c.returnType + "}{" + c.msgId + "}{" + (EncodeArgs(c.args) + "}}");
    GroupIds(c, EncodeArgs(c.args) + "}}");
    var k :| 0 <= k < |c.functionId| && c.functionId[k] == '\0';
    WordMeetsStop(17, c.functionId, after, k);
    var f := ScanWord(17, c.functionId + after);
    if f.Some? { StopIsNoSeparator(f.value.1); }
    HeaderStops(Encode(c), c.moduleId, c.functionId + after);
  }

  lemma GroupIds(c: Call, rest: string)
    ensures Ids(c) + rest == c.moduleId + ("}{" + (c.functionId + ("}{" + c.returnType + "}{" + c.msgId + "}{" + rest)))
  {
  }

  lemma StopIsNoSeparator(s: string)
    requires s != "" && IsStop(s[0])
    ensures ScanLit("}{", s).None?
  {
  }

  lemma HeaderStops(data: string, moduleId: string, word: string)
    requires data == "{{15}{" + (moduleId + ("}{" + word)) && |moduleId| == 4 && forall x | x in moduleId :: !IsStop(x)
    requires ScanWord(17, word).None? || ScanLit("}{", ScanWord(17, word).value.1).None?
    ensures ScanHeader(data).None?
  {
    ScanCommand(moduleId + ("}{" + word));
    Separator(moduleId + ("}{" + word));
    ScanField(moduleId, "}{" + word);
    Separator(word);
  }

  lemma {:induction false} RunMeetsStop(w: nat, s: string, rest: string, k: nat)
    requires k < |s| <= w && IsStop(s[k])
    ensures var run := WordRun(w, s + rest); |run| <= k && run <= s && IsStop(s[|run|])
    decreases k
  {
    assert (s + rest)[0] == s[0];
    if !IsStop(s[0]) {
      var t := s[1..];
      assert (s + rest)[1..] == t + rest;
      RunMeetsStop(w - 1, t, rest, k - 1);
      PrefixGrows(s, WordRun(w - 1, t + rest));
    }
  }

  lemma PrefixGrows(s: string, run: string)
    requires s != "" && run <= s[1..]
    ensures [s[0]] + run <= s
  {
  }

  lemma {:induction false} WordMeetsStop(w: nat, s: string, rest: string, k: nat)
    requires k < |s| <= w && s[k] == '\0'
    ensures var r := ScanWord(w, s + rest); r.None? || (r.value.1 != "" && IsStop(r.value.1[0]))
    decreases k
  {
    if IsSpace(s[0]) {
      assert (s + rest)[1..] == s[1..] + rest;
      WordMeetsStop(w, s[1..], rest, k - 1);
    } else {
      RunMeetsStop(w, s, rest, k);
    }
  }

  /** Where a `%s` of the header stops: at white space and at NUL, and nowhere else. */
  lemma StopsAreBlanks(c: char)
    ensures IsStop(c) <==> c as int == 0 || 9 <= c as int <= 13 || c as int == 32
  {
  }

  /** Blanks before a field are free. */
  lemma BlanksBeforeWord(w: nat, blanks: string, s: string)
    requires forall i | 0 <= i < |blanks| :: blanks[i] as int == 32 || 9 <= blanks[i] as int <= 13
    ensures ScanWord(w, blanks + s) == ScanWord(w, s)
  {
    BlanksAreFree(blanks, s);
  }

  /** Printable characters other than the blank. */
  predicate Visible(s: string) {
    forall x | x in s :: '!' <= x <= '~'
  }

  predicate VisibleIds(c: Call) {
    Visible(c.moduleId) && Visible(c.functionId) && Visible(c.returnType) && Visible(c.msgId)
  }

  lemma VisibleHaveNoStops(c: Call)
    requires VisibleIds(c)
    ensures NoStops(c)
  {
    forall x | x in c.moduleId + c.functionId + c.returnType + c.msgId ensures !IsStop(x) {
      StopsAreBlanks(x);
    }
  }

  /** Any sized call with printable identifiers and non-empty arguments of at most INT_MAX
      characters decodes to itself. */
  lemma VisibleCallRoundTrip(c: Call)
    requires Sized(c) && VisibleIds(c)
    requires forall a | a in c.args :: 1 <= |a| <= 0x7FFF_FFFF
    ensures Decode(Encode(c)) == Some(c)
  {
    VisibleHaveNoStops(c);
    CallRoundTrip(c);
  }

  // ---------- Which texts are decoded ----------

  /** Arguments laid out from the head of a text on: each behind a length field of twelve characters,
      inside the text, up to a field that reads as zero. */
  predicate ArgsAt(head: string, args: seq<string>)
    decreases |args|
  {
    if args == [] then ArgSize(head) == 0
    else
      var n := |args[0]|;
      && ArgSize(head) == n > 0 && 12 + n <= |head| && args[0] == head[12..12 + n]
      && ArgsAt(head[12 + n..], args[1..])
  }

  lemma {:induction false} ArgsAtIff(head: string, args: seq<string>)
    ensures DecodeArgs(head) == Some(args) <==> ArgsAt(head, args)
    decreases |head|
  {
    var size := ArgSize(head);
    if 0 < size && 12 + size <= |head| {
      var tail := head[12 + size..];
      if args != [] {
        ArgsAtIff(tail, args[1..]);
        assert args == [args[0]] + args[1..];
      }
      if DecodeArgs(tail).Some? {
        assert ([head[12..12 + size]] + DecodeArgs(tail).value)[1..] == DecodeArgs(tail).value;
      }
    }
  }

  /** Of any text whatever: it is decoded to a call exactly if its header scans to the call's
      identifiers and the arguments are laid out from byte 48 on. */
  lemma DecodesIff(data: string, c: Call)
    ensures Decode(data) == Some(c) <==>
            ScanHeader(data) == Some(c.(args := [])) && |data| >= 48 && ArgsAt(data[48..], c.args)
  {
    if |data| >= 48 { ArgsAtIff(data[48..], c.args); }
    HeaderHasNoArgs(data);
  }

  lemma HeaderHasNoArgs(data: string)
    ensures ScanHeader(data).Some? ==> ScanHeader(data).value.args == []
  {
  }

  /** A visible character that begins no number. */
  predicate StartsNoNumber(c: char) {
    '!' <= c <= '~' && !('0' <= c <= '9') && c != '+' && c != '-'
  }

  lemma NoNumber(w: nat, s: string)
    requires s != "" && StartsNoNumber(s[0])
    ensures ScanInt(w, s).None?
  {
    assert SkipSpace(s) == s;
    assert DigitRun(w, s) == "";
  }

  /** A length field without a brace, or with no number behind it, ends the list. */
  lemma NoLengthEndsList(head: string)
    requires head == "" || head[0] != '{' || (|head| > 1 && StartsNoNumber(head[1]))
    ensures DecodeArgs(head) == Some([])
  {
    if head != "" && head[0] == '{' {
      NoNumber(10, head[1..]);
      assert "{" <= head;
    }
    assert ArgSize(head) == 0;
  }

  /** In general the arguments up to the first empty one arrive. */
  lemma CallArrivesUpToEmpty(c: Call)
    requires Sized(c) && NoStops(c)
    requires forall a | a in c.args :: |a| <= INT_MAX
    ensures Decode(Encode(c)) == Some(c.(args := UpToEmpty(c.args)))
  {
    EncodeLayout(c);
    ArgsStopAtEmpty(c.args);
    ScanIds(c, EncodeArgs(c.args) + "}}");
  }

  // ---------- A call is one frame ----------

  /** Two nested braces close together exactly when what they hold is level. */
  lemma DoubleBraceIsFrame(body: string)
    ensures IsFrame("{{" + body + "}}") <==> Level(2, body)
  {
    var inner := "{" + body + "}";
    assert "{" + inner + "}" == "{{" + body + "}}";
    WrappedLevelIsFrame(inner);
    var p, r := Pos(Json, 1), Pos(Json, 2);
    assert inner[1..] == body + "}" && Next(p, '{') == r;
    StaysConcat(r, body, "}");
    WalkConcat(r, body, "}");
    var q := Walk(r, body);
    assert Walk(q, "}") == Next(q, '}');
    assert Stays(q, "}") <==> Next(q, '}').mode != Final;
  }

  /** The framer takes an encoded call for one message exactly when what the encoder put
      between the outer braces is level; nothing is assumed of the fields. */
  lemma CallIsFramedIff(c: Call)
    ensures IsFrame(Encode(c)) <==> Level(2, Body(c))
  {
    DoubleBraceIsFrame(Body(c));
  }

  lemma LengthFieldIsLevel(n: nat)
    requires n <= INT_MAX
    ensures Level(2, LengthField(n))
  {
    Pow10Ten();
    PaddedIsFixed(10, n);
    FixedIsDigits(10, n);
    var p := PrintPadded(10, n);
    assert LengthField(n) == "{" + p + "}";
    forall x | x in p ensures IsPlain(x) { assert IsDigit(x); }
    PlainIsLevel(3, p);
    BracedIsLevel(2, p);
  }

  lemma {:induction false} ArgsAreLevel(args: seq<string>)
    requires forall a | a in args :: |a| <= INT_MAX && Level(2, a)
    ensures Level(2, EncodeArgs(args))
  {
    if args == [] {
      LengthFieldIsLevel(0);
    } else {
      assert args[0] in args && forall a | a in args[1..] :: a in args;
      LengthFieldIsLevel(|args[0]|);
      ArgsAreLevel(args[1..]);
      LevelConcat(2, LengthField(|args[0]|), args[0]);
      LevelConcat(2, LengthField(|args[0]|) + args[0], EncodeArgs(args[1..]));
    }
  }

  /** Every field and argument closes what it opens (strings balanced on their own qualify). */
  predicate LevelFields(c: Call) {
    && Level(2, c.moduleId) && Level(2, c.functionId) && Level(2, c.returnType) && Level(2, c.msgId)
    && forall a | a in c.args :: |a| <= INT_MAX && Level(2, a)
  }

  lemma SeparatorIsLevel()
    ensures Level(2, "}{") && Level(2, "15}{")
  {
    var p := Pos(Json, 2);
    assert Next(p, '}') == Pos(Json, 1) && Next(Pos(Json, 1), '{') == p;
    assert "}{"[1..] == "{" && "{"[1..] == "";
    assert Walk(Pos(Json, 1), "{") == p && Stays(Pos(Json, 1), "{");
    PlainIsLevel(2, "15");
    LevelConcat(2, "15", "}{");
    assert "15" + "}{" == "15}{";
  }

  lemma EncodedIsFrame(c: Call)
    requires LevelFields(c)
    ensures IsFrame(Encode(c))
  {
    SeparatorIsLevel();
    ArgsAreLevel(c.args);
    LevelConcat(2, c.moduleId, "}{");
    LevelConcat(2, c.moduleId + "}{", c.functionId);
    LevelConcat(2, c.moduleId + "}{" + c.functionId, "}{");
    LevelConcat(2, c.moduleId + "}{" + c.functionId + "}{", c.returnType);
    LevelConcat(2, c.moduleId + "}{" + c.functionId + "}{" + c.returnType, "}{");
    LevelConcat(2, c.moduleId + "}{" + c.functionId + "}{" + c.returnType + "}{", c.msgId);
    LevelConcat(2, c.moduleId + "}{" + c.functionId + "}{" + c.returnType + "}{" + c.msgId, "}{");
    LevelConcat(2, "15}{", Ids(c));
    LevelConcat(2, "15}{" + Ids(c), EncodeArgs(c.args));
    DoubleBraceIsFrame(Body(c));
  }

  /** Text balanced on its own stays level at any depth. */
  lemma BalancedIsLevel(d: int, s: string)
    requires d >= 1 && Balanced(s)
    ensures Level(d, s)
  {
    var t := ParseBalanced(s);
    PrintedIsLevel(d, t);
  }

  // ---------- The stream ----------

  function Encodings(calls: seq<Call>): seq<string> {
    seq(|calls|, i requires 0 <= i < |calls| => Encode(calls[i]))
  }

  function DecodeAll(frames: seq<string>): seq<Option<Call>> {
    seq(|frames|, i requires 0 <= i < |frames| => Decode(frames[i]))
  }

  lemma DecodeSnoc(frames: seq<string>, f: string)
    ensures DecodeAll(frames + [f]) == DecodeAll(frames) + [Decode(f)]
  {
  }

  lemma DecodeJoin(a: seq<string>, b: seq<string>)
    ensures DecodeAll(a + b) == DecodeAll(a) + DecodeAll(b)
  {
  }

  /** The messages that get past the skipping of the very first one. */
  function Heard(first: bool, frames: seq<string>): seq<string> {
    if first && frames != [] then frames[1..] else frames
  }

  /** What the core makes of a whole stream from its component. */
  function CoreHears(stream: string): seq<Option<Call>> {
    DecodeAll(Heard(true, Feed(FRESH, stream).frames))
  }

  /** The core's end of the component link: the framer and the flag that skips the first message. */
  class ComponentLink {
    const buffer: Buffer
    var first: bool

    constructor ()
      ensures first && fresh(buffer) && buffer.Abstract([]) == FRESH
    {
      buffer := new Buffer();
      first := true;
    }

    method OnData(data: string) returns (calls: seq<Option<Call>>)
      modifies this, buffer
      ensures var r := Feed(old(buffer.Abstract([])), data);
              && buffer.Abstract(r.frames) == r
              && first == (old(first) && r.frames == [])
              && calls == DecodeAll(Heard(old(first), r.frames))
    {
      var frames := buffer.Update(data);
      calls := [];
      var i := 0;
      while i < |frames|
        invariant 0 <= i <= |frames|
        invariant first == (old(first) && i == 0)
        invariant calls == DecodeAll(Heard(old(first), frames[..i]))
        invariant buffer.Abstract(frames) == Feed(old(buffer.Abstract([])), data)
      {
        assert frames[..i + 1] == frames[..i] + [frames[i]];
        if first {
          first := false;
        } else {
          var call := AppSet(frames[i]);
          calls := calls + [call];
          DecodeSnoc(Heard(old(first), frames[..i]), frames[i]);
          assert Heard(old(first), frames[..i + 1]) == Heard(old(first), frames[..i]) + [frames[i]];
        }
        i := i + 1;
      }
      assert frames[..i] == frames;
    }

    method OnDataAll(chunks: seq<string>) returns (calls: seq<Option<Call>>)
      requires first && buffer.Abstract([]) == FRESH
      modifies this, buffer
      ensures var r := Feed(FRESH, Join(chunks));
              && buffer.Abstract(r.frames) == r
              && calls == CoreHears(Join(chunks))
    {
      calls := [];
      ghost var frames: seq<string> := [];
      var i := 0;
      while i < |chunks|
        invariant 0 <= i <= |chunks|
        invariant buffer.Abstract(frames) == Feed(FRESH, Join(chunks[..i]))
        invariant first == (frames == [])
        invariant calls == DecodeAll(Heard(true, frames))
      {
        ghost var delta := Feed(buffer.Abstract([]), chunks[i]).frames;
        var more := OnData(chunks[i]);
        OneMoreChunk(FRESH, chunks, i);
        DecodeJoin(Heard(true, frames), Heard(frames == [], delta));
        assert Heard(true, frames + delta) == Heard(true, frames) + Heard(frames == [], delta);
        frames := frames + delta;
        calls := calls + more;
        i := i + 1;
      }
      assert chunks[..i] == chunks;
    }
  }

  /** After the key message, any list of calls sent back to back arrives as that list, in order:
      each call with its arguments up to the first empty one. */
  lemma StreamOfCalls(noise: string, key: string, calls: seq<Call>)
    requires IsGap(noise) && IsFrame(key)
    requires forall c | c in calls :: Sized(c) && NoStops(c) && LevelFields(c)
    ensures CoreHears(noise + key + Join(Encodings(calls)))
         == seq(|calls|, i requires 0 <= i < |calls| => Some(calls[i].(args := UpToEmpty(calls[i].args))))
  {
    var encoded := Encodings(calls);
    var arrived := seq(|calls|, i requires 0 <= i < |calls| => Some(calls[i].(args := UpToEmpty(calls[i].args))));
    forall f | f in encoded ensures IsFrame(f) {
      var i :| 0 <= i < |calls| && f == encoded[i];
      assert calls[i] in calls;
      EncodedIsFrame(calls[i]);
    }
    StreamIsHeard(noise, key, encoded);
    forall i | 0 <= i < |calls| ensures Decode(encoded[i]) == arrived[i] {
      assert calls[i] in calls;
      CallArrivesUpToEmpty(calls[i]);
    }
    assert DecodeAll(encoded) == arrived;
  }

  lemma StreamIsHeard(noise: string, key: string, frames: seq<string>)
    requires IsGap(noise) && IsFrame(key) && forall f | f in frames :: IsFrame(f)
    ensures CoreHears(noise + key + Join(frames)) == DecodeAll(frames)
  {
    FeedGap(FRESH, noise);
    FeedFrame([], key);
    ChunkingInvariance(FRESH, noise, key);
    ChunkingInvariance(FRESH, noise + key, Join(frames));
    assert [] + [key] == [key];
    FramesBackToBack([key], frames);
    assert ([key] + frames)[1..] == frames;
  }

  lemma {:induction false} NothingToCut(args: seq<string>)
    ensures UpToEmpty(args) == args <==> "" !in args
  {
    if args != [] {
      NothingToCut(args[1..]);
      assert args == [args[0]] + args[1..];
      if args[0] != "" {
        assert ([args[0]] + UpToEmpty(args[1..]))[1..] == UpToEmpty(args[1..]);
      }
    }
  }

  /** The list arrives unchanged exactly when no argument is empty. */
  lemma CallStreamRoundTrip(noise: string, key: string, calls: seq<Call>)
    requires IsGap(noise) && IsFrame(key)
    requires forall c | c in calls :: Sized(c) && NoStops(c) && LevelFields(c)
    ensures (CoreHears(noise + key + Join(Encodings(calls)))
             == seq(|calls|, i requires 0 <= i < |calls| => Some(calls[i])))
            <==> forall c | c in calls :: "" !in c.args
  {
    StreamOfCalls(noise, key, calls);
    var heard := CoreHears(noise + key + Join(Encodings(calls)));
    var sent := seq(|calls|, i requires 0 <= i < |calls| => Some(calls[i]));
    forall i | 0 <= i < |calls| ensures heard[i] == sent[i] <==> "" !in calls[i].args {
      assert calls[i] in calls;
      NothingToCut(calls[i].args);
    }
    if heard == sent {
      forall c | c in calls ensures "" !in c.args {
        var i :| 0 <= i < |calls| && c == calls[i];
        assert heard[i] == sent[i];
      }
    } else {
      var i :| 0 <= i < |calls| && heard[i] != sent[i];
      assert calls[i] in calls;
    }
  }

  /** A stream of calls with printable identifiers and non-empty arguments, each field balanced on
      its own, arrives as that list. */
  lemma VisibleStreamRoundTrip(noise: string, key: string, calls: seq<Call>)
    requires IsGap(noise) && IsFrame(key)
    requires forall c | c in calls :: Sized(c) && VisibleIds(c) && LevelFields(c) && "" !in c.args
    ensures CoreHears(noise + key + Join(Encodings(calls)))
         == seq(|calls|, i requires 0 <= i < |calls| => Some(calls[i]))
  {
    forall c | c in calls ensures NoStops(c) {
      VisibleHaveNoStops(c);
    }
    CallStreamRoundTrip(noise, key, calls);
  }
}
