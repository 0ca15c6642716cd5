/** The two positional wire formats from the core to the component: replies (`b`), written by
    src/core/core_callbacks.c, and events (`a`), written by src/core/endpoint.c; both read by
    `api_on_message` in src/api/middleware.c. */
module AppCodec {
  import opened Framer
  import opened FrameGrammar
  import opened CFormat
  import CallCodec

  datatype Inbound = Event(epId: string, text: string) | Reply(msgId: string, payload: string) | Neither

  // ---------- Encoders ----------

  /** sprintf "%010lu", of which ten bytes are sent. */
  function Length10(n: nat): string {
    PrintPadded(10, n)[..10]
  }

  function ReplyBody(msgId: string, returnType: string, payload: string): string {
    msgId + "}{" + returnType + "}{" + Length10(|payload|) + "}{" + payload
  }

  function EventBody(epId: string, text: string): string {
    epId + "}{" + Length10(|text|) + "}{" + text
  }

  function EncodeReply(msgId: string, returnType: string, payload: string): string {
    "{b{" + ReplyBody(msgId, returnType, payload) + "}}"
  }

  function EncodeEvent(epId: string, text: string): string {
    "{a{" + EventBody(epId, text) + "}}"
  }

  /** Runs a decoded call and writes its result, if any, piece by piece. */
  method OnComponentMessage(msgId: string, returnType: string, returnMsg: Option<string>) returns (sent: string)
    requires |msgId| == 10 && |returnType| >= 3
    ensures sent == match returnMsg case None => "" case Some(m) => EncodeReply(msgId, returnType[..3], m)
  {
    sent := "";
    if returnMsg.Some? {
      var m := returnMsg.value;
      sent := sent + "{";
      sent := sent + "b" + "{";
      sent := sent + msgId[..10] + "}{";
      sent := sent + returnType[..3] + "}{";
      var str := PrintPadded(10, |m|);
      sent := sent + str[..10] + "}{";
      sent := sent + m;
      sent := sent + "}" + "}";
      assert msgId[..10] == msgId;
      assert sent == "{b{" + (msgId + "}{" + returnType[..3] + "}{" + str[..10] + "}{" + m) + "}}";
    }
  }

  method SendToApp(epId: string, returnMsg: string) returns (sent: string)
    requires |epId| >= 10
    ensures sent == EncodeEvent(epId[..10], returnMsg)
  {
    sent := "{" + "a" + "{";
    sent := sent + epId[..10] + "}{";
    var str := PrintPadded(10, |returnMsg|);
    sent := sent + str[..10] + "}{" + returnMsg;
    sent := sent + "}" + "}";
    assert sent == "{a{" + (epId[..10] + "}{" + str[..10] + "}{" + returnMsg) + "}}";
  }

  // ---------- Decoder ----------

  /** sscanf "{%010d}"; None leaves the variable unwritten. */
  function ScanSize(s: string): (size: Option<int>)
    ensures size.Some? ==> INT_MIN <= size.value <= INT_MAX
  {
    var digits :- CallCodec.ScanLit("{", s);
    var n :- ScanInt(10, digits);
    Some(ToInt32(n.0))
  }

  /** None where the code reads outside the message, an unwritten size, or allocates a negative one. */
  function Decode(data: string): Option<Inbound> {
    if |data| < 2 then None
    else if data[1] == 'a' then
      if |data| < 27 then None
      else
        var size :- ScanSize(data[14..]);
        if size < 0 then None else Some(Event(CopyN(data[3..], 10), CopyN(data[27..], size)))
    else if data[1] == 'b' then
      if |data| < 32 then None
      else
        var size :- ScanSize(data[19..]);
        if size < 0 then None else Some(Reply(CopyN(data[3..], 10), CopyN(data[32..], size)))
    else Some(Neither)
  }

  // ---------- Round trips ----------

  lemma ScanBraced(digits: string, rest: string)
    ensures CallCodec.ScanLit("{", "{" + digits + rest) == Some(digits + rest)
  {
    var s := "{" + digits + rest;
    assert "{" <= s && s[1..] == digits + rest;
  }

  lemma SizeReadsBack(n: nat, rest: string)
    ensures |Length10(n)| == 10
    ensures ScanSize("{" + Length10(n) + rest) == Some(n as int) <==> n <= INT_MAX
  {
    Pow10Ten();
    if n < Pow10(10) {
      ScanTen(n, rest);
      assert Length10(n) == PrintPadded(10, n);
      ScanBraced(Length10(n), rest);
    }
  }

  /** The copied payload is the sent one exactly when the scanned size is its length. */
  lemma PayloadReadsBack(payload: string)
    requires NoNul(payload)
    ensures var s := "{" + Length10(|payload|) + ("}{" + payload + "}}");
            var size := ScanSize(s);
            (size.Some? && size.value >= 0 && CopyN(payload + "}}", size.value) == payload) <==> |payload| <= INT_MAX
  {
    SizeReadsBack(|payload|, "}{" + payload + "}}");
    CopyWhole(payload, "}}");
    var size := ScanSize("{" + Length10(|payload|) + ("}{" + payload + "}}"));
    if |payload| > INT_MAX && size.Some? && size.value >= 0 {
      CStringLength((payload + "}}")[..size.value]);
    }
  }

  lemma ReplyLayout(msgId: string, returnType: string, payload: string)
    requires |msgId| == 10 && |returnType| == 3
    ensures var data := EncodeReply(msgId, returnType, payload);
            && |data| >= 32 && data[1] == 'b' && data[3..] == msgId + data[13..]
            && data[19..] == "{" + Length10(|payload|) + ("}{" + payload + "}}")
            && data[32..] == payload + "}}"
  {
    var data := EncodeReply(msgId, returnType, payload);
    assert |Length10(|payload|)| == 10;
    assert data[3..] == msgId + data[13..];
    assert data[19..] == "{" + Length10(|payload|) + ("}{" + payload + "}}");
    assert data[32..] == payload + "}}";
  }

  lemma EventLayout(epId: string, text: string)
    requires |epId| == 10
    ensures var data := EncodeEvent(epId, text);
            && |data| >= 27 && data[1] == 'a' && data[3..] == epId + data[13..]
            && data[14..] == "{" + Length10(|text|) + ("}{" + text + "}}")
            && data[27..] == text + "}}"
  {
    var data := EncodeEvent(epId, text);
    assert |Length10(|text|)| == 10;
    assert data[3..] == epId + data[13..];
    assert data[14..] == "{" + Length10(|text|) + ("}{" + text + "}}");
    assert data[27..] == text + "}}";
  }

  /** What stands where in a reply: identifier, return type, length and payload between braces. */
  lemma ReplyBytes(msgId: string, returnType: string, payload: string)
    requires |msgId| == 10 && |returnType| == 3 && |payload| <= INT_MAX
    ensures var data := EncodeReply(msgId, returnType, payload);
            && |data| == 34 + |payload|
            && data[..3] == "{b{" && data[3..13] == msgId && data[13..15] == "}{" && data[15..18] == returnType
            && data[18..20] == "}{" && data[20..30] == FixedDigits(10, |payload|) && data[30..32] == "}{"
            && data[32..32 + |payload|] == payload && data[32 + |payload|..] == "}}"
  {
    TenDigits(|payload|);
    var data := EncodeReply(msgId, returnType, payload);
    assert data == "{b{" + msgId + "}{" + returnType + "}{" + FixedDigits(10, |payload|) + "}{" + payload + "}}";
  }

  lemma TenDigits(n: nat)
    requires n <= INT_MAX
    ensures Length10(n) == FixedDigits(10, n)
  {
    Pow10Ten();
    PaddedIsFixed(10, n);
  }

  /** And in an event. */
  lemma EventBytes(epId: string, text: string)
    requires |epId| == 10 && |text| <= INT_MAX
    ensures var data := EncodeEvent(epId, text);
            && |data| == 29 + |text|
            && data[..3] == "{a{" && data[3..13] == epId && data[13..15] == "}{"
            && data[15..25] == FixedDigits(10, |text|) && data[25..27] == "}{"
            && data[27..27 + |text|] == text && data[27 + |text|..] == "}}"
  {
    TenDigits(|text|);
    var data := EncodeEvent(epId, text);
    assert data == "{a{" + epId + "}{" + FixedDigits(10, |text|) + "}{" + text + "}}";
  }

  /** A reply is read back whole exactly when its length fits an int. */
  lemma ReplyRoundTrip(msgId: string, returnType: string, payload: string)
    requires |msgId| == 10 && |returnType| == 3 && NoNul(msgId) && NoNul(payload)
    ensures Decode(EncodeReply(msgId, returnType, payload)) == Some(Reply(msgId, payload)) <==> |payload| <= INT_MAX
  {
    ReplyLayout(msgId, returnType, payload);
    CopyWhole(msgId, EncodeReply(msgId, returnType, payload)[13..]);
    PayloadReadsBack(payload);
  }

  /** An event is read back whole exactly when its length fits an int. */
  lemma EventRoundTrip(epId: string, text: string)
    requires |epId| == 10 && NoNul(epId) && NoNul(text)
    ensures Decode(EncodeEvent(epId, text)) == Some(Event(epId, text)) <==> |text| <= INT_MAX
  {
    EventLayout(epId, text);
    CopyWhole(epId, EncodeEvent(epId, text)[13..]);
    PayloadReadsBack(text);
  }

  // ---------- One frame each ----------

  lemma LevelPrefix(d: int, a: string, b: string)
    requires Level(d, a)
    ensures Level(d, a + b) <==> Level(d, b)
  {
    StaysConcat(Pos(Json, d), a, b);
    WalkConcat(Pos(Json, d), a, b);
  }

  lemma TaggedIsFrame(tag: char, body: string)
    requires IsPlain(tag)
    ensures IsFrame("{" + [tag] + "{" + body + "}}") <==> Level(2, body)
  {
    PlainIsLevel(1, [tag]);
    var wrapped := "{" + body + "}";
    LevelPrefix(1, [tag], wrapped);
    WrappedLevelIsFrame([tag] + wrapped);
    WrappedLevelIsFrame(wrapped);
    CallCodec.DoubleBraceIsFrame(body);
    assert "{" + ([tag] + wrapped) + "}" == "{" + [tag] + "{" + body + "}}";
    assert "{" + wrapped + "}" == "{{" + body + "}}";
  }

  lemma Length10IsLevel(n: nat)
    ensures Level(2, Length10(n))
  {
    PaddedIsDigits(10, n);
    forall c | c in Length10(n) ensures IsPlain(c) {
      assert c in PrintPadded(10, n) && IsDigit(c);
    }
    PlainIsLevel(2, Length10(n));
  }

  lemma PaddedIsDigits(w: nat, n: nat)
    ensures forall c | c in PrintPadded(w, n) :: IsDigit(c)
  {
    NatIsDigits(n);
  }

  /** The reply frames as one message exactly when its payload closes what it opens. */
  lemma ReplyIsFramedIff(msgId: string, returnType: string, payload: string)
    requires Level(2, msgId) && Level(2, returnType)
    ensures IsFrame(EncodeReply(msgId, returnType, payload)) <==> Level(2, payload)
  {
    CallCodec.SeparatorIsLevel();
    var len := Length10(|payload|);
    Length10IsLevel(|payload|);
    var a1 := msgId + "}{";
    var a2 := a1 + returnType;
    var a3 := a2 + "}{";
    var a4 := a3 + len;
    LevelConcat(2, msgId, "}{");
    LevelConcat(2, a1, returnType);
    LevelConcat(2, a2, "}{");
    LevelConcat(2, a3, len);
    LevelConcat(2, a4, "}{");
    LevelPrefix(2, a4 + "}{", payload);
    assert ReplyBody(msgId, returnType, payload) == a4 + "}{" + payload;
    assert "{" + ['b'] + "{" + ReplyBody(msgId, returnType, payload) + "}}" == EncodeReply(msgId, returnType, payload);
    TaggedIsFrame('b', ReplyBody(msgId, returnType, payload));
  }

  lemma EventIsFramedIff(epId: string, text: string)
    requires Level(2, epId)
    ensures IsFrame(EncodeEvent(epId, text)) <==> Level(2, text)
  {
    CallCodec.SeparatorIsLevel();
    var len := Length10(|text|);
    Length10IsLevel(|text|);
    LevelConcat(2, epId, "}{");
    LevelConcat(2, epId + "}{", len);
    LevelConcat(2, epId + "}{" + len, "}{");
    LevelPrefix(2, epId + "}{" + len + "}{", text);
    assert EventBody(epId, text) == epId + "}{" + len + "}{" + text;
    assert "{" + ['a'] + "{" + EventBody(epId, text) + "}}" == EncodeEvent(epId, text);
    TaggedIsFrame('a', EventBody(epId, text));
  }

  // ---------- The stream to the component ----------

  /** What the core writes to the component: a reply with its return type, or an event. */
  datatype Outbound = ToCaller(msgId: string, returnType: string, payload: string)
    | ToEndpoint(epId: string, text: string)

  predicate Deliverable(m: Outbound) {
    match m
    case ToCaller(id, ret, p) =>
      |id| == 10 && |ret| == 3 && NoNul(id) && NoNul(p) && |p| <= INT_MAX
      && Level(2, id) && Level(2, ret) && Level(2, p)
    case ToEndpoint(id, t) => |id| == 10 && NoNul(id) && NoNul(t) && |t| <= INT_MAX && Level(2, id) && Level(2, t)
  }

  function Encode(m: Outbound): string {
    match m case ToCaller(id, ret, p) => EncodeReply(id, ret, p) case ToEndpoint(id, t) => EncodeEvent(id, t)
  }

  function Received(m: Outbound): Inbound {
    match m case ToCaller(id, _, p) => Reply(id, p) case ToEndpoint(id, t) => Event(id, t)
  }

  function DecodeAll(frames: seq<string>): seq<Option<Inbound>> {
    seq(|frames|, i requires 0 <= i < |frames| => Decode(frames[i]))
  }

  function AppHears(stream: string): seq<Option<Inbound>> {
    DecodeAll(Feed(FRESH, stream).frames)
  }

  function Written(ms: seq<Outbound>): seq<string> {
    seq(|ms|, i requires 0 <= i < |ms| => Encode(ms[i]))
  }

  /** Replies and events sent back to back arrive as that list, in order. */
  lemma OutboundStreamRoundTrip(ms: seq<Outbound>)
    requires forall m | m in ms :: Deliverable(m)
    ensures AppHears(Join(Written(ms))) == seq(|ms|, i requires 0 <= i < |ms| => Some(Received(ms[i])))
  {
    forall i | 0 <= i < |ms| ensures IsFrame(Written(ms)[i]) && Decode(Written(ms)[i]) == Some(Received(ms[i])) {
      assert ms[i] in ms;
      match ms[i]
      case ToCaller(id, ret, p) => ReplyIsFramedIff(id, ret, p); ReplyRoundTrip(id, ret, p);
      case ToEndpoint(id, t) => EventIsFramedIff(id, t); EventRoundTrip(id, t);
    }
    FramesBackToBack([], Written(ms));
    assert [] + Written(ms) == Written(ms);
  }

  // ---------- Blocking calls ----------

  /** What surrounds the handling of one message: what the variables the code does not write then
      hold, and whether the endpoint an event names is known (otherwise the code returns early). */
  datatype Left = Left(msgId: string, text: string, endpointKnown: bool)

  /** One for each message handled over the life of the link. */
  type Leftovers = nat -> Left

  /** The identifier a message is compared by, if it is: a reply's own, else what is left over. */
  predicate Wakes(id: string, m: Option<Inbound>, left: Left) {
    m.Some? && (
      match m.value
      case Reply(msgId, _) => msgId == id
      case Event(_, _) => left.endpointKnown && left.msgId == id
      case Neither => left.msgId == id)
  }

  function TextOf(m: Inbound, left: Left): string {
    match m case Reply(_, payload) => payload case Event(_, text) => text case Neither => left.text
  }

  /** What one message of the stream does to a caller blocked on `id`, by its second byte: a reply is
      compared by the ten bytes it carries, anything else by the identifier left over, an event only if
      its endpoint is known; and a message of neither kind wakes with the text left over. What an event
      wakes with is its own text, as long as its length field says. */
  lemma WhatWakes(id: string, data: string, left: Left)
    requires |data| >= 2
    ensures data[1] == 'b' && Decode(data).Some? ==> (Wakes(id, Decode(data), left) <==> CString(data[3..13]) == id)
    ensures data[1] == 'a' && Decode(data).Some? ==>
              && (Wakes(id, Decode(data), left) <==> left.endpointKnown && left.msgId == id)
              && ScanSize(data[14..]).Some? && ScanSize(data[14..]).value >= 0
              && TextOf(Decode(data).value, left) == CopyN(data[27..], ScanSize(data[14..]).value)
    ensures data[1] != 'a' && data[1] != 'b' ==>
              && Decode(data).Some? && TextOf(Decode(data).value, left) == left.text
              && (Wakes(id, Decode(data), left) <==> left.msgId == id)
    ensures Decode(data).None? ==> !Wakes(id, Decode(data), left)
  {
    if data[1] == 'b' && |data| >= 32 { assert data[3..][..10] == data[3..13]; }
  }

  /** The first message that wakes the caller blocked on `id`; the first one heard is the at-th
      handled. */
  function WokenBy(id: string, heard: seq<Option<Inbound>>, left: Leftovers, at: nat): (k: Option<nat>)
    ensures k.Some? ==> k.value < |heard| && Wakes(id, heard[k.value], left(at + k.value))
    decreases heard
  {
    if heard == [] then None
    else if Wakes(id, heard[0], left(at)) then Some(0)
    else
      var k :- WokenBy(id, heard[1..], left, at + 1);
      Some(k + 1)
  }

  /** What the caller is woken with. */
  function Await(id: string, heard: seq<Option<Inbound>>, left: Leftovers, at: nat): Option<string>
    decreases heard
  {
    if heard == [] then None
    else if Wakes(id, heard[0], left(at)) then Some(TextOf(heard[0].value, left(at)))
    else Await(id, heard[1..], left, at + 1)
  }

  /** It is the text of the first message that wakes it. */
  lemma {:induction false} AwaitIsFirst(id: string, heard: seq<Option<Inbound>>, left: Leftovers, at: nat)
    ensures Await(id, heard, left, at) ==
            match WokenBy(id, heard, left, at)
            case None => None
            case Some(k) => Some(TextOf(heard[k].value, left(at + k)))
    decreases heard
  {
    if heard != [] && !Wakes(id, heard[0], left(at)) {
      AwaitIsFirst(id, heard[1..], left, at + 1);
    }
  }

  lemma {:induction false} AwaitConcat(id: string, a: seq<Option<Inbound>>, b: seq<Option<Inbound>>,
                                       left: Leftovers, at: nat)
    ensures Await(id, a + b, left, at) ==
            if Await(id, a, left, at).Some? then Await(id, a, left, at) else Await(id, b, left, at + |a|)
    decreases a
  {
    if a == [] {
      assert a + b == b;
    } else {
      assert (a + b)[0] == a[0] && (a + b)[1..] == a[1..] + b;
      AwaitConcat(id, a[1..], b, left, at + 1);
    }
  }

  lemma DecodeJoin(a: seq<string>, b: seq<string>)
    ensures DecodeAll(a + b) == DecodeAll(a) + DecodeAll(b)
  {
  }

  lemma AwaitMore(id: string, frames: seq<string>, more: seq<string>, left: Leftovers, at: nat)
    ensures Await(id, DecodeAll(frames + more), left, at) ==
            if Await(id, DecodeAll(frames), left, at).Some? then Await(id, DecodeAll(frames), left, at)
            else Await(id, DecodeAll(more), left, at + |frames|)
  {
    DecodeJoin(frames, more);
    AwaitConcat(id, DecodeAll(frames), DecodeAll(more), left, at);
  }

  /** The component's end of the link; `handled` counts its messages. */
  class ApiLink {
    const buffer: Buffer
    var waiting: bool
    var blockingMsgId: string
    var handled: nat

    constructor ()
      ensures !waiting && handled == 0 && fresh(buffer) && buffer.Abstract([]) == FRESH
    {
      buffer := new Buffer();
      waiting, blockingMsgId, handled := false, "", 0;
    }

    method Block(msgId: string)
      modifies this`waiting, this`blockingMsgId
      ensures waiting && blockingMsgId == msgId
    {
      blockingMsgId := msgId;
      waiting := true;
    }

    /** Handles one message as decoded; `result` is what the blocked caller is woken with, if it is. */
    method OnMessage(msg: Option<Inbound>, left: Leftovers) returns (result: Option<string>)
      modifies this`waiting, this`handled
      ensures result == if old(waiting) && Wakes(blockingMsgId, msg, left(old(handled)))
                        then Some(TextOf(msg.value, left(old(handled)))) else None
      ensures handled == old(handled) + 1
      ensures waiting == (old(waiting) && result.None?)
    {
      result := None;
      var now := left(handled);
      handled := handled + 1;
      if msg.None? || (msg.value.Event? && !now.endpointKnown) { return; }
      var msgId := if msg.value.Reply? then msg.value.msgId else now.msgId;
      if waiting && blockingMsgId == msgId {
        waiting := false;
        result := Some(TextOf(msg.value, now));
      }
    }

    /** Handles the messages of one chunk, in order. */
    method OnMessages(heard: seq<Option<Inbound>>, left: Leftovers) returns (result: Option<string>)
      modifies this`waiting, this`handled
      ensures handled == old(handled) + |heard|
      ensures result == if old(waiting) then Await(blockingMsgId, heard, left, old(handled)) else None
      ensures waiting == (old(waiting) && result.None?)
    {
      result := None;
      var i := 0;
      while i < |heard|
        invariant 0 <= i <= |heard| && handled == old(handled) + i
        invariant waiting == (old(waiting) && result.None?)
        invariant old(waiting) ==> Await(blockingMsgId, heard, left, old(handled)) ==
                                   if result.Some? then result else Await(blockingMsgId, heard[i..], left, handled)
        invariant !old(waiting) ==> result.None?
      {
        assert heard[i..][1..] == heard[i + 1..];
        var more := OnMessage(heard[i], left);
        if more.Some? { result := more; }
        i := i + 1;
      }
    }

    /** Handles one chunk. */
    method OnData(data: string, left: Leftovers) returns (result: Option<string>)
      modifies this`waiting, this`handled, buffer
      ensures var r := Feed(old(buffer.Abstract([])), data);
              && buffer.Abstract(r.frames) == r
              && handled == old(handled) + |r.frames|
              && result == if old(waiting) then Await(blockingMsgId, DecodeAll(r.frames), left, old(handled)) else None
      ensures waiting == (old(waiting) && result.None?)
    {
      var frames := buffer.Update(data);
      result := OnMessages(DecodeAll(frames), left);
    }

    /** The stream from the core in any chunks: the blocked caller is woken by the first message of
        the whole of it that carries, or finds left over, its identifier. */
    method OnDataAll(chunks: seq<string>, left: Leftovers) returns (result: Option<string>)
      modifies this`waiting, this`handled, buffer
      ensures var r := Feed(old(buffer.Abstract([])), Join(chunks));
              && buffer.Abstract(r.frames) == r
              && handled == old(handled) + |r.frames|
              && result == if old(waiting) then Await(blockingMsgId, DecodeAll(r.frames), left, old(handled)) else None
      ensures waiting == (old(waiting) && result.None?)
    {
      result := None;
      ghost var start := buffer.Abstract([]);
      ghost var frames: seq<string> := [];
      var i := 0;
      while i < |chunks|
        invariant 0 <= i <= |chunks|
        invariant buffer.Abstract(frames) == Feed(start, Join(chunks[..i]))
        invariant handled == old(handled) + |frames|
        invariant waiting == (old(waiting) && result.None?)
        invariant result == if old(waiting) then Await(blockingMsgId, DecodeAll(frames), left, old(handled)) else None
      {
        ghost var delta := Feed(buffer.Abstract([]), chunks[i]).frames;
        var more := OnData(chunks[i], left);
        OneMoreChunk(start, chunks, i);
        AwaitMore(blockingMsgId, frames, delta, left, old(handled));
        frames := frames + delta;
        if more.Some? { result := more; }
        i := i + 1;
      }
      assert chunks[..i] == chunks;
    }

    /** A blocking call: what arrives after it is sent, but before the waiting flag is set, wakes
        nobody; the result is what the rest of the stream wakes the caller with. */
    method AwaitReply(msgId: string, early: seq<string>, late: seq<string>, left: Leftovers)
      returns (result: Option<string>)
      requires !waiting
      modifies this, buffer
      ensures var s := Feed(old(buffer.Abstract([])), Join(early));
              result == Await(msgId, DecodeAll(Feed(s.(frames := []), Join(late)).frames), left,
                              old(handled) + |s.frames|)
      ensures waiting == result.None?
    {
      var _ := OnDataAll(early, left);
      Block(msgId);
      result := OnDataAll(late, left);
    }
  }

  // ---------- Whose result a blocking call returns ----------

  function ReceivedAll(ms: seq<Outbound>): seq<Option<Inbound>> {
    seq(|ms|, i requires 0 <= i < |ms| => Some(Received(ms[i])))
  }

  /** Some event among the first j finds the identifier left over. */
  predicate Misled(id: string, ms: seq<Outbound>, j: nat, left: Leftovers, at: nat)
    requires j <= |ms|
  {
    exists i :: 0 <= i < j && ms[i].ToEndpoint? && left(at + i).endpointKnown && left(at + i).msgId == id
  }

  predicate NoneWakes(id: string, heard: seq<Option<Inbound>>, j: nat, left: Leftovers, at: nat)
    requires j <= |heard|
  {
    forall i | 0 <= i < j :: !Wakes(id, heard[i], left(at + i))
  }

  lemma {:induction false} WokenByFirst(id: string, heard: seq<Option<Inbound>>, left: Leftovers, at: nat)
    ensures match WokenBy(id, heard, left, at)
            case None => NoneWakes(id, heard, |heard|, left, at)
            case Some(k) => NoneWakes(id, heard, k, left, at)
    decreases heard
  {
    if heard != [] && !Wakes(id, heard[0], left(at)) {
      var rest := heard[1..];
      WokenByFirst(id, rest, left, at + 1);
      forall i | 1 <= i < |heard|
        ensures Wakes(id, heard[i], left(at + i)) == Wakes(id, rest[i - 1], left(at + 1 + (i - 1)))
      {
        assert at + 1 + (i - 1) == at + i;
      }
    }
  }

  /** Among messages that carry other identifiers only a leftover can wake the caller. */
  lemma OnlyMisled(id: string, ms: seq<Outbound>, j: nat, left: Leftovers, at: nat)
    requires j <= |ms| && forall i | 0 <= i < j :: ms[i].ToCaller? ==> ms[i].msgId != id
    ensures NoneWakes(id, ReceivedAll(ms), j, left, at) <==> !Misled(id, ms, j, left, at)
  {
    forall i | 0 <= i < j
      ensures Wakes(id, ReceivedAll(ms)[i], left(at + i))
              <==> ms[i].ToEndpoint? && left(at + i).endpointKnown && left(at + i).msgId == id
    {
      assert ReceivedAll(ms)[i] == Some(Received(ms[i]));
    }
  }

  /** If no earlier reply carries its identifier, a reply wakes its caller exactly if no event
      before it finds that identifier left over; and then with its payload. */
  lemma FirstReplyWins(ms: seq<Outbound>, j: nat, left: Leftovers, at: nat)
    requires j < |ms| && ms[j].ToCaller?
    requires forall i | 0 <= i < j :: ms[i].ToCaller? ==> ms[i].msgId != ms[j].msgId
    ensures WokenBy(ms[j].msgId, ReceivedAll(ms), left, at) == Some(j) <==> !Misled(ms[j].msgId, ms, j, left, at)
    ensures !Misled(ms[j].msgId, ms, j, left, at) ==>
              Await(ms[j].msgId, ReceivedAll(ms), left, at) == Some(ms[j].payload)
  {
    var id, heard := ms[j].msgId, ReceivedAll(ms);
    assert heard[j] == Some(Received(ms[j])) && Wakes(id, heard[j], left(at + j));
    OnlyMisled(id, ms, j, left, at);
    FirstIsUnique(id, heard, j, left, at);
    AwaitIsFirst(id, heard, left, at);
  }

  lemma FirstIsUnique(id: string, heard: seq<Option<Inbound>>, j: nat, left: Leftovers, at: nat)
    requires j < |heard| && Wakes(id, heard[j], left(at + j))
    ensures WokenBy(id, heard, left, at) == Some(j) <==> NoneWakes(id, heard, j, left, at)
  {
    WokenByFirst(id, heard, left, at);
  }

  /** A caller no reply is for is woken only by an event that finds its identifier left over. */
  lemma NobodysReply(id: string, ms: seq<Outbound>, left: Leftovers, at: nat)
    requires forall i | 0 <= i < |ms| :: ms[i].ToCaller? ==> ms[i].msgId != id
    ensures WokenBy(id, ReceivedAll(ms), left, at) == None <==> !Misled(id, ms, |ms|, left, at)
  {
    WokenByFirst(id, ReceivedAll(ms), left, at);
    OnlyMisled(id, ms, |ms|, left, at);
  }

  /** The n-th and later messages are what a caller hears that the k-th is the only reply to. */
  predicate OwnReplyCounts(ms: seq<Outbound>, k: nat, n: nat, left: Leftovers)
    requires k < |ms| && n <= |ms| && ms[k].ToCaller?
  {
    var id, heard := ms[k].msgId, ReceivedAll(ms[n..]);
    if n <= k then
      && (WokenBy(id, heard, left, n) == Some(k - n) <==> !Misled(id, ms[n..], k - n, left, n))
      && (!Misled(id, ms[n..], k - n, left, n) ==> Await(id, heard, left, n) == Some(ms[k].payload))
    else WokenBy(id, heard, left, n) == None <==> !Misled(id, ms[n..], |ms| - n, left, n)
  }

  lemma OwnReply(ms: seq<Outbound>, k: nat, n: nat, left: Leftovers)
    requires k < |ms| && n <= |ms| && ms[k].ToCaller?
    requires forall i | 0 <= i < |ms| && i != k :: ms[i].ToCaller? ==> ms[i].msgId != ms[k].msgId
    ensures OwnReplyCounts(ms, k, n, left)
  {
    var rest := ms[n..];
    if n <= k { FirstReplyWins(rest, k - n, left, n); } else { NobodysReply(ms[k].msgId, rest, left, n); }
  }

  /** The core's answers to a list of decoded calls, given what its functions return. */
  function Answers(calls: seq<CallCodec.Call>, run: CallCodec.Call -> Option<string>): seq<Outbound> {
    if calls == [] then []
    else
      var rest := Answers(calls[1..], run);
      match run(calls[0])
      case None => rest
      case Some(m) => [ToCaller(calls[0].msgId, calls[0].returnType, m)] + rest
  }

  /** The replies among what the core writes. */
  function Replies(ms: seq<Outbound>): seq<Outbound> {
    if ms == [] then [] else (if ms[0].ToCaller? then [ms[0]] else []) + Replies(ms[1..])
  }

  predicate DistinctCalls(calls: seq<CallCodec.Call>) {
    forall a, b | 0 <= a < b < |calls| :: calls[a].msgId != calls[b].msgId
  }

  /** Every reply answers a call. */
  lemma {:induction false} AnswersCall(calls: seq<CallCodec.Call>, run: CallCodec.Call -> Option<string>, i: nat)
    returns (j: nat)
    requires i < |Answers(calls, run)|
    ensures j < |calls| && run(calls[j]).Some?
    ensures Answers(calls, run)[i] == ToCaller(calls[j].msgId, calls[j].returnType, run(calls[j]).value)
  {
    if run(calls[0]).Some? && i == 0 {
      j := 0;
    } else {
      var j0 := AnswersCall(calls[1..], run, if run(calls[0]).Some? then i - 1 else i);
      j := j0 + 1;
    }
  }

  /** How many replies carry an identifier. */
  function Carriers(id: string, ms: seq<Outbound>): nat {
    if ms == [] then 0 else (if ms[0].ToCaller? && ms[0].msgId == id then 1 else 0) + Carriers(id, ms[1..])
  }

  lemma {:induction false} RepliesCarry(id: string, ms: seq<Outbound>)
    ensures Carriers(id, Replies(ms)) == Carriers(id, ms)
    decreases ms
  {
    if ms != [] {
      RepliesCarry(id, ms[1..]);
      if ms[0].ToCaller? {
        assert Replies(ms)[0] == ms[0] && Replies(ms)[1..] == Replies(ms[1..]);
      } else {
        assert Replies(ms) == Replies(ms[1..]);
      }
    }
  }

  lemma {:induction false} NotAsked(calls: seq<CallCodec.Call>, run: CallCodec.Call -> Option<string>, id: string)
    requires forall i | 0 <= i < |calls| :: calls[i].msgId != id
    ensures Carriers(id, Answers(calls, run)) == 0
  {
    if calls != [] {
      NotAsked(calls[1..], run, id);
      if run(calls[0]).Some? { assert Answers(calls, run)[1..] == Answers(calls[1..], run); }
    }
  }

  /** Of calls with distinct identifiers each that has a result is answered once. */
  lemma {:induction false} AnsweredOnce(calls: seq<CallCodec.Call>, run: CallCodec.Call -> Option<string>, j: nat)
    requires j < |calls| && run(calls[j]).Some? && DistinctCalls(calls)
    ensures Carriers(calls[j].msgId, Answers(calls, run)) == 1
  {
    var rest := calls[1..];
    forall a, b | 0 <= a < b < |rest| ensures rest[a].msgId != rest[b].msgId {
      assert calls[a + 1].msgId != calls[b + 1].msgId;
    }
    if run(calls[0]).Some? { assert Answers(calls, run)[1..] == Answers(rest, run); }
    if j == 0 {
      forall i | 0 <= i < |rest| ensures rest[i].msgId != calls[0].msgId {
        assert calls[0].msgId != calls[i + 1].msgId;
      }
      NotAsked(rest, run, calls[0].msgId);
    } else {
      assert calls[0].msgId != calls[j].msgId;
      AnsweredOnce(rest, run, j - 1);
    }
  }

  lemma {:induction false} NoCarrier(id: string, ms: seq<Outbound>, n: nat)
    requires Carriers(id, ms) == 0 && n < |ms| && ms[n].ToCaller?
    ensures ms[n].msgId != id
    decreases n
  {
    if n > 0 { NoCarrier(id, ms[1..], n - 1); }
  }

  lemma {:induction false} OnlyCarrier(id: string, ms: seq<Outbound>) returns (k: nat)
    requires Carriers(id, ms) == 1
    ensures k < |ms| && ms[k].ToCaller? && ms[k].msgId == id
    ensures forall n | 0 <= n < |ms| && n != k :: ms[n].ToCaller? ==> ms[n].msgId != id
    decreases ms
  {
    if ms[0].ToCaller? && ms[0].msgId == id {
      k := 0;
      forall n | 1 <= n < |ms| && ms[n].ToCaller? ensures ms[n].msgId != id {
        NoCarrier(id, ms[1..], n - 1);
      }
    } else {
      var k0 := OnlyCarrier(id, ms[1..]);
      k := k0 + 1;
      forall n | 1 <= n < |ms| && n != k && ms[n].ToCaller? ensures ms[n].msgId != id {
        assert ms[n] == ms[1..][n - 1];
      }
    }
  }

  lemma {:induction false} ReplyIndex(ms: seq<Outbound>, n: nat) returns (a: nat)
    requires n < |ms| && ms[n].ToCaller?
    ensures a < |Replies(ms)| && Replies(ms)[a] == ms[n]
    decreases ms
  {
    if n == 0 {
      a := 0;
    } else {
      a := ReplyIndex(ms[1..], n - 1);
      if ms[0].ToCaller? { a := a + 1; }
    }
  }

  /** The one reply that carries a call's identifier is the answer to that call. */
  lemma ReplyToCall(calls: seq<CallCodec.Call>, run: CallCodec.Call -> Option<string>, j: nat,
                    ms: seq<Outbound>, k: nat)
    requires DistinctCalls(calls) && j < |calls| && run(calls[j]).Some? && Replies(ms) == Answers(calls, run)
    requires k < |ms| && ms[k].ToCaller? && ms[k].msgId == calls[j].msgId
    ensures ms[k] == ToCaller(calls[j].msgId, calls[j].returnType, run(calls[j]).value)
  {
    var a := ReplyIndex(ms, k);
    var c := AnswersCall(calls, run, a);
    SameCall(calls, c, j);
  }

  lemma SameCall(calls: seq<CallCodec.Call>, c: nat, j: nat)
    requires DistinctCalls(calls) && c < |calls| && j < |calls| && calls[c].msgId == calls[j].msgId
    ensures c == j
  {
  }

  /** Bytes that arrive in two parts: the second part hands up the messages the first has not. */
  lemma TwoParts(ms: seq<Outbound>, early: string, late: string)
    requires forall m | m in ms :: Deliverable(m)
    requires early + late == Join(Written(ms))
    ensures var s := Feed(FRESH, early);
            && |s.frames| <= |ms|
            && DecodeAll(Feed(s.(frames := []), late).frames) == ReceivedAll(ms[|s.frames|..])
  {
    var s := Feed(FRESH, early);
    ChunkingInvariance(FRESH, early, late);
    FeedFromEmptyInbox(s, late);
    OutboundStreamRoundTrip(ms);
    var more := Feed(s.(frames := []), late).frames;
    assert s.frames + more == Feed(FRESH, early + late).frames;
    DecodeJoin(s.frames, more);
    assert DecodeAll(s.frames) + DecodeAll(more) == ReceivedAll(ms);
    assert DecodeAll(more) == ReceivedAll(ms)[|s.frames|..];
  }

  /** End to end: any list of calls with distinct identifiers, answered in a stream of replies and
      events that arrives in two parts, before and after the waiting flag is set, each in any
      chunks. The caller blocked on one call is woken by the reply to it (with what the core
      computed for exactly that call) if and only if the reply is completed in the second part and
      no event there before it finds the identifier left over. `ApiLink.AwaitReply` returns the
      result stated here. */
  lemma BlockingCallReturnsItsOwnResult(noise: string, key: string, calls: seq<CallCodec.Call>,
                                        run: CallCodec.Call -> Option<string>, j: nat,
                                        ms: seq<Outbound>, early: string, late: string, left: Leftovers)
    returns (k: nat)
    requires IsGap(noise) && IsFrame(key)
    requires forall c | c in calls ::
               CallCodec.Sized(c) && CallCodec.NoStops(c) && CallCodec.LevelFields(c) && "" !in c.args
    requires DistinctCalls(calls) && j < |calls| && run(calls[j]).Some?
    requires Replies(ms) == Answers(calls, run) && forall m | m in ms :: Deliverable(m)
    requires early + late == Join(Written(ms))
    ensures CallCodec.CoreHears(noise + key + Join(CallCodec.Encodings(calls)))
         == seq(|calls|, i requires 0 <= i < |calls| => Some(calls[i]))
    ensures k < |ms| && ms[k] == ToCaller(calls[j].msgId, calls[j].returnType, run(calls[j]).value)
    ensures var s := Feed(FRESH, early);
            && |s.frames| <= |ms|
            && DecodeAll(Feed(s.(frames := []), late).frames) == ReceivedAll(ms[|s.frames|..])
            && OwnReplyCounts(ms, k, |s.frames|, left)
  {
    CallCodec.CallStreamRoundTrip(noise, key, calls);
    AnsweredOnce(calls, run, j);
    RepliesCarry(calls[j].msgId, ms);
    k := OnlyCarrier(calls[j].msgId, ms);
    ReplyToCall(calls, run, j, ms, k);
    TwoParts(ms, early, late);
    OwnReply(ms, k, |Feed(FRESH, early).frames|, left);
  }
}
