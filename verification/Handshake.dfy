/** Two cores joined by two in-order channels, and the thread of `core_map`
    (src/core/core_module.c) that waits on the connecting side's wake-up pipe.

    Side A connects (and maps, if `wants`), side B accepts. Every handler is one atomic step. */
module Handshake {
  import opened CFormat
  import opened Connection

  /** The verdict of one side on one message: a nonzero code when a schema or version check
      fails, whether the credentials are accepted, and what a MAP's query finds. */
  datatype Judge = Judge(code: int, accepted: bool, found: Option<EpId>)

  predicate Accepting(j: Judge) {
    j.code == 0 && j.accepted
  }

  function Interpret(m: Message, j: Judge): Inbound {
    match m
    case Hello => InHello(j.code)
    case HelloAck(k) => InHelloAck(if j.code != 0 then j.code else k)
    case Auth => InAuth(j.accepted)
    case AuthAck(k) => InAuthAck(if j.code != 0 then j.code else k)
    case Map(_) => InMap(j.code, j.found)
    case MapAck(k) => InMapAck(if j.code != 0 then j.code else k)
    case Data => InData
  }

  /** A message that fails its schema or version check maps nobody and moves no connection forward; an
      answer to MAP that fails it ends the connection's handshake. */
  lemma FailedCheckStops(c: Conn, m: Message, j: Judge)
    requires j.code != 0 && !m.Auth?
    ensures var d := Receive(c, Interpret(m, j));
            && d.phase == (if m.MapAck? && c.handler == OnMsg && c.phase == MapAckS then Bad else c.phase)
            && d.mappings == c.mappings && d.isAuth == c.isAuth && d.amAuth == c.amAuth
  {
  }

  /** Refused credentials authenticate nobody. */
  lemma RefusedCredentialsStop(c: Conn, j: Judge)
    requires !j.accepted && !c.isAuth
    ensures var d := Receive(c, Interpret(Auth, j));
            !d.isAuth && d.phase == c.phase && (d.sent == c.sent || d.sent == c.sent + [AuthAck(-3)])
  {
  }

  /** Where the core_map thread is: before its first wait, its second, the sending of MAP, its
      third wait, its return; or not running. */
  datatype Thread = Wait1 | Wait2 | Ready | Wait3 | Returned(flag: int) | NotRunning

  datatype System = System(a: Option<Conn>, b: Option<Conn>, ab: seq<Message>, ba: seq<Message>,
                           pipe: nat, thread: Thread, ep: EpId)

  datatype Action = ConnectA | ConnectB | DeliverA(j: Judge) | DeliverB(j: Judge) | Wake | SendMap

  function Start(wants: bool, ep: EpId): System {
    System(None, None, [], [], 0, if wants then Wait1 else NotRunning, ep)
  }

  /** Runs one step of a connection, moving what it sent onto its channel and its tokens out. */
  function Flush(c: Conn): Conn {
    c.(sent := [], tokens := 0)
  }

  const A_ID: int := 1
  const B_ID: int := 1

  /** None: the action is not possible now. */
  function Step(s: System, act: Action): Option<System> {
    match act
    case ConnectA =>
      if s.a.Some? then None
      else var c := Connected(A_ID, true); Some(s.(a := Some(Flush(c)), ab := s.ab + c.sent, pipe := s.pipe + c.tokens))
    case ConnectB =>
      if s.b.Some? then None
      else var c := Connected(B_ID, true); Some(s.(b := Some(Flush(c)), ba := s.ba + c.sent))
    case DeliverA(j) =>
      if s.a.None? || s.ba == [] then None
      else
        var c := Receive(s.a.value, Interpret(s.ba[0], j));
        Some(s.(a := Some(Flush(c)), ba := s.ba[1..], ab := s.ab + c.sent, pipe := s.pipe + c.tokens))
    case DeliverB(j) =>
      if s.b.None? || s.ab == [] then None
      else
        var c := Receive(s.b.value, Interpret(s.ab[0], j));
        Some(s.(b := Some(Flush(c)), ab := s.ab[1..], ba := s.ba + c.sent))
    case Wake =>
      if s.pipe == 0 then None
      else (
        match s.thread
        case Wait1 => Some(s.(pipe := s.pipe - 1, thread := Wait2))
        case Wait2 => Some(s.(pipe := s.pipe - 1, thread := Ready))
        case Wait3 => if s.a.None? then None else Some(s.(pipe := s.pipe - 1, thread := Returned(s.a.value.flag)))
        case _ => None)
    case SendMap =>
      if s.thread != Ready || s.a.None? then None
      else
        var c := ProtoMapTo(s.a.value, s.ep);
        Some(s.(a := Some(Flush(c)), ab := s.ab + c.sent, thread := Wait3))
  }

  function Run(s: System, acts: seq<Action>): Option<System> {
    if acts == [] then Some(s)
    else
      var s0 :- Run(s, acts[..|acts| - 1]);
      Step(s0, acts[|acts| - 1])
  }

  // ---------- Termination: every run is finite, whatever the verdicts ----------

  function Weight(m: Message): nat {
    match m
    case Hello => 4
    case HelloAck(_) => 3
    case Auth => 2
    case AuthAck(_) => 1
    case Map(_) => 2
    case MapAck(_) => 1
    case Data => 1
  }

  function Load(ms: seq<Message>): nat {
    if ms == [] then 0 else Load(ms[..|ms| - 1]) + Weight(ms[|ms| - 1])
  }

  function ThreadWork(t: Thread): nat {
    match t
    case Wait1 => 6
    case Wait2 => 5
    case Ready => 4
    case Wait3 => 1
    case Returned(_) => 0
    case NotRunning => 0
  }

  function Remaining(s: System): nat {
    (if s.a.None? then 5 else 0) + (if s.b.None? then 5 else 0) + Load(s.ab) + Load(s.ba) + ThreadWork(s.thread)
  }

  lemma {:induction false} LoadFront(ms: seq<Message>)
    requires ms != []
    ensures Load(ms) == Weight(ms[0]) + Load(ms[1..])
    decreases |ms|
  {
    if |ms| == 1 {
      assert ms[..0] == [] && ms[1..] == [];
    } else {
      LoadFront(ms[..|ms| - 1]);
      assert ms[..|ms| - 1][1..] == ms[1..][..|ms[1..]| - 1];
    }
  }

  lemma LoadSnoc(ms: seq<Message>, more: seq<Message>)
    requires |more| <= 1
    ensures Load(ms + more) == Load(ms) + Load(more)
  {
    if more == [] {
      assert ms + more == ms;
    } else {
      assert (ms + more)[..|ms|] == ms && more[..0] == [];
    }
  }

  /** Handling a message sends at most one, and a lighter one. */
  lemma ReplyIsLighter(c: Conn, m: Message, j: Judge)
    requires c.sent == []
    ensures |Receive(c, Interpret(m, j)).sent| <= 1
    ensures Load(Receive(c, Interpret(m, j)).sent) < Weight(m)
  {
    var out := Receive(c, Interpret(m, j)).sent;
    ReplyShape(c, m, j);
    if out != [] { LoadOne(out[0]); }
  }

  lemma ReplyShape(c: Conn, m: Message, j: Judge)
    requires c.sent == []
    ensures var out := Receive(c, Interpret(m, j)).sent; out == [] || (|out| == 1 && Weight(out[0]) < Weight(m))
  {
    if Guard(c, Interpret(m, j)) { HandledShape(c, m, j); }
  }

  lemma HandledShape(c: Conn, m: Message, j: Judge)
    requires c.sent == []
    ensures var out := Handle(c, Interpret(m, j)).sent; out == [] || (|out| == 1 && Weight(out[0]) < Weight(m))
  {
    match m
    case Hello =>
    case HelloAck(_) =>
    case Auth =>
    case AuthAck(_) =>
    case Map(_) =>
    case MapAck(_) =>
    case Data =>
  }

  lemma LoadOne(m: Message)
    ensures Load([m]) == Weight(m)
  {
    assert [m][..0] == [];
  }

  lemma LoadPush(ms: seq<Message>, m: Message)
    ensures Load(ms + [m]) == Load(ms) + Weight(m)
  {
    assert (ms + [m])[..|ms + [m]| - 1] == ms;
  }

  predicate Flushed(s: System) {
    && (s.a.Some? ==> s.a.value.sent == [] && s.a.value.tokens == 0)
    && (s.b.Some? ==> s.b.value.sent == [] && s.b.value.tokens == 0)
  }

  /** What a message weighs on its channel is more than its answer adds to the other. */
  lemma DeliveryIsProgress(c: Conn, arriving: seq<Message>, j: Judge, leaving: seq<Message>)
    requires c.sent == [] && arriving != []
    ensures Load(arriving[1..]) + Load(leaving + Receive(c, Interpret(arriving[0], j)).sent)
            < Load(arriving) + Load(leaving)
  {
    ReplyIsLighter(c, arriving[0], j);
    LoadFront(arriving);
    LoadSnoc(leaving, Receive(c, Interpret(arriving[0], j)).sent);
  }

  lemma DeliveriesTerminate(s: System, act: Action)
    requires Flushed(s) && Step(s, act).Some? && (act.DeliverA? || act.DeliverB?)
    ensures Remaining(Step(s, act).value) < Remaining(s)
  {
    if act.DeliverA? {
      DeliveryIsProgress(s.a.value, s.ba, act.j, s.ab);
    } else {
      DeliveryIsProgress(s.b.value, s.ab, act.j, s.ba);
    }
  }

  lemma ConnectsTerminate(s: System, act: Action)
    requires Step(s, act).Some? && (act.ConnectA? || act.ConnectB?)
    ensures Remaining(Step(s, act).value) < Remaining(s)
  {
    LoadPush(s.ab, Hello);
    LoadPush(s.ba, Hello);
  }

  lemma SendPutsMap(s: System)
    requires Flushed(s) && Step(s, SendMap).Some?
    ensures var u := Step(s, SendMap).value;
            && s.thread == Ready && u.thread == Wait3 && s.a.Some? && u.a.Some? && u.b == s.b
            && u.ab == s.ab + [Map(s.ep)] && u.ba == s.ba
  {
    assert [] + [Map(s.ep)] == [Map(s.ep)];
  }

  lemma SendTerminates(s: System)
    requires Flushed(s) && Step(s, SendMap).Some?
    ensures Remaining(Step(s, SendMap).value) < Remaining(s)
  {
    SendPutsMap(s);
    MapIsProgress(s, Step(s, SendMap).value, s.ep);
  }

  lemma MapIsProgress(s: System, u: System, ep: EpId)
    requires s.thread == Ready && u.thread == Wait3 && s.a.Some? && u.a.Some? && u.b == s.b
    requires u.ab == s.ab + [Map(ep)] && u.ba == s.ba
    ensures Remaining(u) < Remaining(s)
  {
    LoadPush(s.ab, Map(ep));
  }

  lemma WakeTerminates(s: System)
    requires Step(s, Wake).Some?
    ensures Remaining(Step(s, Wake).value) < Remaining(s)
  {
  }

  lemma LocalStepsTerminate(s: System, act: Action)
    requires Flushed(s) && Step(s, act).Some? && !act.DeliverA? && !act.DeliverB?
    ensures Remaining(Step(s, act).value) < Remaining(s)
  {
    match act
    case ConnectA => ConnectsTerminate(s, act);
    case ConnectB => ConnectsTerminate(s, act);
    case SendMap => SendTerminates(s);
    case Wake => WakeTerminates(s);
  }

  /** Every step, under any verdicts, uses up some of a finite amount of work. */
  lemma StepsTerminate(s: System, act: Action)
    requires Flushed(s) && Step(s, act).Some?
    ensures Remaining(Step(s, act).value) < Remaining(s)
  {
    if act.DeliverA? || act.DeliverB? { DeliveriesTerminate(s, act); } else { LocalStepsTerminate(s, act); }
  }

  lemma StepsFlush(s: System, act: Action)
    requires Flushed(s) && Step(s, act).Some?
    ensures Flushed(Step(s, act).value)
  {
  }

  /** No run takes more than sixteen steps. */
  lemma {:induction false} RunsAreShort(wants: bool, ep: EpId, acts: seq<Action>)
    requires Run(Start(wants, ep), acts).Some?
    ensures Flushed(Run(Start(wants, ep), acts).value)
    ensures |acts| + Remaining(Run(Start(wants, ep), acts).value) <= 16
    decreases |acts|
  {
    if acts == [] {
      assert Remaining(Start(wants, ep)) <= 16;
    } else {
      RunsAreShort(wants, ep, acts[..|acts| - 1]);
      StepsTerminate(Run(Start(wants, ep), acts[..|acts| - 1]).value, acts[|acts| - 1]);
      StepsFlush(Run(Start(wants, ep), acts[..|acts| - 1]).value, acts[|acts| - 1]);
    }
  }

  // ---------- Safety under any verdicts ----------

  function Bit(b: bool): nat {
    if b then 1 else 0
  }

  /** What core_map's thread has taken from the pipe. */
  function Taken(t: Thread): nat {
    match t
    case Wait1 => 0
    case Wait2 => 1
    case Ready => 2
    case Wait3 => 2
    case Returned(_) => 3
    case NotRunning => 0
  }

  /** What a bridge connection has written to the pipe, read off its phase: once past HELLO, once
      past AUTH, once when the answer to its MAP was handled. */
  function Written(c: Option<Conn>): nat {
    if c.None? then 0
    else Bit(Rank(c.value.phase) >= 2) + Bit(Rank(c.value.phase) >= 4) + Bit(Rank(c.value.phase) == 6)
  }

  predicate HelloAccepted(c: Option<Conn>) {
    c.Some? && c.value.phase != HelloS && c.value.phase != Hello2
  }

  predicate AckAccepted(c: Option<Conn>) {
    c.Some? && c.value.phase != HelloS && c.value.phase != HelloAckS
  }

  /** A positive answer on its way to x from y is backed by y's state; so is one x has acted on. */
  predicate Backed(x: Option<Conn>, y: Option<Conn>, yx: seq<Message>) {
    && (HelloAck(0) in yx || AckAccepted(x) ==> HelloAccepted(y))
    && (AuthAck(0) in yx || (x.Some? && x.value.amAuth) ==> y.Some? && y.value.isAuth)
    && (MapAck(0) in yx ==> y.Some? && y.value.phase == ExtMsg)
  }

  predicate ASide(s: System) {
    && Flushed(s)
    && (s.a.Some? ==> Sound(s.a.value) && s.a.value.id == A_ID)
    && s.pipe + Taken(s.thread) == Written(s.a)
    && (s.a.Some? && Rank(s.a.value.phase) > 4 ==> s.thread == Wait3 || s.thread.Returned?)
    && (s.thread == Wait3 || s.thread.Returned? ==>
          s.a.Some? && Rank(s.a.value.phase) >= 5 && s.a.value.lep == Some(s.ep))
    && (s.thread.Returned? ==> s.a.value.phase != MapAckS && s.thread.flag == s.a.value.flag)
    && (s.a.Some? && s.a.value.phase != Bad ==> s.a.value.flag == 0)
    && (s.a.Some? && s.a.value.phase == Bad ==> s.a.value.flag != 0)
  }

  predicate BSide(s: System) {
    && (s.b.Some? ==> Sound(s.b.value) && s.b.value.id == B_ID && s.b.value.phase != MapAckS)
    && (forall m | m in s.ba :: !m.Map?)
    && (forall m | m in s.ab :: !m.MapAck?)
  }

  /** The invariant of all runs, whatever each side thinks of each message. */
  predicate Safe(s: System) {
    && ASide(s) && BSide(s)
    && Backed(s.a, s.b, s.ba) && Backed(s.b, s.a, s.ab)
    && (s.a.Some? && s.a.value.phase == ExtMsg ==> s.b.Some? && s.b.value.phase == ExtMsg)
  }

  lemma DeliverAKeepsASide(s: System, j: Judge)
    requires ASide(s) && BSide(s) && Step(s, DeliverA(j)).Some?
    ensures ASide(Step(s, DeliverA(j)).value)
  {
    assert s.ba[0] in s.ba;
    ReceiveKeepsSound(s.a.value, Interpret(s.ba[0], j));
  }

  lemma StepKeepsASide(s: System, act: Action)
    requires ASide(s) && BSide(s) && Step(s, act).Some?
    ensures ASide(Step(s, act).value)
  {
    if act.DeliverA? {
      DeliverAKeepsASide(s, act.j);
    }
  }

  lemma SentKinds(c: Conn, m: Message, j: Judge)
    requires c.sent == [] && Sound(c)
    ensures forall x | x in Receive(c, Interpret(m, j)).sent :: !x.Map? && (x.MapAck? ==> m.Map?)
  {
  }

  lemma DeliverAKeepsBSide(s: System, j: Judge)
    requires ASide(s) && BSide(s) && Step(s, DeliverA(j)).Some?
    ensures BSide(Step(s, DeliverA(j)).value)
  {
    assert s.ba[0] in s.ba;
    SentKinds(s.a.value, s.ba[0], j);
  }

  lemma DeliverBKeepsBSide(s: System, j: Judge)
    requires BSide(s) && Step(s, DeliverB(j)).Some?
    requires s.b.value.sent == []
    ensures BSide(Step(s, DeliverB(j)).value)
  {
    assert s.ab[0] in s.ab;
    SentKinds(s.b.value, s.ab[0], j);
    ReceiveKeepsSound(s.b.value, Interpret(s.ab[0], j));
  }

  lemma StepKeepsBSide(s: System, act: Action)
    requires ASide(s) && BSide(s) && Step(s, act).Some?
    ensures BSide(Step(s, act).value)
  {
    match act
    case DeliverA(j) => DeliverAKeepsBSide(s, j);
    case DeliverB(j) => DeliverBKeepsBSide(s, j);
    case _ =>
  }

  /** y handles a message: what it answers is backed, and what backed x's state still holds. */
  lemma AnswersAreBacked(x: Option<Conn>, y: Conn, m: Message, j: Judge, yx: seq<Message>)
    requires Sound(y) && y.sent == [] && y.id > 0 && Backed(x, Some(y), yx)
    ensures var d := Receive(y, Interpret(m, j)); Backed(x, Some(Flush(d)), yx + d.sent)
  {
    ReceiveKeepsSound(y, Interpret(m, j));
  }

  /** x handles a message from y: whatever positive answer it takes in was backed. */
  lemma ReceiptIsBacked(x: Conn, y: Option<Conn>, m: Message, j: Judge, rest: seq<Message>)
    requires Sound(x) && Backed(Some(x), y, [m] + rest)
    ensures Backed(Some(Flush(Receive(x, Interpret(m, j)))), y, rest)
  {
    assert forall z | z in rest :: z in [m] + rest;
    assert m in [m] + rest;
  }

  lemma StepKeepsBacked(s: System, act: Action)
    requires Safe(s) && Step(s, act).Some?
    ensures var t := Step(s, act).value; Backed(t.a, t.b, t.ba) && Backed(t.b, t.a, t.ab)
  {
    match act
    case DeliverA(j) =>
      assert s.ba == [s.ba[0]] + s.ba[1..];
      AnswersAreBacked(s.b, s.a.value, s.ba[0], j, s.ab);
      ReceiptIsBacked(s.a.value, s.b, s.ba[0], j, s.ba[1..]);
    case DeliverB(j) =>
      assert s.ab == [s.ab[0]] + s.ab[1..];
      AnswersAreBacked(s.a, s.b.value, s.ab[0], j, s.ba);
      ReceiptIsBacked(s.b.value, s.a, s.ab[0], j, s.ab[1..]);
    case _ =>
  }

  lemma StepKeepsSafe(s: System, act: Action)
    requires Safe(s) && Step(s, act).Some?
    ensures Safe(Step(s, act).value)
  {
    StepKeepsASide(s, act);
    StepKeepsBSide(s, act);
    StepKeepsBacked(s, act);
    if act.DeliverA? {
      assert s.ba[0] in s.ba;
    } else if act.DeliverB? {
      ReceiveKeepsSound(s.b.value, Interpret(s.ab[0], act.j));
    }
  }

  lemma {:induction false} RunsAreSafe(wants: bool, ep: EpId, acts: seq<Action>)
    requires Run(Start(wants, ep), acts).Some?
    ensures Safe(Run(Start(wants, ep), acts).value)
    decreases |acts|
  {
    if acts != [] {
      RunsAreSafe(wants, ep, acts[..|acts| - 1]);
      StepKeepsSafe(Run(Start(wants, ep), acts[..|acts| - 1]).value, acts[|acts| - 1]);
    }
  }

  /** In every reachable state, whatever the two sides think of each other's messages: a side that
      holds itself authenticated is authenticated by its peer, a side ready for mapping is so with a
      peer that accepted it, and the connecting side counts itself mapped only if its peer does. */
  lemma MutualAuthentication(wants: bool, ep: EpId, acts: seq<Action>)
    requires Run(Start(wants, ep), acts).Some?
    ensures var s := Run(Start(wants, ep), acts).value;
            && (s.a.Some? && s.a.value.amAuth ==> s.b.Some? && s.b.value.isAuth)
            && (s.b.Some? && s.b.value.amAuth ==> s.a.Some? && s.a.value.isAuth)
            && (s.a.Some? && Rank(s.a.value.phase) >= 4 ==> s.b.Some? && s.b.value.isAuth && s.a.value.isAuth)
            && (s.a.Some? && s.a.value.phase == ExtMsg ==> s.b.Some? && s.b.value.phase == ExtMsg)
  {
    RunsAreSafe(wants, ep, acts);
  }

  /** After two waits core_map finds its connection in the MAP phase with the second callback
      installed, and when it returns the connection is mapped exactly if it returns zero. */
  lemma WakeUpAccounting(ep: EpId, acts: seq<Action>)
    requires Run(Start(true, ep), acts).Some?
    ensures var s := Run(Start(true, ep), acts).value;
            && s.pipe + Taken(s.thread) == Written(s.a)
            && (s.thread == Ready ==> s.a.Some? && s.a.value.phase == MapS && s.a.value.handler == OnMsg && s.pipe == 0)
            && (s.thread.Returned? ==> s.a.Some? && (s.a.value.phase == ExtMsg || s.a.value.phase == Bad)
                                       && (s.thread.flag == 0 <==> s.a.value.phase == ExtMsg))
  {
    RunsAreSafe(true, ep, acts);
  }

  // ---------- Runs in which every check accepts ----------

  /** How many messages of its peer's script a side has handled. */
  function Got(x: Option<Conn>): nat {
    if x.None? then 0
    else
      match x.value.phase
      case HelloS => 0
      case HelloAckS => 1
      case Hello2 => 1
      case AuthS => 2
      case AuthAckS => 3
      case Auth2 => 3
      case MapS => 4
      case MapAckS => 4
      case ExtMsg => 5
      case Bad => 5
  }

  /** How many messages of its own script a side has sent. */
  function SentOf(x: Option<Conn>): nat {
    if x.None? then 0
    else if Got(x) < 4 then Got(x) + 1
    else if x.value.phase == MapS then 4
    else 5
  }

  /** The i-th message A sends, and the i-th B sends given what became of the mapping. */
  function FromA(i: nat, ep: EpId): Message {
    if i == 0 then Hello else if i == 1 then HelloAck(0) else if i == 2 then Auth
    else if i == 3 then AuthAck(0) else Map(ep)
  }

  function FromB(i: nat, mapped: bool): Message {
    if i == 0 then Hello else if i == 1 then HelloAck(0) else if i == 2 then Auth
    else if i == 3 then AuthAck(0) else MapAck(if mapped then 0 else EP_NO_EXIST)
  }

  predicate IsMapped(x: Option<Conn>) {
    x.Some? && x.value.phase == ExtMsg
  }

  predicate CarriesA(ch: seq<Message>, from: nat, to: nat, ep: EpId) {
    from + |ch| == to && forall i | 0 <= i < |ch| :: ch[i] == FromA(from + i, ep)
  }

  predicate CarriesB(ch: seq<Message>, from: nat, to: nat, mapped: bool) {
    from + |ch| == to && forall i | 0 <= i < |ch| :: ch[i] == FromB(from + i, mapped)
  }

  predicate Straight(x: Option<Conn>) {
    x.Some? ==> x.value.phase != Hello2 && x.value.phase != Auth2
  }

  /** Both sides follow their scripts, and the channels hold what is still to be handled. */
  predicate Scripted(s: System) {
    && Straight(s.a) && Straight(s.b)
    && CarriesA(s.ab, Got(s.b), SentOf(s.a), s.ep)
    && CarriesB(s.ba, Got(s.a), SentOf(s.b), IsMapped(s.b))
    && (s.a.Some? && s.a.value.phase == Bad ==> s.b.Some? && s.b.value.phase == Bad)
  }

  predicate OnScript(s: System) {
    Safe(s) && Scripted(s)
  }

  predicate AcceptingAction(act: Action) {
    act.DeliverA? || act.DeliverB? ==> Accepting(act.j)
  }

  /** No message arrives in a phase, or at a callback, whose guard discards it. */
  lemma NothingIsDiscarded(s: System, j: Judge)
    requires OnScript(s) && Accepting(j)
    ensures s.a.Some? && s.ba != [] ==> Guard(s.a.value, Interpret(s.ba[0], j))
    ensures s.b.Some? && s.ab != [] ==> Guard(s.b.value, Interpret(s.ab[0], j))
  {
    if s.a.Some? && s.ba != [] {
      assert s.ba[0] == FromB(Got(s.a), IsMapped(s.b));
    }
    if s.b.Some? && s.ab != [] {
      assert s.ab[0] == FromA(Got(s.b), s.ep);
    }
  }

  /** Nothing more, or the next message of the script. */
  predicate NextA(out: seq<Message>, c: Option<Conn>, d: Option<Conn>, ep: EpId) {
    if out == [] then SentOf(d) == SentOf(c) else SentOf(d) == SentOf(c) + 1 && out == [FromA(SentOf(c), ep)]
  }

  predicate NextB(out: seq<Message>, c: Option<Conn>, d: Option<Conn>) {
    if out == [] then SentOf(d) == SentOf(c) else SentOf(d) == SentOf(c) + 1 && out == [FromB(SentOf(c), IsMapped(d))]
  }

  predicate MidScript(c: Conn) {
    Sound(c) && Straight(Some(c)) && c.sent == [] && c.id > 0 && Got(Some(c)) < 5
  }

  /** One message of B's script, handled by A, moves A one place on in its own. */
  lemma FollowA(c: Conn, mapped: bool, ep: EpId, j: Judge)
    requires MidScript(c) && Accepting(j) && (Got(Some(c)) == 4 ==> c.phase == MapAckS)
    ensures var d := Receive(c, Interpret(FromB(Got(Some(c)), mapped), j));
            && Straight(Some(Flush(d))) && Got(Some(Flush(d))) == Got(Some(c)) + 1
            && NextA(d.sent, Some(c), Some(Flush(d)), ep)
            && (d.phase == Bad ==> !mapped)
  {
  }

  lemma FollowB(c: Conn, ep: EpId, j: Judge)
    requires MidScript(c) && Accepting(j) && c.phase != MapAckS
    ensures var d := Receive(c, Interpret(FromA(Got(Some(c)), ep), j));
            && Straight(Some(Flush(d))) && Got(Some(Flush(d))) == Got(Some(c)) + 1
            && NextB(d.sent, Some(c), Some(Flush(d)))
  {
  }

  lemma ScriptMovesA(ch: seq<Message>, out: seq<Message>, from: nat, c: Option<Conn>, d: Option<Conn>, ep: EpId)
    requires CarriesA(ch, from, SentOf(c), ep) && NextA(out, c, d, ep)
    ensures CarriesA(ch + out, from, SentOf(d), ep)
    ensures ch != [] ==> CarriesA(ch[1..], from + 1, SentOf(c), ep)
  {
  }

  lemma ScriptMovesB(ch: seq<Message>, out: seq<Message>, from: nat, c: Option<Conn>, d: Option<Conn>)
    requires CarriesB(ch, from, SentOf(c), IsMapped(c)) && NextB(out, c, d)
    requires IsMapped(c) == IsMapped(d) || from + |ch| <= 4
    ensures CarriesB(ch + out, from, SentOf(d), IsMapped(d))
    ensures ch != [] ==> CarriesB(ch[1..], from + 1, SentOf(c), IsMapped(c))
  {
  }

  lemma DeliverAScripted(s: System, j: Judge)
    requires Scripted(s) && Accepting(j) && s.a.Some? && s.ba != []
    requires MidScript(s.a.value) && (Got(s.a) == 4 ==> s.a.value.phase == MapAckS)
    requires s.b.Some? ==> s.b.value.phase != MapAckS
    ensures Scripted(Step(s, DeliverA(j)).value)
  {
    assert s.ba[0] == FromB(Got(s.a), IsMapped(s.b));
    FollowA(s.a.value, IsMapped(s.b), s.ep, j);
    var d := Receive(s.a.value, Interpret(s.ba[0], j));
    ScriptMovesA(s.ab, d.sent, Got(s.b), s.a, Some(Flush(d)), s.ep);
    ScriptMovesB(s.ba, [], Got(s.a), s.b, s.b);
  }

  lemma DeliverBScripted(s: System, j: Judge)
    requires Scripted(s) && Accepting(j) && s.b.Some? && s.ab != []
    requires MidScript(s.b.value) && s.b.value.phase != MapAckS
    requires s.a.Some? && s.a.value.phase == ExtMsg ==> s.b.value.phase == ExtMsg
    ensures Scripted(Step(s, DeliverB(j)).value)
  {
    assert s.ab[0] == FromA(Got(s.b), s.ep);
    FollowB(s.b.value, s.ep, j);
    var d := Receive(s.b.value, Interpret(s.ab[0], j));
    ScriptMovesB(s.ba, d.sent, Got(s.a), s.b, Some(Flush(d)));
    ScriptMovesA(s.ab, [], Got(s.b), s.a, s.a, s.ep);
  }

  lemma LocalScripted(s: System, act: Action)
    requires OnScript(s) && !act.DeliverA? && !act.DeliverB? && Step(s, act).Some?
    ensures Scripted(Step(s, act).value)
  {
  }

  lemma ReadyToDeliver(s: System)
    requires OnScript(s)
    ensures s.a.Some? && s.ba != [] ==> MidScript(s.a.value) && (Got(s.a) == 4 ==> s.a.value.phase == MapAckS)
    ensures s.b.Some? && s.ab != [] ==> MidScript(s.b.value) && s.b.value.phase != MapAckS
  {
  }

  lemma StepOnScript(s: System, act: Action)
    requires OnScript(s) && AcceptingAction(act) && Step(s, act).Some?
    ensures OnScript(Step(s, act).value)
  {
    StepKeepsSafe(s, act);
    match act
    case DeliverA(j) => ReadyToDeliver(s); DeliverAScripted(s, j);
    case DeliverB(j) => ReadyToDeliver(s); DeliverBScripted(s, j);
    case _ => LocalScripted(s, act);
  }

  /** Whatever the interleaving, an accepting run stays on script: HELLO_2 and AUTH_2 are never
      entered and each side handles its peer's messages in their order, missing none. */
  lemma {:induction false} AcceptingRunsOnScript(wants: bool, ep: EpId, acts: seq<Action>)
    requires Run(Start(wants, ep), acts).Some?
    requires forall act | act in acts :: AcceptingAction(act)
    ensures OnScript(Run(Start(wants, ep), acts).value)
    decreases |acts|
  {
    if acts == [] {
      StartOnScript(wants, ep);
    } else {
      var acts0 := acts[..|acts| - 1];
      assert forall act | act in acts0 :: act in acts;
      AcceptingRunsOnScript(wants, ep, acts0);
      StepOnScript(Run(Start(wants, ep), acts0).value, acts[|acts| - 1]);
    }
  }

  lemma StartOnScript(wants: bool, ep: EpId)
    ensures OnScript(Start(wants, ep))
  {
    assert Safe(Start(wants, ep));
  }

  lemma {:induction false} ThreadRunsIffWanted(wants: bool, ep: EpId, acts: seq<Action>)
    requires Run(Start(wants, ep), acts).Some?
    ensures Run(Start(wants, ep), acts).value.thread == NotRunning <==> !wants
    decreases |acts|
  {
    if acts != [] { ThreadRunsIffWanted(wants, ep, acts[..|acts| - 1]); }
  }

  /** No step is possible. */
  ghost predicate Quiescent(s: System) {
    forall act | AcceptingAction(act) :: Step(s, act).None?
  }

  /** How an accepting run ends: without a mapping request, both sides in MAP with both flags set
      and the mapping callback installed; with one, core_map has returned and both sides agree,
      mapped if it returned zero and failed otherwise. */
  predicate Agreed(s: System) {
    && s.a.Some? && s.b.Some? && s.ab == [] && s.ba == []
    && s.a.value.isAuth && s.a.value.amAuth && s.b.value.isAuth && s.b.value.amAuth
    && s.a.value.handler == OnMsg && s.b.value.handler == OnMsg
    && s.a.value.phase == s.b.value.phase
    && if s.thread == NotRunning then s.a.value.phase == MapS
       else s.thread.Returned? && s.pipe == 0 && s.a.value.phase == if s.thread.flag == 0 then ExtMsg else Bad
  }

  lemma QuiescentIsDone(s: System, j: Judge)
    requires OnScript(s) && Accepting(j)
    requires Step(s, ConnectA).None? && Step(s, ConnectB).None?
             && Step(s, DeliverA(j)).None? && Step(s, DeliverB(j)).None?
    requires Step(s, Wake).None? && Step(s, SendMap).None?
    ensures Agreed(s)
  {
    assert s.ab == [] && s.ba == [];
    assert Got(s.b) == SentOf(s.a) && Got(s.a) == SentOf(s.b);
  }

  /** These are the only states in which an accepting run can stop. */
  lemma AcceptingRunsEndInAgreement(wants: bool, ep: EpId, acts: seq<Action>)
    requires Run(Start(wants, ep), acts).Some?
    requires forall act | act in acts :: AcceptingAction(act)
    requires Quiescent(Run(Start(wants, ep), acts).value)
    ensures Agreed(Run(Start(wants, ep), acts).value)
    ensures Run(Start(wants, ep), acts).value.thread == NotRunning <==> !wants
  {
    AcceptingRunsOnScript(wants, ep, acts);
    ThreadRunsIffWanted(wants, ep, acts);
    StopsInAgreement(Run(Start(wants, ep), acts).value);
  }

  lemma StopsInAgreement(s: System)
    requires OnScript(s) && Quiescent(s)
    ensures Agreed(s)
  {
    var j := Judge(0, true, None);
    assert Step(s, ConnectA).None? && Step(s, ConnectB).None? && Step(s, Wake).None? && Step(s, SendMap).None?;
    assert Step(s, DeliverA(j)).None? && Step(s, DeliverB(j)).None?;
    QuiescentIsDone(s, j);
  }

  // ---------- The outcome and the verdict on the MAP ----------

  /** The k-th action delivers the MAP. */
  predicate DeliversMap(wants: bool, ep: EpId, acts: seq<Action>, k: nat) {
    && k < |acts| && acts[k].DeliverB? && Run(Start(wants, ep), acts[..k]).Some?
    && var s := Run(Start(wants, ep), acts[..k]).value;
       s.b.Some? && s.ab != [] && s.ab[0] == Map(ep)
  }

  lemma {:induction false} EpStays(wants: bool, ep: EpId, acts: seq<Action>)
    requires Run(Start(wants, ep), acts).Some?
    ensures Run(Start(wants, ep), acts).value.ep == ep
    decreases |acts|
  {
    if acts != [] { EpStays(wants, ep, acts[..|acts| - 1]); }
  }

  /** B leaves its MAP phase by the MAP of the script, mapped exactly if the verdict names an
      endpoint, and then onto that one. */
  lemma LeavesMapByVerdict(s: System, act: Action)
    requires OnScript(s) && AcceptingAction(act) && Step(s, act).Some?
    requires var t := Step(s, act).value;
             t.b.Some? && Rank(t.b.value.phase) == 6 && !(s.b.Some? && Rank(s.b.value.phase) == 6)
    ensures act.DeliverB? && s.b.Some? && s.ab != [] && s.ab[0] == Map(s.ep)
    ensures var d := Step(s, act).value.b.value;
            (d.phase == ExtMsg <==> act.j.found.Some?) && (d.phase == ExtMsg ==> d.lep == act.j.found)
  {
    assert act.DeliverB?;
    assert s.ab[0] == FromA(Got(s.b), s.ep);
  }

  /** By then the peer's script is done, so nothing more arrives. */
  lemma FinalStays(s: System, act: Action)
    requires OnScript(s) && Step(s, act).Some? && s.b.Some? && Rank(s.b.value.phase) == 6
    ensures var d := Step(s, act).value.b; d.Some? && d.value.phase == s.b.value.phase && d.value.lep == s.b.value.lep
  {
  }

  /** If the accepting side has handled the MAP, some action delivered it, and that side is mapped
      exactly if the verdict of that action named an endpoint, onto that endpoint. */
  lemma {:induction false} OutcomeIsVerdict(wants: bool, ep: EpId, acts: seq<Action>) returns (k: nat)
    requires Run(Start(wants, ep), acts).Some?
    requires forall act | act in acts :: AcceptingAction(act)
    requires var s := Run(Start(wants, ep), acts).value; s.b.Some? && Rank(s.b.value.phase) == 6
    ensures DeliversMap(wants, ep, acts, k)
    ensures var d := Run(Start(wants, ep), acts).value.b.value;
            (d.phase == ExtMsg <==> acts[k].j.found.Some?) && (d.phase == ExtMsg ==> d.lep == acts[k].j.found)
    decreases |acts|
  {
    var acts0, act := acts[..|acts| - 1], acts[|acts| - 1];
    assert act in acts && forall x | x in acts0 :: x in acts;
    var s := Run(Start(wants, ep), acts0).value;
    AcceptingRunsOnScript(wants, ep, acts0);
    if s.b.Some? && Rank(s.b.value.phase) == 6 {
      k := OutcomeIsVerdict(wants, ep, acts0);
      assert acts0[..k] == acts[..k];
      FinalStays(s, act);
    } else {
      k := |acts| - 1;
      EpStays(wants, ep, acts0);
      LeavesMapByVerdict(s, act);
    }
  }

  /** When core_map returns, the MAP was delivered, and the result is zero exactly if the peer's
      query found an endpoint. */
  lemma ResultIsVerdict(ep: EpId, acts: seq<Action>) returns (k: nat)
    requires Run(Start(true, ep), acts).Some?
    requires forall act | act in acts :: AcceptingAction(act)
    requires Run(Start(true, ep), acts).value.thread.Returned?
    ensures DeliversMap(true, ep, acts, k)
    ensures var s := Run(Start(true, ep), acts).value;
            && (s.thread.flag == 0 <==> acts[k].j.found.Some?)
            && s.b.Some? && (s.thread.flag == 0 ==> s.b.value.phase == ExtMsg && s.b.value.lep == acts[k].j.found)
  {
    WakeUpAccounting(ep, acts);
    MappingAgreement(ep, acts);
    k := OutcomeIsVerdict(true, ep, acts);
  }

  /** The MAP always finds the peer in the MAP phase with the mapping callback installed, and the
      outcome the connecting side records is the peer's: EXT_MSG there exactly if EXT_MSG here. */
  lemma MappingAgreement(ep: EpId, acts: seq<Action>)
    requires Run(Start(true, ep), acts).Some?
    requires forall act | act in acts :: AcceptingAction(act)
    ensures var s := Run(Start(true, ep), acts).value;
            && (s.ab != [] && s.ab[0].Map? ==> s.b.Some? && s.b.value.phase == MapS && s.b.value.handler == OnMsg)
            && (s.a.Some? && s.a.value.phase == ExtMsg ==> s.b.Some? && s.b.value.phase == ExtMsg)
            && (s.a.Some? && s.a.value.phase == Bad ==> s.b.Some? && s.b.value.phase == Bad && s.b.value.mappings == [])
  {
    AcceptingRunsOnScript(true, ep, acts);
    RunsMapOnce(true, ep, acts);
  }

  /** The accepting side is in an endpoint's list exactly if it is in EXT_MSG. */
  lemma {:induction false} RunsMapOnce(wants: bool, ep: EpId, acts: seq<Action>)
    requires Run(Start(wants, ep), acts).Some?
    ensures var s := Run(Start(wants, ep), acts).value;
            && (s.a.Some? ==> |s.a.value.mappings| == Bit(s.a.value.phase == ExtMsg))
            && (s.b.Some? ==> |s.b.value.mappings| == Bit(s.b.value.phase == ExtMsg))
    decreases |acts|
  {
    if acts != [] {
      var acts0, act := acts[..|acts| - 1], acts[|acts| - 1];
      RunsMapOnce(wants, ep, acts0);
      RunsAreSafe(wants, ep, acts0);
      var s := Run(Start(wants, ep), acts0).value;
      match act
      case DeliverA(j) => ReceiptMapsOnce(s.a.value, s.ba[0], j);
      case DeliverB(j) => ReceiptMapsOnce(s.b.value, s.ab[0], j);
      case _ =>
    }
  }

  lemma ReceiptMapsOnce(c: Conn, m: Message, j: Judge)
    requires Sound(c) && c.id > 0 && |c.mappings| == Bit(c.phase == ExtMsg)
    ensures var d := Receive(c, Interpret(m, j)); |d.mappings| == Bit(d.phase == ExtMsg)
  {
  }
}
