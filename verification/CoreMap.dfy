/** `core_map` (src/core/core_module.c) on one connection, whatever the peer sends: a thread that
    waits on the wake-up pipe, twice before it sends MAP and once after, while messages arrive.
    The connection may belong to a bridge module or to one that skips the handshake. */
module CoreMap {
  import opened CFormat
  import opened Connection

  /** Where the thread is; from the sending of MAP on it carries the flag found there. */
  datatype Thread = Wait1 | Wait2 | Ready | Wait3(before: int) | Returned(before: int, result: int)

  /** The connection (whose `tokens` counts what was written to the pipe), the tokens the thread
      has taken, the thread, and whether a well-formed MAP of the peer was handled. */
  datatype Waiter = Waiter(c: Conn, taken: nat, thread: Thread, served: bool)

  datatype Event = Arrive(m: Inbound) | Wake | SendMap(ep: EpId)

  function Start(id: int, bridge: bool): Waiter {
    Waiter(Connected(id, bridge), 0, Wait1, false)
  }

  predicate Possible(s: Waiter, e: Event) {
    match e
    case Arrive(_) => true
    case Wake => s.c.tokens > s.taken && (s.thread.Wait1? || s.thread.Wait2? || s.thread.Wait3?)
    case SendMap(_) => s.thread.Ready?
  }

  function Next(s: Waiter, e: Event): Waiter
    requires Possible(s, e)
  {
    match e
    case Arrive(m) => s.(c := Receive(s.c, m), served := s.served || (Guard(s.c, m) && m.InMap? && m.code == 0))
    case Wake =>
      var t := match s.thread
               case Wait1 => Wait2
               case Wait2 => Ready
               case Wait3(before) => Returned(before, s.c.flag)
               case other => other;
      s.(taken := s.taken + 1, thread := t)
    case SendMap(ep) => s.(c := ProtoMapTo(s.c, ep), thread := Wait3(s.c.flag))
  }

  predicate Run(s: Waiter, events: seq<Event>, t: Waiter)
    decreases events
  {
    if events == [] then s == t else Possible(s, events[0]) && Run(Next(s, events[0]), events[1..], t)
  }

  // ---------- Accounting ----------

  function One(b: bool): nat {
    if b then 1 else 0
  }

  predicate Sent(t: Thread) {
    t.Wait3? || t.Returned?
  }

  /** Whether the answer to the MAP of core_map was handled. */
  predicate Answered(s: Waiter) {
    Sent(s.thread) && s.c.phase != MapAckS
  }

  /** The tokens written: one on reaching AUTH, one on reaching MAP, one for the answer. */
  function Written(s: Waiter): nat {
    One(Rank(s.c.phase) >= 2) + One(Rank(s.c.phase) >= 4) + One(Answered(s))
  }

  function Taken(t: Thread): nat {
    match t
    case Wait1 => 0
    case Wait2 => 1
    case Ready => 2
    case Wait3(_) => 2
    case Returned(_, _) => 3
  }

  predicate HandshakeFlags(c: Conn) {
    && (c.handler == OnMsg <==> Rank(c.phase) >= 4)
    && (Rank(c.phase) >= 4 ==> (c.isAuth <==> c.amAuth))
    && (Rank(c.phase) < 4 ==> (c.isAuth <==> c.phase == AuthAckS) && (c.amAuth <==> c.phase == Auth2) && c.flag == 0)
  }

  /** Before core_map sends its MAP only a MAP of the peer can end the connection's MAP phase. */
  predicate BeforeMap(s: Waiter) {
    && s.c.phase != MapAckS && (Rank(s.c.phase) < 6 <==> !s.served)
    && (s.served ==> (s.c.flag == 0 <==> s.c.phase == ExtMsg))
  }

  predicate AfterMap(s: Waiter)
    requires Sent(s.thread)
  {
    && (s.c.phase == MapAckS ==> s.thread.Wait3? && s.c.lep.Some? && s.c.flag == s.thread.before)
    && (s.c.phase == ExtMsg ==> s.c.flag == s.thread.before)
    && (s.c.phase == Bad ==> s.c.flag != 0)
    && (s.c.phase == MapAckS || s.c.phase == ExtMsg || s.c.phase == Bad)
    && (s.thread.Returned? ==> s.thread.result == s.c.flag)
  }

  predicate Accounted(s: Waiter) {
    && s.c.tokens == Written(s) && s.taken == Taken(s.thread) <= s.c.tokens
    && HandshakeFlags(s.c)
    && if Sent(s.thread) then AfterMap(s) else BeforeMap(s)
  }

  lemma ArriveKeepsAccounts(s: Waiter, m: Inbound)
    requires Accounted(s)
    ensures Accounted(Next(s, Arrive(m)))
  {
  }

  lemma StepKeepsAccounts(s: Waiter, e: Event)
    requires Accounted(s) && Possible(s, e)
    ensures Accounted(Next(s, e))
  {
    if e.Arrive? { ArriveKeepsAccounts(s, e.m); }
  }

  lemma {:induction false} RunKeepsAccounts(s: Waiter, events: seq<Event>, t: Waiter)
    requires Accounted(s) && Run(s, events, t)
    ensures Accounted(t)
    decreases events
  {
    if events != [] {
      StepKeepsAccounts(s, events[0]);
      RunKeepsAccounts(Next(s, events[0]), events[1..], t);
    }
  }

  /** For bridge modules and others, against any peer, at every moment: tokens written are those
      of the phases reached plus the answer, and what the thread took plus what is left is that. */
  lemma WakeUpAccounting(id: int, bridge: bool, events: seq<Event>, t: Waiter)
    requires Run(Start(id, bridge), events, t)
    ensures t.c.tokens == Written(t)
    ensures t.taken == Taken(t.thread) <= t.c.tokens
  {
    RunKeepsAccounts(Start(id, bridge), events, t);
  }

  /** After two waits the handshake is over; the connection is in MAP if and only if the peer did
      not map it first. After the third it is in EXT_MSG or BAD. */
  lemma WaitsFindTheirPhase(id: int, bridge: bool, events: seq<Event>, t: Waiter)
    requires Run(Start(id, bridge), events, t)
    ensures t.thread.Ready? ==> Rank(t.c.phase) >= 4 && t.c.handler == OnMsg
    ensures t.thread.Ready? ==> (t.c.phase == MapS <==> !t.served)
    ensures t.thread.Returned? ==> t.c.phase == ExtMsg || t.c.phase == Bad
  {
    RunKeepsAccounts(Start(id, bridge), events, t);
  }

  /** The last MAP of the peer that got past the guard before core_map sent its own. */
  function LastMap(s: Waiter, events: seq<Event>, last: Option<Inbound>): Option<Inbound>
    decreases events
  {
    if events == [] || !Possible(s, events[0]) || Sent(s.thread) then last
    else
      var e := events[0];
      LastMap(Next(s, e), events[1..], if e.Arrive? && e.m.InMap? && Guard(s.c, e.m) then Some(e.m) else last)
  }

  /** A MAP that fails its schema, or whose query finds no endpoint. */
  predicate Refused(last: Option<Inbound>) {
    last.Some? && last.value.InMap? && (last.value.code != 0 || last.value.found.None?)
  }

  lemma {:induction false} BeforeStays(s: Waiter, events: seq<Event>, t: Waiter)
    requires Run(s, events, t) && Sent(s.thread)
    ensures Sent(t.thread) && t.thread.before == s.thread.before
    decreases events
  {
    if events != [] { BeforeStays(Next(s, events[0]), events[1..], t); }
  }

  lemma {:induction false} LastMapLeavesFlag(s: Waiter, events: seq<Event>, t: Waiter, last: Option<Inbound>)
    requires Run(s, events, t) && Accounted(s) && !Sent(s.thread) && Sent(t.thread)
    requires s.c.flag != 0 <==> Refused(last)
    ensures t.thread.before != 0 <==> Refused(LastMap(s, events, last))
    decreases events
  {
    var e := events[0];
    var u := Next(s, e);
    StepKeepsAccounts(s, e);
    if e.SendMap? {
      BeforeStays(u, events[1..], t);
      assert LastMap(u, events[1..], last) == last;
    } else {
      LastMapLeavesFlag(u, events[1..], t, if e.Arrive? && e.m.InMap? && Guard(s.c, e.m) then Some(e.m) else last);
    }
  }

  /** core_map returns zero only on a mapped connection. That it returns zero whenever the
      connection is mapped holds if and only if the last MAP of the peer handled before it sent its
      own, if any, was not refused: a refused one leaves its flag behind. */
  lemma ResultTellsOutcome(id: int, bridge: bool, events: seq<Event>, t: Waiter)
    requires Run(Start(id, bridge), events, t) && t.thread.Returned?
    ensures t.thread.result == 0 ==> t.c.phase == ExtMsg
    ensures t.c.phase == ExtMsg ==> (t.thread.result == 0 <==> t.thread.before == 0)
    ensures t.thread.before != 0 <==> Refused(LastMap(Start(id, bridge), events, None))
  {
    RunKeepsAccounts(Start(id, bridge), events, t);
    LastMapLeavesFlag(Start(id, bridge), events, t, None);
  }

  predicate NoMapFromPeer(events: seq<Event>) {
    forall e | e in events :: !(e.Arrive? && e.m.InMap?)
  }

  lemma {:induction false} NoMapNoFlag(s: Waiter, events: seq<Event>, t: Waiter)
    requires Run(s, events, t) && NoMapFromPeer(events)
    requires Accounted(s) && !s.served && (s.c.flag == 0 || s.c.phase == Bad)
             && (Sent(s.thread) ==> s.thread.before == 0)
    ensures !t.served && (Sent(t.thread) ==> t.thread.before == 0)
    decreases events
  {
    if events != [] {
      assert events[0] in events && forall e | e in events[1..] :: e in events;
      StepKeepsAccounts(s, events[0]);
      NoMapNoFlag(Next(s, events[0]), events[1..], t);
    }
  }

  /** Against a peer that sends no MAP of its own: in MAP after two waits, and the result is zero
      exactly when the connection is mapped. */
  lemma QuietPeer(id: int, bridge: bool, events: seq<Event>, t: Waiter)
    requires Run(Start(id, bridge), events, t) && NoMapFromPeer(events)
    ensures t.thread.Ready? ==> t.c.phase == MapS
    ensures t.thread.Returned? ==> (t.thread.result == 0 <==> t.c.phase == ExtMsg)
                                   && (t.thread.result != 0 <==> t.c.phase == Bad)
  {
    NoMapNoFlag(Start(id, bridge), events, t);
    WaitsFindTheirPhase(id, bridge, events, t);
    RunKeepsAccounts(Start(id, bridge), events, t);
  }

  /** A peer whose own MAP finds no endpoint and which then accepts ours: the connection is mapped,
      and core_map reports EP_NO_EXIST. */
  lemma StaleFlag(id: int, ep: EpId) returns (events: seq<Event>, t: Waiter)
    requires id > 0
    ensures Run(Start(id, false), events, t) && t.thread == Returned(EP_NO_EXIST, EP_NO_EXIST) && t.c.phase == ExtMsg
  {
    var s0 := Start(id, false);
    var s1 := Next(s0, Wake);
    var s2 := Next(s1, Wake);
    var s3 := Next(s2, Arrive(InMap(0, None)));
    var s4 := Next(s3, SendMap(ep));
    var s5 := Next(s4, Arrive(InMapAck(0)));
    t := Next(s5, Wake);
    var e5 := [Wake];
    var e4 := [Arrive(InMapAck(0))] + e5;
    var e3 := [SendMap(ep)] + e4;
    var e2 := [Arrive(InMap(0, None))] + e3;
    var e1 := [Wake] + e2;
    events := [Wake] + e1;
    assert e5[1..] == [] && Run(s5, e5, t);
    assert e4[1..] == e5 && Run(s4, e4, t);
    assert e3[1..] == e4 && Run(s3, e3, t);
    assert e2[1..] == e3 && Run(s2, e2, t);
    assert e1[1..] == e2 && Run(s1, e1, t);
    assert events[1..] == e1;
  }
}
