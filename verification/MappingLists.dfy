/** The lists of mapped connections each endpoint keeps (`mappings_states` in
    src/core/endpoint.c), over any number of connections and endpoints, and the fan-out that
    walks them. Each connection moves as in src/core/protocol.c. */
module MappingLists {
  import opened CFormat
  import opened Connection

  // ---------- The lists themselves ----------

  class LocalEp {
    var mappingsStates: seq<int>

    constructor ()
      ensures mappingsStates == []
    {
      mappingsStates := [];
    }

    /** ep_map on this endpoint: appends the connection unless it is gone. */
    method EpMap(conn: int) returns (rtn: int)
      modifies this
      ensures mappingsStates == if conn <= 0 then old(mappingsStates) else old(mappingsStates) + [conn]
      ensures rtn == if conn <= 0 then -1 else 0
    {
      if conn <= 0 { return -1; }
      mappingsStates := mappingsStates + [conn];
      rtn := 0;
    }

    /** ep_send: the data once per element of the list, in order. */
    method EpSend(data: string) returns (sent: seq<(int, string)>)
      ensures sent == Copies(mappingsStates, data)
    {
      sent := [];
      var i := 0;
      while i < |mappingsStates|
        invariant 0 <= i <= |mappingsStates|
        invariant sent == Copies(mappingsStates[..i], data)
      {
        assert mappingsStates[..i + 1] == mappingsStates[..i] + [mappingsStates[i]];
        sent := sent + [(mappingsStates[i], data)];
        i := i + 1;
      }
      assert mappingsStates[..i] == mappingsStates;
    }
  }

  function Copies(conns: seq<int>, data: string): seq<(int, string)> {
    seq(|conns|, i requires 0 <= i < |conns| => (conns[i], data))
  }

  // ---------- All connections and endpoints of a core ----------

  datatype Core = Core(conns: map<int, Conn>, lists: map<EpId, seq<int>>)

  const EMPTY := Core(map[], map[])

  /** A connection opens; an endpoint is registered; a message arrives; the local side asks for a mapping. */
  datatype Event = Open(id: int, bridge: bool) | Register(ep: EpId)
    | Arrive(id: int, m: Inbound) | MapTo(id: int, ep: EpId)

  /** The list an ep_map of this step goes to, if it runs one. */
  function Appended(c: Conn, d: Conn): Option<EpId> {
    if |d.mappings| > |c.mappings| then Some(d.mappings[|d.mappings| - 1]) else None
  }

  function Append(lists: map<EpId, seq<int>>, ep: Option<EpId>, id: int): map<EpId, seq<int>> {
    if ep.Some? && ep.value in lists then lists[ep.value := lists[ep.value] + [id]] else lists
  }

  /** Connection ids are positive and opened once; queries and local requests name registered endpoints. */
  predicate Possible(s: Core, e: Event) {
    match e
    case Open(id, _) => id > 0 && id !in s.conns
    case Register(ep) => ep !in s.lists
    case Arrive(id, m) => id in s.conns && (m.InMap? && m.found.Some? ==> m.found.value in s.lists)
    case MapTo(id, ep) => id in s.conns && ep in s.lists
  }

  function Next(s: Core, e: Event): Core
    requires Possible(s, e)
  {
    match e
    case Open(id, bridge) => s.(conns := s.conns[id := Connected(id, bridge)])
    case Register(ep) => s.(lists := s.lists[ep := []])
    case Arrive(id, m) =>
      var d := Receive(s.conns[id], m);
      Core(s.conns[id := d], Append(s.lists, Appended(s.conns[id], d), id))
    case MapTo(id, ep) => s.(conns := s.conns[id := ProtoMapTo(s.conns[id], ep)])
  }

  predicate Run(s: Core, events: seq<Event>, t: Core)
    decreases events
  {
    if events == [] then s == t else Possible(s, events[0]) && Run(Next(s, events[0]), events[1..], t)
  }

  /** core_map asks for a mapping only on a connection that is not mapped yet. */
  predicate Honest(s: Core, events: seq<Event>)
    decreases events
  {
    events == [] || (
      && Possible(s, events[0])
      && (events[0].MapTo? ==> s.conns[events[0].id].phase != ExtMsg)
      && Honest(Next(s, events[0]), events[1..]))
  }

  // ---------- Who is in which list ----------

  predicate MappedTo(s: Core, id: int, ep: EpId) {
    id in s.conns && s.conns[id].phase == ExtMsg && s.conns[id].lep == Some(ep)
  }

  function Occurrences(list: seq<int>, id: int): nat {
    multiset(list)[id]
  }

  predicate Registered(s: Core) {
    forall id | id in s.conns :: s.conns[id].id == id && id > 0
      && (s.conns[id].lep.Some? ==> s.conns[id].lep.value in s.lists)
      && (s.conns[id].phase == ExtMsg ==> s.conns[id].lep.Some?)
  }

  /** Each list holds exactly the connections mapped to its endpoint, each of them once. */
  ghost predicate ListsExact(s: Core) {
    forall ep, id | ep in s.lists :: Occurrences(s.lists[ep], id) == if MappedTo(s, id, ep) then 1 else 0
  }

  /** A message runs at most one ep_map, and runs one exactly when it maps the connection. */
  lemma ReceiptAppends(c: Conn, m: Inbound)
    requires c.id > 0
    ensures var d := Receive(c, m);
            && (Appended(c, d).Some? <==> c.phase != ExtMsg && d.phase == ExtMsg)
            && (Appended(c, d).Some? ==> d.lep == Appended(c, d))
            && (c.phase == ExtMsg ==> d.phase == ExtMsg && d.lep == c.lep)
            && (d.lep == c.lep || (m.InMap? && d.lep == m.found))
            && d.id == c.id
  {
  }

  lemma OccurrencesSnoc(list: seq<int>, x: int, id: int)
    ensures Occurrences(list + [x], id) == Occurrences(list, id) + if id == x then 1 else 0
  {
  }

  lemma ArriveKeepsLists(s: Core, id: int, m: Inbound)
    requires Registered(s) && ListsExact(s) && Possible(s, Arrive(id, m))
    ensures Registered(Next(s, Arrive(id, m))) && ListsExact(Next(s, Arrive(id, m)))
  {
    var c := s.conns[id];
    var d := Receive(c, m);
    ReceiptAppends(c, m);
    var t := Next(s, Arrive(id, m));
    forall ep, x | ep in t.lists ensures Occurrences(t.lists[ep], x) == if MappedTo(t, x, ep) then 1 else 0 {
      OccurrencesSnoc(s.lists[ep], id, x);
      assert Occurrences(s.lists[ep], x) == if MappedTo(s, x, ep) then 1 else 0;
    }
  }

  /** Asking for a mapping keeps the lists exact if and only if the connection is not mapped yet:
      on a mapped one the old list keeps an entry for a connection that now belongs elsewhere. */
  lemma MapToKeepsListsIff(s: Core, id: int, ep: EpId)
    requires Registered(s) && ListsExact(s) && Possible(s, MapTo(id, ep))
    ensures Registered(Next(s, MapTo(id, ep)))
    ensures ListsExact(Next(s, MapTo(id, ep))) <==> s.conns[id].phase != ExtMsg
  {
    var t := Next(s, MapTo(id, ep));
    if s.conns[id].phase == ExtMsg {
      var old_ep := s.conns[id].lep.value;
      assert MappedTo(s, id, old_ep) && Occurrences(t.lists[old_ep], id) == 1;
      assert !MappedTo(t, id, old_ep);
    } else {
      forall e, x | e in t.lists ensures Occurrences(t.lists[e], x) == if MappedTo(t, x, e) then 1 else 0 {
        assert Occurrences(s.lists[e], x) == if MappedTo(s, x, e) then 1 else 0;
      }
    }
  }

  lemma NextKeepsLists(s: Core, e: Event)
    requires Registered(s) && ListsExact(s) && Possible(s, e)
    requires e.MapTo? ==> s.conns[e.id].phase != ExtMsg
    ensures Registered(Next(s, e)) && ListsExact(Next(s, e))
  {
    var t := Next(s, e);
    match e
    case Arrive(id, m) => ArriveKeepsLists(s, id, m);
    case MapTo(id, ep) => MapToKeepsListsIff(s, id, ep);
    case Open(id, bridge) =>
      forall ep, x | ep in t.lists ensures Occurrences(t.lists[ep], x) == if MappedTo(t, x, ep) then 1 else 0 {
        assert Occurrences(s.lists[ep], x) == if MappedTo(s, x, ep) then 1 else 0;
      }
    case Register(ep0) =>
      forall ep, x | ep in t.lists ensures Occurrences(t.lists[ep], x) == if MappedTo(t, x, ep) then 1 else 0 {
        if ep != ep0 { assert Occurrences(s.lists[ep], x) == if MappedTo(s, x, ep) then 1 else 0; }
      }
  }

  lemma {:induction false} HonestRunsKeepLists(s: Core, events: seq<Event>, t: Core)
    requires Registered(s) && ListsExact(s) && Honest(s, events) && Run(s, events, t)
    ensures Registered(t) && ListsExact(t)
    decreases events
  {
    if events != [] {
      NextKeepsLists(s, events[0]);
      HonestRunsKeepLists(Next(s, events[0]), events[1..], t);
    }
  }

  /** In honest runs over any number of connections and endpoints: a connection is in some list
      exactly when it is in EXT_MSG, then in one list only, its endpoint's, and there once. */
  lemma ListsFollowPhases(events: seq<Event>, t: Core, id: int)
    requires Honest(EMPTY, events) && Run(EMPTY, events, t) && id in t.conns
    ensures (exists ep :: ep in t.lists && id in t.lists[ep]) <==> t.conns[id].phase == ExtMsg
    ensures forall ep | ep in t.lists && id in t.lists[ep] ::
              t.conns[id].lep == Some(ep) && Occurrences(t.lists[ep], id) == 1
  {
    HonestRunsKeepLists(EMPTY, events, t);
    forall ep | ep in t.lists ensures id in t.lists[ep] <==> MappedTo(t, id, ep) {
      assert id in t.lists[ep] <==> Occurrences(t.lists[ep], id) > 0;
    }
    if t.conns[id].phase == ExtMsg {
      assert MappedTo(t, id, t.conns[id].lep.value);
    }
  }

  /** In any run at all a list only grows, at its end: a send reaches the connections in the order in
      which they were mapped. */
  lemma {:induction false} ListsOnlyGrow(s: Core, events: seq<Event>, t: Core, ep: EpId)
    requires Run(s, events, t) && ep in s.lists
    ensures ep in t.lists && s.lists[ep] <= t.lists[ep]
    decreases events
  {
    if events != [] {
      ListsOnlyGrow(Next(s, events[0]), events[1..], t, ep);
    }
  }

  /** Every registered endpoint has a list, and nothing else has. */
  lemma {:induction false} ListsAreOfRegistered(s: Core, events: seq<Event>, t: Core, ep: EpId)
    requires Run(s, events, t)
    ensures ep in t.lists <==> ep in s.lists || Event.Register(ep) in events
    decreases events
  {
    if events != [] {
      ListsAreOfRegistered(Next(s, events[0]), events[1..], t, ep);
      assert events == [events[0]] + events[1..];
    }
  }

  /** A send on an endpoint reaches each connection mapped to it once, and no other. */
  lemma FanOutIsExact(events: seq<Event>, t: Core, ep: EpId, data: string, id: int)
    requires Honest(EMPTY, events) && Run(EMPTY, events, t) && ep in t.lists
    ensures multiset(Copies(t.lists[ep], data))[(id, data)] == if MappedTo(t, id, ep) then 1 else 0
    ensures forall copy | copy in Copies(t.lists[ep], data) :: copy.1 == data && MappedTo(t, copy.0, ep)
  {
    HonestRunsKeepLists(EMPTY, events, t);
    CopiesCount(t.lists[ep], data, id);
    forall copy | copy in Copies(t.lists[ep], data) ensures copy.1 == data && MappedTo(t, copy.0, ep) {
      assert copy.0 in t.lists[ep];
      assert Occurrences(t.lists[ep], copy.0) > 0;
    }
  }

  lemma {:induction false} CopiesCount(list: seq<int>, data: string, id: int)
    ensures multiset(Copies(list, data))[(id, data)] == Occurrences(list, id)
  {
    if list != [] {
      var l0, x := list[..|list| - 1], list[|list| - 1];
      assert list == l0 + [x];
      CopiesCount(l0, data, id);
      assert Copies(list, data) == Copies(l0, data) + [(x, data)];
    }
  }

  /** Asked to map a connection that is mapped already, the code ends with it in a list twice:
      a later send on that endpoint reaches the peer twice. */
  lemma MappingTwiceDuplicates(s: Core, id: int, ep: EpId)
    requires Registered(s) && ListsExact(s) && Possible(s, MapTo(id, ep)) && MappedTo(s, id, ep)
    requires s.conns[id].handler == OnMsg
    ensures var t := Next(Next(s, MapTo(id, ep)), Arrive(id, InMapAck(0)));
            t.conns[id].phase == ExtMsg && Occurrences(t.lists[ep], id) == 2
  {
    assert Occurrences(s.lists[ep], id) == 1;
    OccurrencesSnoc(s.lists[ep], id, id);
  }
}
