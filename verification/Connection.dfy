/** One connection between two cores: the state fields of src/core/state.h, the handlers of
    src/core/protocol.c and the dispatch of src/core/core_callbacks.c. */
module Connection {
  import opened CFormat

  /** STATE_HELLO_S .. STATE_EXT_MSG and STATE_BAD. */
  datatype Phase = HelloS | HelloAckS | Hello2 | AuthS | AuthAckS | Auth2 | MapS | MapAckS | ExtMsg | Bad

  /** Which callback `on_message` points to. */
  datatype Handler = OnProto | OnMsg

  type EpId = string

  /** What is sent to the peer; codes as they travel. */
  datatype Message = Hello | HelloAck(code: int) | Auth | AuthAck(code: int) | Map(ep: EpId) | MapAck(code: int) | Data

  /** A message as this side judges it on arrival: the code of the schema and version checks
      (or the code carried, when they pass), whether some access module accepts a credential,
      and the endpoint the query of a MAP finds. */
  datatype Inbound =
    | InHello(code: int)
    | InHelloAck(code: int)
    | InAuth(accepted: bool)
    | InAuthAck(code: int)
    | InMap(code: int, found: Option<EpId>)
    | InMapAck(code: int)
    | InData
    | InOther

  const EP_NO_EXIST: int := 1
  const AUTH_FAILED: int := -3

  /** The state of a connection, and what it has done so far: messages sent, tokens written to
      the wake-up pipe, endpoint lists it was appended to, messages handed to the endpoint. */
  datatype Conn = Conn(id: int, phase: Phase, isAuth: bool, amAuth: bool, handler: Handler,
                       lep: Option<EpId>, flag: int,
                       sent: seq<Message>, tokens: nat, mappings: seq<EpId>, delivered: nat, closed: bool)

  function NewState(id: int): Conn {
    Conn(id, HelloS, false, false, OnProto, None, 0, [], 0, [], 0, false)
  }

  /** core_on_connect */
  function Connected(id: int, bridge: bool): Conn {
    var c := NewState(id);
    if bridge then c.(sent := [Hello])
    else c.(handler := OnMsg, phase := MapS, tokens := 2)
  }

  function ProtoHello(c: Conn, code: int): Conn {
    var s := c.sent + [HelloAck(code)];
    if code != 0 then c.(sent := s)
    else if c.phase == HelloS then c.(phase := HelloAckS, sent := s)
    else if c.phase == Hello2 then c.(phase := AuthS, sent := s, tokens := c.tokens + 1)
    else c.(sent := s)
  }

  function ProtoHelloAck(c: Conn, code: int): Conn {
    var s := c.sent + [Auth];
    if code != 0 then c.(sent := s)
    else if c.phase == HelloS then c.(phase := Hello2, sent := s)
    else if c.phase == HelloAckS then c.(phase := AuthS, sent := s, tokens := c.tokens + 1)
    else c.(sent := s)
  }

  function ProtoCheckAuth(c: Conn, accepted: bool): Conn {
    if c.isAuth || accepted then
      var d := c.(isAuth := true, sent := c.sent + [AuthAck(0)]);
      if c.phase == AuthS then d.(phase := AuthAckS)
      else if c.phase == Auth2 then d.(phase := MapS, tokens := c.tokens + 1)
      else d
    else c.(sent := c.sent + [AuthAck(AUTH_FAILED)])
  }

  function ProtoCheckAuthAck(c: Conn, code: int): Conn {
    if code != 0 then c.(closed := true)
    else if c.phase == AuthS then c.(amAuth := true, phase := Auth2)
    else if c.phase == AuthAckS then c.(amAuth := true, phase := MapS, tokens := c.tokens + 1)
    else c.(amAuth := true)
  }

  /** ep_map appends the connection to the endpoint's list, unless the connection is gone. */
  function EpMap(c: Conn, ep: EpId): Conn {
    if c.id <= 0 then c else c.(mappings := c.mappings + [ep], lep := Some(ep))
  }

  function ProtoMap(c: Conn, code: int, found: Option<EpId>): Conn {
    if code != 0 then c.(flag := code, sent := c.sent + [MapAck(code)])
    else if found.Some? then EpMap(c, found.value).(phase := ExtMsg, flag := 0, sent := c.sent + [MapAck(0)])
    else c.(phase := Bad, flag := EP_NO_EXIST, sent := c.sent + [MapAck(EP_NO_EXIST)])
  }

  function ProtoMapAck(c: Conn, code: int): Conn {
    if code != 0 then c.(phase := Bad, flag := code, tokens := c.tokens + 1)
    else if c.lep.None? then c
    else EpMap(c, c.lep.value).(phase := ExtMsg, tokens := c.tokens + 1)
  }

  /** core_proto_map_to: the local side asks for a mapping. */
  function ProtoMapTo(c: Conn, ep: EpId): Conn {
    c.(lep := Some(ep), phase := MapAckS, sent := c.sent + [Map(ep)])
  }

  /** The guards of the two callbacks: whether a message is acted on at all. */
  predicate Guard(c: Conn, m: Inbound) {
    match c.handler
    case OnProto => (
      match m
      case InHello(_) => c.phase == HelloS || c.phase == Hello2
      case InHelloAck(_) => c.phase == HelloS || c.phase == HelloAckS
      case InAuth(_) => c.phase == AuthS || c.phase == Auth2
      case InAuthAck(_) => c.phase == AuthS || c.phase == AuthAckS
      case _ => false)
    case OnMsg => (
      match m
      case InMap(_, _) => c.phase == MapS
      case InMapAck(_) => c.phase == MapAckS
      case InData => c.phase == ExtMsg
      case _ => false)
  }

  function Handle(c: Conn, m: Inbound): Conn {
    match m
    case InHello(code) => ProtoHello(c, code)
    case InHelloAck(code) => ProtoHelloAck(c, code)
    case InAuth(accepted) => ProtoCheckAuth(c, accepted)
    case InAuthAck(code) => ProtoCheckAuthAck(c, code)
    case InMap(code, found) => ProtoMap(c, code, found)
    case InMapAck(code) => ProtoMapAck(c, code)
    case InData => c.(delivered := c.delivered + 1)
    case InOther => c
  }

  /** One message through the installed callback. */
  function Receive(c: Conn, m: Inbound): Conn {
    var d := if Guard(c, m) then Handle(c, m) else c;
    if c.handler == OnProto && (m.InAuth? || m.InAuthAck?) && d.amAuth && d.isAuth then d.(handler := OnMsg) else d
  }

  function Run(c: Conn, ms: seq<Inbound>): Conn {
    if ms == [] then c else Receive(Run(c, ms[..|ms| - 1]), ms[|ms| - 1])
  }

  // ---------- The object ----------

  /** `accepts` holds the loaded access modules and, for each, the credentials it authenticates. */
  method AnyAccepted(noAuth: bool, creds: seq<(string, string)>, accepts: map<string, set<string>>)
    returns (accepted: bool)
    ensures accepted <==>
            noAuth || exists i :: 0 <= i < |creds| && creds[i].0 in accepts && creds[i].1 in accepts[creds[i].0]
  {
    if noAuth { return true; }
    accepted := false;
    var i := 0;
    while i < |creds| && !accepted
      invariant 0 <= i <= |creds|
      invariant accepted <==> exists k :: 0 <= k < i && creds[k].0 in accepts && creds[k].1 in accepts[creds[k].0]
    {
      if creds[i].0 in accepts && creds[i].1 in accepts[creds[i].0] {
        accepted := true;
      }
      i := i + 1;
    }
  }

  class State {
    var conn: int
    var phase: Phase
    var isAuth: bool
    var amAuth: bool
    var onMessage: Handler
    var lep: Option<EpId>
    var flag: int
    var sent: seq<Message>
    var tokens: nat
    var mappings: seq<EpId>
    var delivered: nat
    var closed: bool

    ghost function View(): Conn
      reads this
    {
      Conn(conn, phase, isAuth, amAuth, onMessage, lep, flag, sent, tokens, mappings, delivered, closed)
    }

    constructor OnConnect(conn: int, bridge: bool)
      requires conn >= 0
      ensures View() == Connected(conn, bridge)
    {
      this.conn := conn;
      phase, isAuth, amAuth, onMessage := HelloS, false, false, OnProto;
      lep, flag, sent, tokens, mappings, delivered, closed := None, 0, [], 0, [], 0, false;
      new;
      if bridge {
        Send(Hello);
      } else {
        onMessage := OnMsg;
        phase := MapS;
        Trigger();
        Trigger();
      }
    }

    method Send(m: Message)
      modifies this`sent
      ensures sent == old(sent) + [m]
    {
      sent := sent + [m];
    }

    method Trigger()
      modifies this`tokens
      ensures tokens == old(tokens) + 1
    {
      tokens := tokens + 1;
    }

    method CoreProtoHello(code: int)
      modifies this
      ensures View() == ProtoHello(old(View()), code)
    {
      if code == 0 {
        if phase == HelloS {
          phase := HelloAckS;
        } else if phase == Hello2 {
          phase := AuthS;
          Trigger();
        }
      }
      Send(HelloAck(code));
    }

    method CoreProtoHelloAck(code: int)
      modifies this
      ensures View() == ProtoHelloAck(old(View()), code)
    {
      if code == 0 {
        if phase == HelloS {
          phase := Hello2;
        } else if phase == HelloAckS {
          phase := AuthS;
          Trigger();
        }
      }
      Send(Auth);
    }

    method CoreProtoCheckAuth(accepted: bool)
      modifies this
      ensures View() == ProtoCheckAuth(old(View()), accepted)
    {
      var code := 0;
      if accepted {
        isAuth := true;
      }
      if isAuth {
        if phase == AuthS {
          phase := AuthAckS;
        } else if phase == Auth2 {
          phase := MapS;
          Trigger();
        }
      } else {
        code := AUTH_FAILED;
      }
      Send(AuthAck(code));
    }

    method CoreProtoCheckAuthAck(code: int)
      modifies this
      ensures View() == ProtoCheckAuthAck(old(View()), code)
    {
      if code != 0 {
        closed := true;
        return;
      }
      amAuth := true;
      if phase == AuthS {
        phase := Auth2;
      } else if phase == AuthAckS {
        phase := MapS;
        Trigger();
      }
    }

    method CoreProtoMapTo(ep: EpId)
      modifies this
      ensures View() == ProtoMapTo(old(View()), ep)
    {
      lep := Some(ep);
      phase := MapAckS;
      Send(Map(ep));
    }

    method MapOnto(ep: EpId)
      modifies this
      ensures View() == EpMap(old(View()), ep)
    {
      if conn > 0 {
        mappings := mappings + [ep];
        lep := Some(ep);
      }
    }

    method CoreProtoMap(code: int, found: Option<EpId>)
      modifies this
      ensures View() == ProtoMap(old(View()), code, found)
    {
      var mapValidate := code;
      if mapValidate == 0 {
        if found.Some? {
          MapOnto(found.value);
          phase := ExtMsg;
        } else {
          mapValidate := EP_NO_EXIST;
          phase := Bad;
        }
      }
      flag := mapValidate;
      Send(MapAck(mapValidate));
    }

    method CoreProtoMapAck(code: int)
      modifies this
      ensures View() == ProtoMapAck(old(View()), code)
    {
      if code == 0 {
        if lep.None? { return; }
        MapOnto(lep.value);
        phase := ExtMsg;
      } else {
        phase := Bad;
        flag := code;
      }
      Trigger();
    }

    method CoreOnProtoMessage(m: Inbound)
      requires onMessage == OnProto
      modifies this
      ensures View() == Receive(old(View()), m)
    {
      match m {
        case InHello(code) =>
          if phase == HelloS || phase == Hello2 {
            CoreProtoHello(code);
          }
        case InHelloAck(code) =>
          if phase == HelloS || phase == HelloAckS {
            CoreProtoHelloAck(code);
          }
        case InAuth(accepted) =>
          if phase == AuthS || phase == Auth2 {
            CoreProtoCheckAuth(accepted);
          }
          if amAuth && isAuth {
            onMessage := OnMsg;
          }
        case InAuthAck(code) =>
          if phase == AuthS || phase == AuthAckS {
            CoreProtoCheckAuthAck(code);
          }
          if amAuth && isAuth {
            onMessage := OnMsg;
          }
        case _ =>
      }
    }

    method CoreOnMessage(m: Inbound)
      requires onMessage == OnMsg
      modifies this
      ensures View() == Receive(old(View()), m)
    {
      match m {
        case InMap(code, found) =>
          if phase == MapS {
            CoreProtoMap(code, found);
          }
        case InMapAck(code) =>
          if phase == MapAckS {
            CoreProtoMapAck(code);
          }
        case InData =>
          if phase == ExtMsg {
            delivered := delivered + 1;
          }
        case _ =>
      }
    }

    /** The stream of parsed messages of one connection. */
    method OnMessages(ms: seq<Inbound>)
      modifies this
      ensures View() == Run(old(View()), ms)
    {
      var i := 0;
      while i < |ms|
        invariant 0 <= i <= |ms|
        invariant View() == Run(old(View()), ms[..i])
      {
        assert ms[..i + 1][..i] == ms[..i];
        if onMessage == OnProto {
          CoreOnProtoMessage(ms[i]);
        } else {
          CoreOnMessage(ms[i]);
        }
        i := i + 1;
      }
      assert ms[..i] == ms;
    }
  }

  // ---------- Safety under any inbound messages ----------

  function Rank(p: Phase): nat {
    match p
    case HelloS => 0
    case HelloAckS => 1
    case Hello2 => 1
    case AuthS => 2
    case AuthAckS => 3
    case Auth2 => 3
    case MapS => 4
    case MapAckS => 5
    case ExtMsg => 6
    case Bad => 6
  }

  /** What holds of a bridge connection at every moment, whatever the peer sends. */
  predicate Sound(c: Conn) {
    && (c.isAuth <==> c.phase == AuthAckS || Rank(c.phase) >= 4)
    && (c.amAuth <==> c.phase == Auth2 || Rank(c.phase) >= 4)
    && (c.handler == OnMsg <==> c.isAuth && c.amAuth)
    && (c.phase == MapAckS ==> c.lep.Some?)
  }

  lemma {:induction false} RunConcat(c: Conn, a: seq<Inbound>, b: seq<Inbound>)
    ensures Run(c, a + b) == Run(Run(c, a), b)
    decreases |b|
  {
    if b == [] {
      assert a + b == a;
    } else {
      assert (a + b)[..|a + b| - 1] == a + b[..|b| - 1];
      RunConcat(c, a, b[..|b| - 1]);
    }
  }

  /** One message keeps the flags, the callback and the phase in step and never goes back. */
  lemma ReceiveKeepsSound(c: Conn, m: Inbound)
    requires Sound(c)
    ensures Sound(Receive(c, m)) && Rank(c.phase) <= Rank(Receive(c, m).phase)
    ensures c.phase == ExtMsg || c.phase == Bad ==> Receive(c, m).phase == c.phase
    ensures c.phase == MapS ==> Receive(c, m).phase != MapAckS
    ensures Receive(c, m).delivered > c.delivered ==> c.phase == ExtMsg && m == InData
  {
  }

  lemma {:induction false} ConnectionStaysSound(id: int, ms: seq<Inbound>)
    ensures Sound(Run(Connected(id, true), ms))
    ensures Run(Connected(id, true), ms).phase != MapAckS
    decreases |ms|
  {
    if ms != [] {
      ConnectionStaysSound(id, ms[..|ms| - 1]);
      ReceiveKeepsSound(Run(Connected(id, true), ms[..|ms| - 1]), ms[|ms| - 1]);
    }
  }

  /** The rank of the phase never decreases, and mapped or failed connections stay so. */
  lemma {:induction false} RankNeverDecreases(id: int, a: seq<Inbound>, b: seq<Inbound>)
    ensures var c, d := Run(Connected(id, true), a), Run(Connected(id, true), a + b);
            Rank(c.phase) <= Rank(d.phase) && (Rank(c.phase) == 6 ==> d.phase == c.phase)
    decreases |b|
  {
    if b == [] {
      assert a + b == a;
    } else {
      var b0 := b[..|b| - 1];
      assert (a + b)[..|a + b| - 1] == a + b0;
      RankNeverDecreases(id, a, b0);
      ConnectionStaysSound(id, a + b0);
      ReceiveKeepsSound(Run(Connected(id, true), a + b0), b[|b| - 1]);
    }
  }

  // ---------- What a run sends, delivers and closes ----------

  /** The phases in which a message is acted on. */
  predicate ActedOn(p: Phase, m: Inbound) {
    match m
    case InHello(_) => p in {HelloS, Hello2}
    case InHelloAck(_) => p in {HelloS, HelloAckS}
    case InAuth(_) => p in {AuthS, Auth2}
    case InAuthAck(_) => p in {AuthS, AuthAckS}
    case InMap(_, _) => p == MapS
    case InMapAck(_) => p == MapAckS
    case InData => p == ExtMsg
    case InOther => false
  }

  /** What each message is answered with, refusals included. */
  function Answer(m: Inbound): seq<Message> {
    match m
    case InHello(code) => [HelloAck(code)]
    case InHelloAck(_) => [Auth]
    case InAuth(accepted) => [AuthAck(if accepted then 0 else -3)]
    case InMap(code, found) => [MapAck(if code != 0 then code else if found.Some? then 0 else 1)]
    case _ => []
  }

  /** Where a message leads from the phases it is acted on in. */
  function PhaseAfter(p: Phase, m: Inbound): Phase {
    match (p, m)
    case (HelloS, InHello(code)) => if code == 0 then HelloAckS else HelloS
    case (Hello2, InHello(code)) => if code == 0 then AuthS else Hello2
    case (HelloS, InHelloAck(code)) => if code == 0 then Hello2 else HelloS
    case (HelloAckS, InHelloAck(code)) => if code == 0 then AuthS else HelloAckS
    case (AuthS, InAuth(accepted)) => if accepted then AuthAckS else AuthS
    case (Auth2, InAuth(accepted)) => if accepted then MapS else Auth2
    case (AuthS, InAuthAck(code)) => if code == 0 then Auth2 else AuthS
    case (AuthAckS, InAuthAck(code)) => if code == 0 then MapS else AuthAckS
    case (MapS, InMap(code, found)) => if code != 0 then MapS else if found.Some? then ExtMsg else Bad
    case (MapAckS, InMapAck(code)) => if code == 0 then ExtMsg else Bad
    case _ => p
  }

  /** The callback of a connection follows its phase; connections of other modules never see the
      first one. */
  predicate InStep(c: Conn) {
    (c.handler == OnMsg <==> Rank(c.phase) >= 4) && (c.phase == MapAckS ==> c.lep.Some?)
    && (Rank(c.phase) < 4 ==> Sound(c)) && (c.isAuth == c.amAuth || Rank(c.phase) < 4)
  }

  /** A message is acted on exactly in the phases named above. */
  lemma GuardIsPhase(c: Conn, m: Inbound)
    requires InStep(c)
    ensures Guard(c, m) <==> ActedOn(c.phase, m)
  {
  }

  /** What the mapping flag holds after a message: the code a MAP is answered with, or a refusal. */
  function FlagAfter(flag: int, m: Inbound): int {
    match m
    case InMap(code, found) => if code != 0 then code else if found.Some? then 0 else 1
    case InMapAck(code) => if code != 0 then code else flag
    case _ => flag
  }

  /** The endpoint whose list a message appends the connection to: the one the peer's query found, or
      the one the accepted MAP named. */
  function MappedOnto(c: Conn, m: Inbound): Option<EpId> {
    if c.id <= 0 then None
    else
      match m
      case InMap(code, found) => if code == 0 then found else None
      case InMapAck(code) => if code == 0 then c.lep else None
      case _ => None
  }

  /** Acted on, it moves the connection as the table says, is answered with its answer, is handed to
      the endpoint if it is data, and closes the connection if it is a refusal. */
  lemma HandleByTable(c: Conn, m: Inbound)
    requires InStep(c) && ActedOn(c.phase, m)
    ensures var d := Handle(c, m);
            && d.id == c.id && d.phase == PhaseAfter(c.phase, m) && d.sent == c.sent + Answer(m)
            && d.delivered == c.delivered + (if m.InData? then 1 else 0)
            && d.closed == (c.closed || (m.InAuthAck? && m.code != 0))
  {
    assert c.sent + [] == c.sent;
  }

  /** It sets the flag of its side of the authentication, and writes a wake-up token on entering AUTH
      or MAP and for every MAP_ACK; mapping appends the connection to one list. */
  lemma HandleMarks(c: Conn, m: Inbound)
    requires InStep(c) && ActedOn(c.phase, m)
    ensures var d := Handle(c, m);
            && d.isAuth == (c.isAuth || m == InAuth(true)) && d.amAuth == (c.amAuth || m == InAuthAck(0))
            && d.flag == FlagAfter(c.flag, m)
            && d.tokens == c.tokens + (if m.InMapAck? || (d.phase != c.phase && d.phase in {AuthS, MapS}) then 1 else 0)
    ensures var d, ep := Handle(c, m), MappedOnto(c, m);
            if ep.Some? then d.mappings == c.mappings + [ep.value] && d.lep == ep
            else d.mappings == c.mappings && d.lep == c.lep
  {
  }

  lemma StepKeepsInStep(c: Conn, m: Inbound)
    requires InStep(c)
    ensures InStep(Receive(c, m))
  {
  }

  /** One message, whatever it is and whenever it comes: one that is not acted on changes nothing. */
  lemma OneReceipt(c: Conn, m: Inbound)
    requires InStep(c)
    ensures InStep(Receive(c, m)) && (!ActedOn(c.phase, m) ==> Receive(c, m) == c)
    ensures var d := Receive(c, m);
            && d.id == c.id
            && d.phase == (if ActedOn(c.phase, m) then PhaseAfter(c.phase, m) else c.phase)
            && d.sent == c.sent + (if ActedOn(c.phase, m) then Answer(m) else [])
            && d.delivered == c.delivered + (if ActedOn(c.phase, m) && m.InData? then 1 else 0)
            && d.closed == (c.closed || (ActedOn(c.phase, m) && m.InAuthAck? && m.code != 0))
            && d.isAuth == (c.isAuth || (ActedOn(c.phase, m) && m == InAuth(true)))
            && d.amAuth == (c.amAuth || (ActedOn(c.phase, m) && m == InAuthAck(0)))
  {
    GuardIsPhase(c, m);
    StepKeepsInStep(c, m);
    if ActedOn(c.phase, m) {
      HandleByTable(c, m);
      HandleMarks(c, m);
    }
  }

  /** The handlers outside the phases above: greetings are answered and nothing else, credentials and
      their acknowledgement still count, an acknowledged MAP with no endpoint to map is ignored; and
      only messages of the authentication switch the callback. */
  lemma HandledOutOfPhase(c: Conn, accepted: bool, code: int, m: Inbound)
    ensures !m.InAuth? && !m.InAuthAck? ==> Receive(c, m).handler == c.handler
    ensures c.phase !in {HelloS, Hello2} ==> Handle(c, InHello(code)) == c.(sent := c.sent + [HelloAck(code)])
    ensures c.phase !in {HelloS, HelloAckS} ==> Handle(c, InHelloAck(code)) == c.(sent := c.sent + [Auth])
    ensures c.lep.None? ==> Handle(c, InMapAck(0)) == c
    ensures var d := Handle(c, InAuth(accepted));
            d.isAuth == (c.isAuth || accepted) && d.sent == c.sent + [AuthAck(if d.isAuth then 0 else -3)]
    ensures var d := Handle(c, InAuthAck(code)); d.amAuth == (c.amAuth || code == 0)
  {
  }

  lemma {:induction false} RunsStayInStep(id: int, bridge: bool, ms: seq<Inbound>)
    ensures InStep(Run(Connected(id, bridge), ms))
    decreases |ms|
  {
    if ms != [] {
      RunsStayInStep(id, bridge, ms[..|ms| - 1]);
      OneReceipt(Run(Connected(id, bridge), ms[..|ms| - 1]), ms[|ms| - 1]);
    }
  }

  /** Whether the k-th message of a run is acted on. */
  predicate ActsAt(id: int, bridge: bool, ms: seq<Inbound>, k: nat)
    requires k < |ms|
  {
    ActedOn(Run(Connected(id, bridge), ms[..k]).phase, ms[k])
  }

  /** The data messages that arrive in EXT_MSG. */
  function DataAt(id: int, bridge: bool, ms: seq<Inbound>): set<nat> {
    set k: nat | 0 <= k < |ms| && ms[k] == InData && Run(Connected(id, bridge), ms[..k]).phase == ExtMsg
  }

  lemma DataSnoc(id: int, bridge: bool, ms: seq<Inbound>, m: Inbound)
    ensures |DataAt(id, bridge, ms + [m])| ==
            |DataAt(id, bridge, ms)| + if m == InData && Run(Connected(id, bridge), ms).phase == ExtMsg then 1 else 0
  {
    var all := ms + [m];
    assert all[..|ms|] == ms && all[|ms|] == m;
    forall k: nat | k < |ms| ensures all[..k] == ms[..k] && all[k] == ms[k] {
    }
    var last: set<nat> := if m == InData && Run(Connected(id, bridge), ms).phase == ExtMsg then {|ms|} else {};
    assert DataAt(id, bridge, all) == DataAt(id, bridge, ms) + last;
  }

  /** Over any run the endpoint's handler is called exactly once for each data message that arrives
      in EXT_MSG, whatever came before. */
  lemma {:induction false} DeliveryIsExact(id: int, bridge: bool, ms: seq<Inbound>)
    ensures Run(Connected(id, bridge), ms).delivered == |DataAt(id, bridge, ms)|
    decreases |ms|
  {
    if ms == [] {
      assert DataAt(id, bridge, ms) == {};
    } else {
      var ms0, m := ms[..|ms| - 1], ms[|ms| - 1];
      assert ms == ms0 + [m];
      DeliveryIsExact(id, bridge, ms0);
      RunsStayInStep(id, bridge, ms0);
      OneReceipt(Run(Connected(id, bridge), ms0), m);
      DataSnoc(id, bridge, ms0, m);
    }
  }

  /** The answers to the messages of a run that were acted on, in order. */
  function AnswersTo(id: int, bridge: bool, ms: seq<Inbound>): seq<Message> {
    if ms == [] then []
    else
      var k := |ms| - 1;
      AnswersTo(id, bridge, ms[..k]) + if ActsAt(id, bridge, ms, k) then Answer(ms[k]) else []
  }

  /** Over any run a connection sends HELLO, if it is a bridge's, and then exactly the answers: every
      message acted on is answered, a refused one with its code. */
  lemma {:induction false} SendsExactlyAnswers(id: int, bridge: bool, ms: seq<Inbound>)
    ensures Run(Connected(id, bridge), ms).sent == (if bridge then [Hello] else []) + AnswersTo(id, bridge, ms)
    decreases |ms|
  {
    if ms != [] {
      var ms0 := ms[..|ms| - 1];
      SendsExactlyAnswers(id, bridge, ms0);
      RunsStayInStep(id, bridge, ms0);
      OneReceipt(Run(Connected(id, bridge), ms0), ms[|ms| - 1]);
    }
  }

  /** Some message of a run that was acted on is `m`. */
  predicate ActedSome(id: int, bridge: bool, ms: seq<Inbound>, m: Inbound) {
    exists k :: 0 <= k < |ms| && ms[k] == m && ActsAt(id, bridge, ms, k)
  }

  lemma ActedSnoc(id: int, bridge: bool, ms: seq<Inbound>, x: Inbound, m: Inbound)
    ensures ActedSome(id, bridge, ms + [x], m) <==>
            ActedSome(id, bridge, ms, m) || (x == m && ActedOn(Run(Connected(id, bridge), ms).phase, x))
  {
    var all := ms + [x];
    assert all[..|ms|] == ms && all[|ms|] == x;
    forall k | 0 <= k < |ms| ensures ActsAt(id, bridge, all, k) == ActsAt(id, bridge, ms, k) {
      assert all[..k] == ms[..k];
    }
    if ActedSome(id, bridge, ms, m) {
      var k :| 0 <= k < |ms| && ms[k] == m && ActsAt(id, bridge, ms, k);
      assert all[k] == m && ActsAt(id, bridge, all, k);
    }
    if x == m && ActedOn(Run(Connected(id, bridge), ms).phase, x) { assert ActsAt(id, bridge, all, |ms|); }
  }

  /** Over any run the peer counts as authenticated exactly if accepted credentials were acted on, and
      this side exactly if a zero AUTH_ACK was; a connection that skips the handshake has neither. */
  lemma {:induction false} FlagsTellTheHandshake(id: int, bridge: bool, ms: seq<Inbound>)
    ensures var c := Run(Connected(id, bridge), ms);
            && (c.isAuth <==> ActedSome(id, bridge, ms, InAuth(true)))
            && (c.amAuth <==> ActedSome(id, bridge, ms, InAuthAck(0)))
            && (!bridge ==> !c.isAuth && !c.amAuth && Rank(c.phase) >= 4)
    decreases |ms|
  {
    if ms != [] {
      var ms0, m := ms[..|ms| - 1], ms[|ms| - 1];
      assert ms == ms0 + [m];
      FlagsTellTheHandshake(id, bridge, ms0);
      RunsStayInStep(id, bridge, ms0);
      OneReceipt(Run(Connected(id, bridge), ms0), m);
      ActedSnoc(id, bridge, ms0, m, InAuth(true));
      ActedSnoc(id, bridge, ms0, m, InAuthAck(0));
    }
  }

  predicate RefusedAt(id: int, bridge: bool, ms: seq<Inbound>, k: nat)
    requires k < |ms|
  {
    ActsAt(id, bridge, ms, k) && ms[k].InAuthAck? && ms[k].code != 0
  }

  predicate EverRefused(id: int, bridge: bool, ms: seq<Inbound>) {
    exists k :: 0 <= k < |ms| && RefusedAt(id, bridge, ms, k)
  }

  lemma RefusedSnoc(id: int, bridge: bool, ms: seq<Inbound>, m: Inbound)
    ensures EverRefused(id, bridge, ms + [m]) <==>
            || EverRefused(id, bridge, ms)
            || (ActedOn(Run(Connected(id, bridge), ms).phase, m) && m.InAuthAck? && m.code != 0)
  {
    var all := ms + [m];
    assert all[..|ms|] == ms && all[|ms|] == m;
    forall k | 0 <= k < |ms| ensures RefusedAt(id, bridge, all, k) == RefusedAt(id, bridge, ms, k) {
      assert all[..k] == ms[..k];
    }
    if EverRefused(id, bridge, ms) {
      var k :| 0 <= k < |ms| && RefusedAt(id, bridge, ms, k);
      assert RefusedAt(id, bridge, all, k);
    }
    if ActedOn(Run(Connected(id, bridge), ms).phase, m) && m.InAuthAck? && m.code != 0 {
      assert RefusedAt(id, bridge, all, |ms|);
    }
  }

  /** The connection is closed exactly if some AUTH_ACK acted on carried a refusal. */
  lemma {:induction false} ClosesOnRefusal(id: int, bridge: bool, ms: seq<Inbound>)
    ensures Run(Connected(id, bridge), ms).closed <==> EverRefused(id, bridge, ms)
    decreases |ms|
  {
    if ms != [] {
      var ms0, m := ms[..|ms| - 1], ms[|ms| - 1];
      assert ms == ms0 + [m];
      ClosesOnRefusal(id, bridge, ms0);
      RunsStayInStep(id, bridge, ms0);
      OneReceipt(Run(Connected(id, bridge), ms0), m);
      RefusedSnoc(id, bridge, ms0, m);
    }
  }

  // ---------- Nothing is delivered before the whole handshake ----------

  lemma {:induction false} HelloEvidence(id: int, ms: seq<Inbound>) returns (a: nat)
    requires Run(Connected(id, true), ms).phase != HelloS && Run(Connected(id, true), ms).phase != Hello2
    ensures a < |ms| && ms[a] == InHello(0)
    decreases |ms|
  {
    var ms0, m := ms[..|ms| - 1], ms[|ms| - 1];
    var c := Run(Connected(id, true), ms0);
    ConnectionStaysSound(id, ms0);
    if c.phase != HelloS && c.phase != Hello2 {
      a := HelloEvidence(id, ms0);
    } else {
      a := |ms| - 1;
    }
  }

  lemma {:induction false} HelloAckEvidence(id: int, ms: seq<Inbound>) returns (b: nat)
    requires Run(Connected(id, true), ms).phase != HelloS && Run(Connected(id, true), ms).phase != HelloAckS
    ensures b < |ms| && ms[b] == InHelloAck(0)
    decreases |ms|
  {
    var ms0, m := ms[..|ms| - 1], ms[|ms| - 1];
    var c := Run(Connected(id, true), ms0);
    ConnectionStaysSound(id, ms0);
    if c.phase != HelloS && c.phase != HelloAckS {
      b := HelloAckEvidence(id, ms0);
    } else {
      b := |ms| - 1;
    }
  }

  lemma {:induction false} AuthEvidence(id: int, ms: seq<Inbound>) returns (i: nat)
    requires Run(Connected(id, true), ms).isAuth
    ensures i < |ms| && ms[i] == InAuth(true) && Rank(Run(Connected(id, true), ms[..i]).phase) >= 2
    decreases |ms|
  {
    var ms0, m := ms[..|ms| - 1], ms[|ms| - 1];
    var c := Run(Connected(id, true), ms0);
    ConnectionStaysSound(id, ms0);
    if c.isAuth {
      i := AuthEvidence(id, ms0);
      assert ms0[..i] == ms[..i];
    } else {
      i := |ms| - 1;
    }
  }

  lemma {:induction false} AuthAckEvidence(id: int, ms: seq<Inbound>) returns (i: nat)
    requires Run(Connected(id, true), ms).amAuth
    ensures i < |ms| && ms[i] == InAuthAck(0) && Rank(Run(Connected(id, true), ms[..i]).phase) >= 2
    decreases |ms|
  {
    var ms0, m := ms[..|ms| - 1], ms[|ms| - 1];
    var c := Run(Connected(id, true), ms0);
    ConnectionStaysSound(id, ms0);
    if c.amAuth {
      i := AuthAckEvidence(id, ms0);
      assert ms0[..i] == ms[..i];
    } else {
      i := |ms| - 1;
    }
  }

  lemma {:induction false} MapEvidence(id: int, ms: seq<Inbound>) returns (e: nat)
    requires Run(Connected(id, true), ms).phase == ExtMsg
    ensures e < |ms| && ms[e].InMap? && ms[e].code == 0 && ms[e].found.Some?
    ensures Run(Connected(id, true), ms[..e]).phase == MapS
    decreases |ms|
  {
    var ms0, m := ms[..|ms| - 1], ms[|ms| - 1];
    var c := Run(Connected(id, true), ms0);
    ConnectionStaysSound(id, ms0);
    if c.phase == ExtMsg {
      e := MapEvidence(id, ms0);
      assert ms0[..e] == ms[..e];
    } else {
      e := |ms| - 1;
    }
  }

  lemma HelloBefore(id: int, ms: seq<Inbound>, i: nat) returns (a: nat, b: nat)
    requires i <= |ms| && Rank(Run(Connected(id, true), ms[..i]).phase) >= 2
    ensures a < i && b < i && ms[a] == InHello(0) && ms[b] == InHelloAck(0)
  {
    a := HelloEvidence(id, ms[..i]);
    b := HelloAckEvidence(id, ms[..i]);
  }

  /** A connection in MAP has accepted credentials and a zero AUTH_ACK behind it, and before each
      of these a valid HELLO and a zero HELLO_ACK. */
  lemma HandshakeBefore(id: int, ms: seq<Inbound>) returns (hello: nat, helloAck: nat, auth: nat, authAck: nat)
    requires Run(Connected(id, true), ms).phase == MapS
    ensures hello < auth < |ms| && hello < authAck < |ms| && helloAck < auth && helloAck < authAck
    ensures ms[hello] == InHello(0) && ms[helloAck] == InHelloAck(0)
    ensures ms[auth] == InAuth(true) && ms[authAck] == InAuthAck(0)
  {
    ConnectionStaysSound(id, ms);
    auth := AuthEvidence(id, ms);
    authAck := AuthAckEvidence(id, ms);
    var first := if auth < authAck then auth else authAck;
    hello, helloAck := HelloBefore(id, ms, first);
  }

  /** If the k-th message reaches the endpoint's handler, then before it came a mapping, before
      that an accepted credential and a zero AUTH_ACK, and before each of these a valid HELLO and
      a zero HELLO_ACK; and the phase at that point is EXT_MSG. */
  lemma DeliveryNeedsHandshake(id: int, ms: seq<Inbound>, k: nat)
    returns (hello: nat, helloAck: nat, auth: nat, authAck: nat, mapped: nat)
    requires k < |ms|
    requires Run(Connected(id, true), ms[..k + 1]).delivered > Run(Connected(id, true), ms[..k]).delivered
    ensures ms[k] == InData && Run(Connected(id, true), ms[..k]).phase == ExtMsg
    ensures hello < auth && hello < authAck && helloAck < auth && helloAck < authAck
    ensures auth < mapped && authAck < mapped && mapped < k
    ensures ms[hello] == InHello(0) && ms[helloAck] == InHelloAck(0)
    ensures ms[auth] == InAuth(true) && ms[authAck] == InAuthAck(0)
    ensures ms[mapped].InMap? && ms[mapped].code == 0 && ms[mapped].found.Some?
  {
    assert ms[..k + 1][..k] == ms[..k];
    ConnectionStaysSound(id, ms[..k]);
    ReceiveKeepsSound(Run(Connected(id, true), ms[..k]), ms[k]);
    mapped := MapEvidence(id, ms[..k]);
    assert ms[..k][..mapped] == ms[..mapped];
    hello, helloAck, auth, authAck := HandshakeBefore(id, ms[..mapped]);
  }
}
