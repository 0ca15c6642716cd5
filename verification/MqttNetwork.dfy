/** Any number of bridge processes joined by a broker that keeps the order of each topic and
    delivers each message once (section 4.6 of MQTT 3.1.1), with fresh random topic names:
    which channel hears which. */
module MqttNetwork {
  import opened CFormat
  import Framer
  import opened MqttBridge

  type NodeId = int

  /** A channel once opened: its process, its last state, whether it is still open, how often
      on_connect was called for it, the data sent on it and the data handed up from it. */
  datatype Entry = Entry(node: NodeId, chan: Chan, live: bool, announced: nat, sent: seq<string>, got: seq<string>)

  /** The processes, every channel ever opened by its incoming topic, what the broker still has
      to deliver on each topic, the address each connecting channel asked for, and the channel
      that answered it. */
  datatype Net = Net(nodes: map<NodeId, Node>, chans: map<Topic, Entry>, queues: map<Topic, seq<string>>,
                     dest: map<Topic, Topic>, answer: map<Topic, Topic>)

  datatype Action =
    | DoConnect(n: NodeId, addr: Topic, name: string)
    | Deliver(n: NodeId, topic: Topic, name: string)
    | DoSend(n: NodeId, conn: int, data: string)
    | DoClose(n: NodeId, conn: int)

  function Queue(queues: map<Topic, seq<string>>, t: Topic): seq<string> {
    if t in queues then queues[t] else []
  }

  function Push(queues: map<Topic, seq<string>>, p: Publication): map<Topic, seq<string>> {
    queues[p.topic := Queue(queues, p.topic) + [p.payload]]
  }

  /** A random name nobody uses yet, as topic or as address. */
  predicate Fresh(s: Net, name: Topic) {
    name !in s.chans && name !in s.queues && forall n | n in s.nodes :: s.nodes[n].listen != name
  }

  predicate Random(name: string) {
    |name| == TOPIC_SIZE && NoNul(name)
  }

  predicate Possible(s: Net, act: Action) {
    act.n in s.nodes && (
      match act
      case DoConnect(_, addr, name) => Random(name) && Fresh(s, name) && addr !in s.chans && addr != name
      case Deliver(n, t, name) =>
        t in s.nodes[n].subs && Queue(s.queues, t) != [] && Random(name) && Fresh(s, CopyN(name, 5))
      case _ => true)
  }

  function Opened(s: Net, n: NodeId, c: Chan, times: nat): map<Topic, Entry> {
    s.chans[c.topicIn := Entry(n, c, true, times, [], [])]
  }

  function Notify(s: Net, c: Chan, u: Upcall): map<Topic, Entry> {
    if c.topicIn !in s.chans then s.chans
    else
      var e := s.chans[c.topicIn];
      s.chans[c.topicIn := if u.OnConnect? then e.(chan := c, announced := e.announced + 1)
                           else e.(got := e.got + [u.data])]
  }

  function Next(s: Net, act: Action): Net
    requires Possible(s, act)
  {
    var nd := s.nodes[act.n];
    match act
    case DoConnect(n, addr, name) =>
      var r := Connect(nd, addr, name, true);
      s.(nodes := s.nodes[n := r.0], chans := Opened(s, n, r.0.conns[r.1], 0),
         queues := Push(s.queues, Publication(addr, name)), dest := s.dest[name := addr])
    case Deliver(n, t, name) =>
      var o := OnMessage(nd, t, s.queues[t][0], name, true);
      var u := s.(nodes := s.nodes[n := o.node], queues := s.queues[t := s.queues[t][1..]]);
      if o.published.Some? then
        var c := o.node.conns[o.node.counter];
        u.(chans := Opened(s, n, c, if o.upcall.Some? then 1 else 0), queues := Push(u.queues, o.published.value),
           answer := s.answer[o.published.value.topic := c.topicIn])
      else if o.upcall.Some? then u.(chans := Notify(s, o.node.conns[o.upcall.value.fd], o.upcall.value))
      else u
    case DoSend(n, conn, data) =>
      var p := Send(nd, conn, data);
      if p.None? then s
      else
        var t := nd.conns[conn].topicIn;
        s.(queues := Push(s.queues, p.value),
           chans := if t in s.chans then s.chans[t := s.chans[t].(sent := s.chans[t].sent + [data])] else s.chans)
    case DoClose(n, conn) =>
      if conn !in nd.conns then s
      else
        var t := nd.conns[conn].topicIn;
        s.(nodes := s.nodes[n := Close(nd, conn).0],
           chans := if t in s.chans then s.chans[t := s.chans[t].(live := false)] else s.chans)
  }

  predicate Run(s: Net, acts: seq<Action>, t: Net)
    decreases acts
  {
    if acts == [] then s == t else Possible(s, acts[0]) && Run(Next(s, acts[0]), acts[1..], t)
  }

  /** Processes just started, each on a listen topic of its own. */
  predicate Initial(s: Net) {
    && s.chans == map[] && s.queues == map[] && s.dest == map[] && s.answer == map[]
    && (forall n | n in s.nodes :: s.nodes[n] == Node(s.nodes[n].listen, 0, map[], map[], {s.nodes[n].listen}))
    && (forall n, m | n in s.nodes && m in s.nodes && n != m :: s.nodes[n].listen != s.nodes[m].listen)
  }

  // ---------- Processes and channels agree on who owns what ----------

  /** The entry kept for topic `t` describes what the process that opened it holds. */
  predicate Located(nodes: map<NodeId, Node>, t: Topic, e: Entry) {
    && t != "" && |t| <= TOPIC_SIZE && NoNul(t) && e.chan.topicIn == t
    && e.node in nodes && t in nodes[e.node].subs
    && var nd := nodes[e.node];
       if e.live then t in nd.topics && nd.topics[t] == e.chan.fd
                      && e.chan.fd in nd.conns && nd.conns[e.chan.fd] == e.chan
       else t !in nd.topics
  }

  predicate Owned(chans: map<Topic, Entry>, t: Topic, n: NodeId) {
    t in chans && chans[t].node == n
  }

  /** A process hears its listen topic and the topics of the channels it opened, and nothing else. */
  predicate Owner(n: NodeId, nd: Node, chans: map<Topic, Entry>) {
    && Agree(nd) && nd.listen in nd.subs && nd.listen !in chans
    && (forall t | t in nd.topics :: Owned(chans, t, n) && chans[t].live)
    && (forall t | t in nd.subs :: t == nd.listen || Owned(chans, t, n))
  }

  predicate Structure(nodes: map<NodeId, Node>, chans: map<Topic, Entry>) {
    && (forall n | n in nodes :: Owner(n, nodes[n], chans))
    && (forall t | t in chans :: Located(nodes, t, chans[t]))
    && (forall n, m | n in nodes && m in nodes && n != m :: nodes[n].listen != nodes[m].listen)
  }

  /** The names and messages of the protocol fit their buffers. */
  lemma NamesFit(name: string)
    requires NoNul(name)
    ensures |name| <= TOPIC_SIZE ==> CopyN(name, TOPIC_SIZE) == name
    ensures |name| == TOPIC_SIZE ==> CopyN(name, 5) == name[..5] && NoNul(name[..5])
  {
    CStringWhole(name);
    if |name| == TOPIC_SIZE { CStringWhole(name[..5]); }
  }

  lemma OwnerAfterOpen(n: NodeId, nd: Node, chans: map<Topic, Entry>, c: Chan, e: Entry)
    requires Owner(n, nd, chans) && c.fd == nd.counter + 1 && c.topicIn !in chans && c.topicIn != nd.listen
    requires e.node == n && e.live
    ensures Owner(n, Register(nd, c), chans[c.topicIn := e])
  {
    RegisterKeepsAgreeIff(nd, c);
    var after := chans[c.topicIn := e];
    forall t | t in Register(nd, c).topics ensures Owned(after, t, n) && after[t].live {
      assert t == c.topicIn || Owned(chans, t, n);
    }
  }

  lemma OpenKeepsStructure(nodes: map<NodeId, Node>, chans: map<Topic, Entry>, n: NodeId, c: Chan, e: Entry)
    requires Structure(nodes, chans) && n in nodes && c.fd == nodes[n].counter + 1
    requires c.topicIn !in chans && forall m | m in nodes :: nodes[m].listen != c.topicIn
    requires c.topicIn != "" && |c.topicIn| <= TOPIC_SIZE && NoNul(c.topicIn)
    requires e.node == n && e.live && e.chan == c
    ensures Structure(nodes[n := Register(nodes[n], c)], chans[c.topicIn := e])
  {
    var nodes1, chans1 := nodes[n := Register(nodes[n], c)], chans[c.topicIn := e];
    forall m | m in nodes1 ensures Owner(m, nodes1[m], chans1) {
      assert Owner(m, nodes[m], chans);
      if m == n { OwnerAfterOpen(n, nodes[n], chans, c, e); } else { OtherOwner(m, nodes[m], chans, c.topicIn, e); }
    }
    forall t | t in chans1 ensures Located(nodes1, t, chans1[t]) {
      assert t == c.topicIn || Located(nodes, t, chans[t]);
    }
  }

  /** What another process owns is untouched by a new entry. */
  lemma OtherOwner(m: NodeId, nd: Node, chans: map<Topic, Entry>, t: Topic, e: Entry)
    requires Owner(m, nd, chans) && t != nd.listen && !Owned(chans, t, m)
    ensures Owner(m, nd, chans[t := e])
  {
    forall x | x in nd.topics ensures Owned(chans[t := e], x, m) && chans[t := e][x].live {
      assert Owned(chans, x, m);
    }
    forall x | x in nd.subs ensures x == nd.listen || Owned(chans[t := e], x, m) {
      assert x == nd.listen || Owned(chans, x, m);
    }
  }

  /** The process with the channel of that number replaced. */
  function Rewired(nd: Node, c: Chan): Node {
    nd.(conns := nd.conns[c.fd := c])
  }

  /** A channel whose state changes in step with its entry. */
  lemma UpdateKeepsStructure(nodes: map<NodeId, Node>, chans: map<Topic, Entry>, t: Topic, e: Entry)
    requires Structure(nodes, chans) && t in chans && chans[t].live
    requires e.live && e.node == chans[t].node && e.chan.fd == chans[t].chan.fd && e.chan.topicIn == t
    ensures Structure(nodes[e.node := Rewired(nodes[e.node], e.chan)], chans[t := e])
  {
    assert Located(nodes, t, chans[t]);
    var n := e.node;
    var nd := Rewired(nodes[n], e.chan);
    assert Owner(n, nodes[n], chans);
    forall m | m in nodes ensures Owner(m, nodes[n := nd][m], chans[t := e]) {
      assert Owner(m, nodes[m], chans);
      if m == n { OwnerAfterUpdate(n, nodes[n], chans, t, e); } else { OtherOwner(m, nodes[m], chans, t, e); }
    }
    forall x | x in chans ensures Located(nodes[n := nd], x, chans[t := e][x]) {
      assert Located(nodes, x, chans[x]);
      LocatedAfterUpdate(nodes, chans, t, e, x);
    }
  }

  lemma LocatedAfterUpdate(nodes: map<NodeId, Node>, chans: map<Topic, Entry>, t: Topic, e: Entry, x: Topic)
    requires t in chans && chans[t].live && Located(nodes, t, chans[t]) && x in chans && Located(nodes, x, chans[x])
    requires e.live && e.node == chans[t].node && e.chan.fd == chans[t].chan.fd && e.chan.topicIn == t
    ensures Located(nodes[e.node := Rewired(nodes[e.node], e.chan)], x, chans[t := e][x])
  {
  }

  lemma OwnerAfterUpdate(n: NodeId, nd: Node, chans: map<Topic, Entry>, t: Topic, e: Entry)
    requires Owner(n, nd, chans) && t in nd.topics && nd.topics[t] == e.chan.fd
    requires e.live && e.node == n && e.chan.topicIn == t
    ensures Owner(n, Rewired(nd, e.chan), chans[t := e])
  {
    forall x | x in nd.topics ensures Owned(chans[t := e], x, n) && chans[t := e][x].live {
      assert Owned(chans, x, n);
    }
    forall x | x in nd.subs ensures x == nd.listen || Owned(chans[t := e], x, n) {
      assert x == nd.listen || Owned(chans, x, n);
    }
  }

  /** Bookkeeping on an entry that leaves owner, channel and liveness alone. */
  lemma NoteKeepsStructure(nodes: map<NodeId, Node>, chans: map<Topic, Entry>, t: Topic, e: Entry)
    requires Structure(nodes, chans) && t in chans
    requires e.live == chans[t].live && e.node == chans[t].node && e.chan == chans[t].chan
    ensures Structure(nodes, chans[t := e])
  {
    forall m | m in nodes ensures Owner(m, nodes[m], chans[t := e]) {
      var nd := nodes[m];
      assert Owner(m, nd, chans);
      forall x | x in nd.topics ensures Owned(chans[t := e], x, m) && chans[t := e][x].live {
        assert Owned(chans, x, m);
      }
      forall x | x in nd.subs ensures x == nd.listen || Owned(chans[t := e], x, m) {
        assert x == nd.listen || Owned(chans, x, m);
      }
    }
    forall x | x in chans ensures Located(nodes, x, chans[t := e][x]) {
      assert Located(nodes, x, chans[x]);
    }
  }

  lemma OwnerAfterClose(n: NodeId, nd: Node, chans: map<Topic, Entry>, c: Chan, e: Entry)
    requires Owner(n, nd, chans) && c.fd in nd.conns && nd.conns[c.fd] == c
    requires e.node == n && c.topicIn in chans
    ensures Owner(n, Free(nd, c), chans[c.topicIn := e])
  {
    FreeKeepsAgree(nd, c);
    var after := chans[c.topicIn := e];
    forall x | x in Free(nd, c).topics ensures Owned(after, x, n) && after[x].live { assert Owned(chans, x, n); }
    forall x | x in nd.subs ensures x == nd.listen || Owned(after, x, n) {
      assert x == nd.listen || Owned(chans, x, n);
    }
  }

  lemma CloseKeepsStructure(nodes: map<NodeId, Node>, chans: map<Topic, Entry>, t: Topic)
    requires Structure(nodes, chans) && t in chans && chans[t].live
    ensures chans[t].node in nodes
    ensures Structure(nodes[chans[t].node := Free(nodes[chans[t].node], chans[t].chan)],
                      chans[t := chans[t].(live := false)])
  {
    assert Located(nodes, t, chans[t]);
    var n, c, e := chans[t].node, chans[t].chan, chans[t].(live := false);
    var nodes1 := nodes[n := Free(nodes[n], c)];
    assert Owner(n, nodes[n], chans);
    forall m | m in nodes ensures Owner(m, nodes1[m], chans[t := e]) {
      assert Owner(m, nodes[m], chans);
      if m == n { OwnerAfterClose(n, nodes[n], chans, c, e); } else { OtherOwner(m, nodes[m], chans, t, e); }
    }
    forall x | x in chans ensures Located(nodes1, x, chans[t := e][x]) {
      assert Located(nodes, x, chans[x]);
    }
  }

  // ---------- What flows between channels ----------

  /** The messages of a topic that carry data, as the other side is shown them. */
  function Heard(ms: seq<string>): seq<string> {
    if ms == [] then []
    else Heard(ms[..|ms| - 1]) + if ms[|ms| - 1] == "" then [] else [CString(ms[|ms| - 1])]
  }

  lemma HeardSnoc(ms: seq<string>, m: string)
    ensures Heard(ms + [m]) == Heard(ms) + if m == "" then [] else [CString(m)]
  {
    assert (ms + [m])[..|ms + [m]| - 1] == ms;
  }

  lemma {:induction false} HeardCons(ms: seq<string>)
    requires ms != []
    ensures Heard(ms) == (if ms[0] == "" then [] else [CString(ms[0])]) + Heard(ms[1..])
    decreases |ms|
  {
    if |ms| == 1 {
      assert ms[..0] == [] && ms[1..] == [];
    } else {
      HeardCons(ms[..|ms| - 1]);
      assert ms[..|ms| - 1][1..] == ms[1..][..|ms[1..]| - 1];
    }
  }

  /** What a channel handed up is a prefix of what its partner sent, and while it is open the
      rest is on its way. */
  predicate Flow(e: Entry, queue: seq<string>, partnerSent: seq<string>) {
    e.got <= Heard(partnerSent) && (e.live ==> e.got + Heard(queue) == Heard(partnerSent))
  }

  predicate ClientOk(s: Net, x: Topic)
    requires x in s.dest && x in s.chans
  {
    var e, q := s.chans[x], Queue(s.queues, x);
    && s.dest[x] in s.queues && s.dest[x] !in s.chans
    && e.announced == (if e.chan.connected then 1 else 0)
    && (!e.chan.connected ==> e.chan.topicOut == None && e.sent == [] && e.got == [])
    && if x !in s.answer then !e.chan.connected && q == [] && x in Queue(s.queues, s.dest[x])
       else
         var y := s.answer[x];
         && y in s.chans && y !in s.dest && s.chans[y].chan.topicOut == Some(x)
         && if e.chan.connected then e.chan.topicOut == Some(y) && Flow(e, q, s.chans[y].sent)
            else e.live ==> q != [] && q[0] == y && Heard(q[1..]) == Heard(s.chans[y].sent)
  }

  predicate ServerOk(s: Net, y: Topic)
    requires y in s.chans
  {
    var e := s.chans[y];
    && e.chan.connected && e.announced == 1 && e.chan.topicOut.Some?
    && var x := e.chan.topicOut.value;
       && x in s.dest && x in s.answer && s.answer[x] == y && x in s.chans
       && e.node in s.nodes && s.nodes[e.node].listen == s.dest[x]
       && Flow(e, Queue(s.queues, y), s.chans[x].sent)
  }

  predicate Waiting(s: Net, x: Topic, addr: Topic) {
    x in s.dest && s.dest[x] == addr && x !in s.answer
  }

  /** A topic that is nobody's channel holds connection requests, one per waiting channel. */
  predicate Requests(s: Net, addr: Topic) {
    var q := Queue(s.queues, addr);
    && (forall i | 0 <= i < |q| :: Waiting(s, q[i], addr))
    && (forall i, j | 0 <= i < j < |q| :: q[i] != q[j])
  }

  predicate Flows(s: Net) {
    && s.dest.Keys <= s.chans.Keys && s.answer.Keys <= s.dest.Keys
    && (forall x | x in s.dest :: ClientOk(s, x))
    && (forall y | y in s.chans && y !in s.dest :: ServerOk(s, y))
    && (forall a | a in s.queues && a !in s.chans :: Requests(s, a))
  }

  ghost predicate Inv(s: Net) {
    Structure(s.nodes, s.chans) && Flows(s)
  }

  // ---------- Connecting ----------

  predicate Connects(s: Net, u: Net, n: NodeId, nd: Node, c: Chan, addr: Topic) {
    && n in s.nodes && nd.listen == s.nodes[n].listen
    && c.topicIn !in s.chans && c.topicIn !in s.queues && addr !in s.chans && addr != c.topicIn
    && !c.connected && c.topicOut == None
    && u == s.(nodes := s.nodes[n := nd], chans := s.chans[c.topicIn := Entry(n, c, true, 0, [], [])],
               queues := Push(s.queues, Publication(addr, c.topicIn)), dest := s.dest[c.topicIn := addr])
  }

  lemma ConnectClient(s: Net, u: Net, n: NodeId, nd: Node, c: Chan, addr: Topic, x: Topic)
    requires Connects(s, u, n, nd, c, addr) && x in s.dest && x in s.chans && ClientOk(s, x)
    ensures ClientOk(u, x)
  {
  }

  lemma ConnectServer(s: Net, u: Net, n: NodeId, nd: Node, c: Chan, addr: Topic, y: Topic)
    requires Connects(s, u, n, nd, c, addr) && y in s.chans && ServerOk(s, y)
    ensures ServerOk(u, y)
  {
  }

  lemma ConnectRequests(s: Net, u: Net, n: NodeId, nd: Node, c: Chan, addr: Topic, a: Topic)
    requires Connects(s, u, n, nd, c, addr) && Requests(s, a) && c.topicIn !in s.dest && c.topicIn !in s.answer
    ensures Requests(u, a)
  {
    var q, q1 := Queue(s.queues, a), Queue(u.queues, a);
    forall i | 0 <= i < |q1| ensures Waiting(u, q1[i], a) && (i < |q| ==> q1[i] != c.topicIn) {
      if i < |q| { assert Waiting(s, q[i], a); }
    }
  }

  lemma ConnectKeepsFlows(s: Net, u: Net, n: NodeId, nd: Node, c: Chan, addr: Topic)
    requires Flows(s) && Connects(s, u, n, nd, c, addr)
    ensures Flows(u)
  {
    forall x | x in u.dest ensures ClientOk(u, x) {
      if x != c.topicIn { ConnectClient(s, u, n, nd, c, addr, x); }
    }
    forall y | y in u.chans && y !in u.dest ensures ServerOk(u, y) { ConnectServer(s, u, n, nd, c, addr, y); }
    forall a | a in u.queues && a !in u.chans ensures Requests(u, a) {
      assert a in s.queues || Queue(s.queues, a) == [];
      ConnectRequests(s, u, n, nd, c, addr, a);
    }
  }

  lemma ConnectKeepsInv(s: Net, n: NodeId, addr: Topic, name: string)
    requires Inv(s) && Possible(s, DoConnect(n, addr, name))
    ensures Inv(Next(s, DoConnect(n, addr, name)))
  {
    var u := Next(s, DoConnect(n, addr, name));
    var c := Chan(s.nodes[n].counter + 1, name, None, false);
    OpenKeepsStructure(s.nodes, s.chans, n, c, Entry(n, c, true, 0, [], []));
    ConnectKeepsFlows(s, u, n, Register(s.nodes[n], c), c, addr);
  }

  // ---------- Answering ----------

  predicate Answers(s: Net, u: Net, n: NodeId, nd: Node, c: Chan) {
    && n in s.nodes && nd.listen == s.nodes[n].listen && nd.listen !in s.chans
    && Queue(s.queues, nd.listen) != []
    && c.topicIn !in s.chans && c.topicIn !in s.queues
    && c.connected && c.topicOut == Some(s.queues[nd.listen][0])
    && u == s.(nodes := s.nodes[n := nd], chans := s.chans[c.topicIn := Entry(n, c, true, 1, [], [])],
               queues := Push(s.queues[nd.listen := s.queues[nd.listen][1..]],
                              Publication(c.topicOut.value, c.topicIn)),
               answer := s.answer[c.topicOut.value := c.topicIn])
  }

  lemma AnswerClient(s: Net, u: Net, n: NodeId, nd: Node, c: Chan, x: Topic)
    requires Answers(s, u, n, nd, c) && x in s.dest && x in s.chans && ClientOk(s, x)
    requires c.topicOut.value in s.chans && c.topicIn !in s.dest && (x == c.topicOut.value ==> x !in s.answer)
    ensures ClientOk(u, x)
  {
    var q := s.queues[nd.listen];
    assert q == [q[0]] + q[1..];
    if x == c.topicOut.value {
      assert Queue(u.queues, x) == [c.topicIn];
    }
  }

  lemma AnswerServer(s: Net, u: Net, n: NodeId, nd: Node, c: Chan, y: Topic)
    requires Answers(s, u, n, nd, c) && y in s.chans && ServerOk(s, y) && c.topicOut.value in s.dest && y !in s.dest
    requires c.topicOut.value !in s.answer
    ensures ServerOk(u, y)
  {
  }

  lemma AnswerRequests(s: Net, u: Net, n: NodeId, nd: Node, c: Chan, a: Topic)
    requires Answers(s, u, n, nd, c) && Requests(s, a) && Requests(s, nd.listen)
    requires c.topicOut.value in s.chans && a !in s.chans
    ensures Requests(u, a)
  {
    var q, q1, q0 := Queue(s.queues, a), Queue(u.queues, a), s.queues[nd.listen];
    assert Waiting(s, q0[0], nd.listen);
    forall i | 0 <= i < |q1| ensures Waiting(u, q1[i], a) {
      if a == nd.listen { assert q1[i] == q0[i + 1] && Waiting(s, q0[i + 1], a); } else { assert Waiting(s, q[i], a); }
    }
  }

  lemma AnswerKeepsFlows(s: Net, u: Net, n: NodeId, nd: Node, c: Chan)
    requires Flows(s) && Answers(s, u, n, nd, c)
    ensures Flows(u)
  {
    var x0 := c.topicOut.value;
    assert Requests(s, nd.listen) && Waiting(s, x0, nd.listen);
    assert ClientOk(s, x0);
    forall x | x in u.dest ensures ClientOk(u, x) { AnswerClient(s, u, n, nd, c, x); }
    forall y | y in u.chans && y !in u.dest ensures ServerOk(u, y) {
      if y != c.topicIn { AnswerServer(s, u, n, nd, c, y); }
    }
    forall a | a in u.queues && a !in u.chans ensures Requests(u, a) { AnswerRequests(s, u, n, nd, c, a); }
  }

  function Answering(nd: Node, x: Topic, name: string): Chan {
    Chan(nd.counter + 1, CopyN(name, 5), Some(x), true)
  }

  /** The process opens a channel with the waiting one's topics swapped. */
  lemma AcceptIsAnswer(s: Net, n: NodeId, name: string)
    requires n in s.nodes && Possible(s, Deliver(n, s.nodes[n].listen, name)) && s.nodes[n].listen !in s.chans
    requires CopyN(s.queues[s.nodes[n].listen][0], TOPIC_SIZE) == s.queues[s.nodes[n].listen][0]
    ensures var c := Answering(s.nodes[n], s.queues[s.nodes[n].listen][0], name);
            Answers(s, Next(s, Deliver(n, s.nodes[n].listen, name)), n, Register(s.nodes[n], c), c)
  {
    var a := s.nodes[n].listen;
    var c := Answering(s.nodes[n], s.queues[a][0], name);
    var o := OnMessage(s.nodes[n], a, s.queues[a][0], name, true);
    assert o == Outcome(Register(s.nodes[n], c), Some(Publication(s.queues[a][0], c.topicIn)), Some(OnConnect(c.fd)));
    assert o.node.conns[o.node.counter] == c;
  }

  lemma RequestNamesChannel(s: Net, n: NodeId)
    requires Inv(s) && n in s.nodes && Queue(s.queues, s.nodes[n].listen) != []
    ensures s.nodes[n].listen !in s.chans
    ensures var x := s.queues[s.nodes[n].listen][0]; CopyN(x, TOPIC_SIZE) == x
  {
    var a := s.nodes[n].listen;
    assert Owner(n, s.nodes[n], s.chans) && Requests(s, a) && Waiting(s, s.queues[a][0], a);
    var x := s.queues[a][0];
    assert Located(s.nodes, x, s.chans[x]);
    NamesFit(x);
  }

  lemma AcceptKeepsInv(s: Net, n: NodeId, name: string)
    requires Inv(s) && n in s.nodes && Possible(s, Deliver(n, s.nodes[n].listen, name))
    ensures Inv(Next(s, Deliver(n, s.nodes[n].listen, name)))
  {
    var u := Next(s, Deliver(n, s.nodes[n].listen, name));
    RequestNamesChannel(s, n);
    AcceptIsAnswer(s, n, name);
    NamesFit(name);
    var c := Answering(s.nodes[n], s.queues[s.nodes[n].listen][0], name);
    OpenKeepsStructure(s.nodes, s.chans, n, c, Entry(n, c, true, 1, [], []));
    AnswerKeepsFlows(s, u, n, Register(s.nodes[n], c), c);
  }

  // ---------- Delivering on a channel, and closing one ----------

  /** One entry changes, and perhaps loses its first message; nobody else can tell. */
  predicate Changes(s: Net, u: Net, t: Topic, e: Entry) {
    && t in s.chans && e.node == s.chans[t].node && e.sent == s.chans[t].sent
    && (t !in s.dest ==> e.chan.topicOut == s.chans[t].chan.topicOut)
    && u.chans == s.chans[t := e] && u.dest == s.dest && u.answer == s.answer
    && (u.queues == s.queues || (Queue(s.queues, t) != [] && u.queues == s.queues[t := s.queues[t][1..]]))
    && u.nodes.Keys == s.nodes.Keys && (forall n | n in s.nodes :: u.nodes[n].listen == s.nodes[n].listen)
  }

  lemma ChangeClient(s: Net, u: Net, t: Topic, e: Entry, x: Topic)
    requires Changes(s, u, t, e) && x in s.dest && x in s.chans && ClientOk(s, x) && x != t
    ensures ClientOk(u, x)
  {
  }

  lemma ChangeServer(s: Net, u: Net, t: Topic, e: Entry, y: Topic)
    requires Changes(s, u, t, e) && y in s.chans && ServerOk(s, y) && y != t
    ensures ServerOk(u, y)
  {
  }

  lemma RequestsSame(s: Net, u: Net, a: Topic)
    requires Requests(s, a) && Queue(u.queues, a) == Queue(s.queues, a) && u.dest == s.dest && u.answer == s.answer
    ensures Requests(u, a)
  {
    var q := Queue(s.queues, a);
    forall i | 0 <= i < |q| ensures Waiting(u, q[i], a) { assert Waiting(s, q[i], a); }
  }

  lemma ChangeKeepsFlows(s: Net, u: Net, t: Topic, e: Entry)
    requires Flows(s) && Changes(s, u, t, e)
    requires if t in s.dest then ClientOk(u, t) else ServerOk(u, t)
    ensures Flows(u)
  {
    forall x | x in u.dest ensures ClientOk(u, x) { if x != t { ChangeClient(s, u, t, e, x); } }
    forall y | y in u.chans && y !in u.dest ensures ServerOk(u, y) { if y != t { ChangeServer(s, u, t, e, y); } }
    forall a | a in u.queues && a !in u.chans ensures Requests(u, a) { RequestsSame(s, u, a); }
  }

  /** What arrives for a channel: it is dropped if the channel is closed, names the partner if the
      channel waits for one, and is handed up otherwise. */
  function AfterDelivery(e: Entry, m: string): Entry {
    if !e.live then e
    else if !e.chan.connected then
      e.(chan := e.chan.(topicOut := Some(m), connected := true), announced := e.announced + 1)
    else e.(got := e.got + if m == "" then [] else [CString(m)])
  }

  lemma DeliveryKeepsItsFlow(s: Net, u: Net, t: Topic, e: Entry)
    requires t in s.chans && (if t in s.dest then ClientOk(s, t) else ServerOk(s, t))
    requires Queue(s.queues, t) != [] && u.queues == s.queues[t := s.queues[t][1..]]
    requires e == AfterDelivery(s.chans[t], s.queues[t][0]) && Changes(s, u, t, e)
    ensures if t in s.dest then ClientOk(u, t) else ServerOk(u, t)
  {
    HeardCons(s.queues[t]);
  }

  /** A message for a topic other than the listen topic belongs to a channel of this process. */
  lemma HearsOwnChannel(s: Net, n: NodeId, t: Topic)
    requires Structure(s.nodes, s.chans) && n in s.nodes && t in s.nodes[n].subs && t != s.nodes[n].listen
    ensures Owned(s.chans, t, n) && Located(s.nodes, t, s.chans[t]) && Owner(n, s.nodes[n], s.chans)
  {
    assert Owner(n, s.nodes[n], s.chans);
    assert Owned(s.chans, t, n);
  }

  /** A channel that is not connected yet first hears a name that fits. */
  lemma FirstMessageFits(s: Net, t: Topic)
    requires Inv(s) && t in s.chans && s.chans[t].live && !s.chans[t].chan.connected && Queue(s.queues, t) != []
    ensures var m := s.queues[t][0]; m != "" && CopyN(m, TOPIC_SIZE) == m
  {
    assert t !in s.dest ==> ServerOk(s, t);
    assert ClientOk(s, t);
    var y := s.answer[t];
    assert Located(s.nodes, y, s.chans[y]);
    NamesFit(y);
  }

  /** The node's view of one message for one of its channels. */
  lemma OneMessage(nd: Node, e: Entry, t: Topic, m: string, name: string)
    requires t != nd.listen && e.chan.topicIn == t
    requires if e.live then t in nd.topics && nd.topics[t] == e.chan.fd
                            && e.chan.fd in nd.conns && nd.conns[e.chan.fd] == e.chan
             else t !in nd.topics
    requires e.live && !e.chan.connected ==> m != "" && CopyN(m, TOPIC_SIZE) == m
    ensures var o, d := OnMessage(nd, t, m, name, true), AfterDelivery(e, m);
            && o.published == None
            && o.node == (if e.live then Rewired(nd, d.chan) else nd)
            && o.upcall == (if !e.live || (e.chan.connected && m == "") then None
                            else if e.chan.connected then Some(OnData(e.chan.fd, CString(m)))
                            else Some(OnConnect(e.chan.fd)))
  {
    if e.live { assert nd.conns == nd.conns[e.chan.fd := e.chan]; }
  }

  predicate Hearing(s: Net, n: NodeId, t: Topic, name: string) {
    && Possible(s, Deliver(n, t, name)) && t != s.nodes[n].listen
    && Owned(s.chans, t, n) && Located(s.nodes, t, s.chans[t])
    && var e := s.chans[t];
       e.live && !e.chan.connected ==> s.queues[t][0] != "" && CopyN(s.queues[t][0], TOPIC_SIZE) == s.queues[t][0]
  }

  lemma DeliverOnChannel(s: Net, n: NodeId, t: Topic, name: string)
    requires Hearing(s, n, t, name)
    ensures var u, e := Next(s, Deliver(n, t, name)), AfterDelivery(s.chans[t], s.queues[t][0]);
            && u == s.(nodes := u.nodes, chans := s.chans[t := e], queues := s.queues[t := s.queues[t][1..]])
            && u.nodes == if e.live then s.nodes[n := Rewired(s.nodes[n], e.chan)] else s.nodes
  {
    var e := s.chans[t];
    OneMessage(s.nodes[n], e, t, s.queues[t][0], name);
    assert e.got + [] == e.got;
    assert s.nodes[n := s.nodes[n]] == s.nodes && s.chans[t := e] == s.chans;
  }

  lemma ChannelStepKeepsStructure(s: Net, u: Net, t: Topic, d: Entry)
    requires Structure(s.nodes, s.chans) && t in s.chans && Queue(s.queues, t) != []
    requires d == AfterDelivery(s.chans[t], s.queues[t][0])
    requires Located(s.nodes, t, s.chans[t]) && u.chans == s.chans[t := d]
    requires u.nodes == if d.live then s.nodes[d.node := Rewired(s.nodes[d.node], d.chan)] else s.nodes
    ensures Structure(u.nodes, u.chans)
  {
    if d.live {
      UpdateKeepsStructure(s.nodes, s.chans, t, d);
    } else {
      assert s.chans[t := d] == s.chans;
    }
  }

  lemma ChannelStepKeepsFlows(s: Net, u: Net, t: Topic, d: Entry)
    requires Flows(s) && t in s.chans && Queue(s.queues, t) != [] && d == AfterDelivery(s.chans[t], s.queues[t][0])
    requires u == s.(nodes := u.nodes, chans := s.chans[t := d], queues := s.queues[t := s.queues[t][1..]])
    requires u.nodes.Keys == s.nodes.Keys && forall n | n in s.nodes :: u.nodes[n].listen == s.nodes[n].listen
    ensures Flows(u)
  {
    assert if t in s.dest then ClientOk(s, t) else ServerOk(s, t);
    DeliveryKeepsItsFlow(s, u, t, d);
    ChangeKeepsFlows(s, u, t, d);
  }

  lemma DeliverKeepsStructure(s: Net, n: NodeId, t: Topic, name: string)
    requires Structure(s.nodes, s.chans) && Hearing(s, n, t, name)
    ensures Structure(Next(s, Deliver(n, t, name)).nodes, Next(s, Deliver(n, t, name)).chans)
  {
    DeliverOnChannel(s, n, t, name);
    ChannelStepKeepsStructure(s, Next(s, Deliver(n, t, name)), t, AfterDelivery(s.chans[t], s.queues[t][0]));
  }

  lemma DeliverKeepsFlows(s: Net, n: NodeId, t: Topic, name: string)
    requires Flows(s) && Hearing(s, n, t, name)
    ensures Flows(Next(s, Deliver(n, t, name)))
  {
    DeliverOnChannel(s, n, t, name);
    ChannelStepKeepsFlows(s, Next(s, Deliver(n, t, name)), t, AfterDelivery(s.chans[t], s.queues[t][0]));
  }

  lemma DeliverKeepsInv(s: Net, n: NodeId, t: Topic, name: string)
    requires Inv(s) && Possible(s, Deliver(n, t, name)) && t != s.nodes[n].listen
    ensures Inv(Next(s, Deliver(n, t, name)))
  {
    HearsOwnChannel(s, n, t);
    if s.chans[t].live && !s.chans[t].chan.connected { FirstMessageFits(s, t); }
    DeliverKeepsStructure(s, n, t, name);
    DeliverKeepsFlows(s, n, t, name);
  }

  lemma CloseKeepsFlows(s: Net, u: Net, t: Topic)
    requires Flows(s) && t in s.chans && u == s.(nodes := u.nodes, chans := s.chans[t := s.chans[t].(live := false)])
    requires u.nodes.Keys == s.nodes.Keys && forall n | n in s.nodes :: u.nodes[n].listen == s.nodes[n].listen
    ensures Flows(u)
  {
    assert if t in s.dest then ClientOk(s, t) else ServerOk(s, t);
    ChangeKeepsFlows(s, u, t, s.chans[t].(live := false));
  }

  predicate Held(s: Net, n: NodeId, conn: int) {
    && n in s.nodes && conn in s.nodes[n].conns
    && var c := s.nodes[n].conns[conn];
       Owned(s.chans, c.topicIn, n) && s.chans[c.topicIn].live && s.chans[c.topicIn].chan == c && c.fd == conn
  }

  lemma CloseStepKeepsStructure(s: Net, n: NodeId, conn: int)
    requires Structure(s.nodes, s.chans) && Held(s, n, conn)
    ensures Structure(Next(s, DoClose(n, conn)).nodes, Next(s, DoClose(n, conn)).chans)
  {
    CloseKeepsStructure(s.nodes, s.chans, s.nodes[n].conns[conn].topicIn);
  }

  lemma CloseStepKeepsFlows(s: Net, n: NodeId, conn: int)
    requires Flows(s) && Held(s, n, conn)
    ensures Flows(Next(s, DoClose(n, conn)))
  {
    CloseKeepsFlows(s, Next(s, DoClose(n, conn)), s.nodes[n].conns[conn].topicIn);
  }

  lemma CloseKeepsInv(s: Net, n: NodeId, conn: int)
    requires Inv(s) && Possible(s, DoClose(n, conn))
    ensures Inv(Next(s, DoClose(n, conn)))
  {
    if conn in s.nodes[n].conns {
      HeldIsLocated(s, n, conn);
      CloseStepKeepsStructure(s, n, conn);
      CloseStepKeepsFlows(s, n, conn);
    }
  }

  /** An open connection of a process is an open channel of the network. */
  lemma HeldIsLocated(s: Net, n: NodeId, conn: int)
    requires Structure(s.nodes, s.chans) && n in s.nodes && conn in s.nodes[n].conns
    ensures Held(s, n, conn)
  {
    assert Owner(n, s.nodes[n], s.chans);
    var t := s.nodes[n].conns[conn].topicIn;
    assert t in s.nodes[n].topics && Owned(s.chans, t, n);
    assert Located(s.nodes, t, s.chans[t]);
  }

  // ---------- Sending ----------

  predicate Sends(s: Net, u: Net, t: Topic, p: Topic, data: string) {
    && t in s.chans && s.chans[t].chan.topicOut == Some(p)
    && u == s.(queues := Push(s.queues, Publication(p, data)),
               chans := s.chans[t := s.chans[t].(sent := s.chans[t].sent + [data])])
  }

  lemma FlowGrows(e: Entry, q: seq<string>, sent: seq<string>, data: string)
    requires Flow(e, q, sent)
    ensures Flow(e, q + [data], sent + [data])
  {
    HeardSnoc(sent, data);
    HeardSnoc(q, data);
  }

  lemma QueueGrows(q: seq<string>, sent: seq<string>, data: string)
    requires q != [] && Heard(q[1..]) == Heard(sent)
    ensures Heard((q + [data])[1..]) == Heard(sent + [data])
  {
    HeardSnoc(sent, data);
    HeardSnoc(q[1..], data);
    assert (q + [data])[1..] == q[1..] + [data];
  }

  lemma SendToClient(s: Net, u: Net, t: Topic, p: Topic, data: string)
    requires Sends(s, u, t, p, data) && t !in s.dest && ServerOk(s, t) && ClientOk(s, p)
    ensures ClientOk(u, p)
  {
    var q := Queue(s.queues, p);
    if s.chans[p].chan.connected {
      FlowGrows(s.chans[p], q, s.chans[t].sent, data);
    } else if s.chans[p].live {
      QueueGrows(q, s.chans[t].sent, data);
    }
  }

  lemma SendPastClient(s: Net, u: Net, t: Topic, p: Topic, data: string, x: Topic)
    requires Sends(s, u, t, p, data) && x in s.dest && x in s.chans && ClientOk(s, x) && x != p
    ensures ClientOk(u, x)
  {
  }

  lemma SendServer(s: Net, u: Net, t: Topic, p: Topic, data: string, y: Topic)
    requires Sends(s, u, t, p, data) && y in s.chans && ServerOk(s, y) && y !in s.dest
    requires if t in s.dest then ClientOk(s, t) else ServerOk(s, t)
    ensures ServerOk(u, y)
  {
    if y == p {
      FlowGrows(s.chans[y], Queue(s.queues, y), s.chans[t].sent, data);
    }
  }

  lemma SendKeepsFlows(s: Net, u: Net, t: Topic, p: Topic, data: string)
    requires Flows(s) && Sends(s, u, t, p, data)
    ensures Flows(u)
  {
    assert if t in s.dest then ClientOk(s, t) else ServerOk(s, t);
    forall x | x in u.dest ensures ClientOk(u, x) {
      if x == p { SendToClient(s, u, t, p, data); } else { SendPastClient(s, u, t, p, data, x); }
    }
    forall y | y in u.chans && y !in u.dest ensures ServerOk(u, y) { SendServer(s, u, t, p, data, y); }
    forall a | a in u.queues && a !in u.chans ensures Requests(u, a) { RequestsSame(s, u, a); }
  }

  lemma SendKeepsInv(s: Net, n: NodeId, conn: int, data: string)
    requires Inv(s) && Possible(s, DoSend(n, conn, data))
    ensures Inv(Next(s, DoSend(n, conn, data)))
  {
    var p := Send(s.nodes[n], conn, data);
    if p.Some? {
      HeldIsLocated(s, n, conn);
      var t := s.nodes[n].conns[conn].topicIn;
      NoteKeepsStructure(s.nodes, s.chans, t, s.chans[t].(sent := s.chans[t].sent + [data]));
      SendKeepsFlows(s, Next(s, DoSend(n, conn, data)), t, p.value.topic, data);
    }
  }

  // ---------- Whole runs ----------

  lemma StepKeepsInv(s: Net, act: Action)
    requires Inv(s) && Possible(s, act)
    ensures Inv(Next(s, act))
  {
    match act
    case DoConnect(n, addr, name) => ConnectKeepsInv(s, n, addr, name);
    case Deliver(n, t, name) =>
      if t == s.nodes[n].listen { AcceptKeepsInv(s, n, name); } else { DeliverKeepsInv(s, n, t, name); }
    case DoSend(n, conn, data) => SendKeepsInv(s, n, conn, data);
    case DoClose(n, conn) => CloseKeepsInv(s, n, conn);
  }

  lemma InitialInv(s: Net)
    requires Initial(s)
    ensures Inv(s)
  {
    forall n | n in s.nodes ensures Owner(n, s.nodes[n], s.chans) {
      assert s.nodes[n] == Node(s.nodes[n].listen, 0, map[], map[], {s.nodes[n].listen});
    }
  }

  lemma {:induction false} RunKeepsInv(s: Net, acts: seq<Action>, u: Net)
    requires Inv(s) && Run(s, acts, u)
    ensures Inv(u)
    decreases acts
  {
    if acts != [] {
      StepKeepsInv(s, acts[0]);
      RunKeepsInv(Next(s, acts[0]), acts[1..], u);
    }
  }

  /** However many channels connect, send and close, in any interleaving: the two tables of every
      process agree, and every channel it holds is connected at most once and announced as often. */
  lemma TablesAlwaysAgree(s: Net, acts: seq<Action>, u: Net, n: NodeId, conn: int)
    requires Initial(s) && Run(s, acts, u) && n in u.nodes && conn in u.nodes[n].conns
    ensures Agree(u.nodes[n])
    ensures var c := u.nodes[n].conns[conn];
            c.topicIn in u.chans && u.chans[c.topicIn].announced == if c.connected then 1 else 0
  {
    InitialInv(s);
    RunKeepsInv(s, acts, u);
    HeldIsLocated(u, n, conn);
    assert Owner(n, u.nodes[n], u.chans);
    var t := u.nodes[n].conns[conn].topicIn;
    assert if t in u.dest then ClientOk(u, t) else ServerOk(u, t);
  }

  /** Every connected client channel has exactly one server channel, whose topics are its own
      swapped, on the process that listens on the address it asked for. */
  lemma CrossLinked(s: Net, acts: seq<Action>, u: Net, x: Topic) returns (y: Topic)
    requires Initial(s) && Run(s, acts, u) && x in u.chans && x in u.dest && u.chans[x].chan.connected
    ensures y in u.chans && y !in u.dest && u.chans[y].chan.connected
    ensures u.chans[y].chan.topicIn == y && u.chans[x].chan.topicIn == x
    ensures u.chans[y].chan.topicOut == Some(x) && u.chans[x].chan.topicOut == Some(y)
    ensures u.chans[y].node in u.nodes && u.nodes[u.chans[y].node].listen == u.dest[x]
    ensures forall z | z in u.chans && u.chans[z].chan.topicOut == Some(x) :: z == y
  {
    InitialInv(s);
    RunKeepsInv(s, acts, u);
    assert ClientOk(u, x);
    y := u.answer[x];
    assert ServerOk(u, y) && Located(u.nodes, x, u.chans[x]) && Located(u.nodes, y, u.chans[y]);
    forall z | z in u.chans && u.chans[z].chan.topicOut == Some(x) ensures z == y {
      assert if z in u.dest then ClientOk(u, z) else ServerOk(u, z);
    }
  }

  /** A server channel belongs to one connecting channel, and no two to the same one. */
  lemma ServersAreNotShared(s: Net, acts: seq<Action>, u: Net, y: Topic, z: Topic)
    requires Initial(s) && Run(s, acts, u)
    requires y in u.chans && z in u.chans && y !in u.dest && z !in u.dest && y != z
    ensures u.chans[y].chan.topicOut.Some? && u.chans[y].chan.topicOut.value in u.dest
    ensures u.chans[y].chan.topicOut != u.chans[z].chan.topicOut
  {
    InitialInv(s);
    RunKeepsInv(s, acts, u);
    assert ServerOk(u, y) && ServerOk(u, z);
  }

  /** What is handed up on a channel was sent on its partner, in order and once; on an open
      channel the rest is on its way. */
  lemma OnlyThePartnerIsHeard(s: Net, acts: seq<Action>, u: Net, t: Topic)
    requires Initial(s) && Run(s, acts, u) && t in u.chans
    ensures u.chans[t].got != [] ==> u.chans[t].chan.connected
    ensures u.chans[t].chan.connected ==>
              && u.chans[t].chan.topicOut.Some? && u.chans[t].chan.topicOut.value in u.chans
              && var partner := u.chans[u.chans[t].chan.topicOut.value];
                 && u.chans[t].got <= Heard(partner.sent)
                 && (u.chans[t].live ==> u.chans[t].got + Heard(Queue(u.queues, t)) == Heard(partner.sent))
  {
    InitialInv(s);
    RunKeepsInv(s, acts, u);
    assert if t in u.dest then ClientOk(u, t) else ServerOk(u, t);
  }

  /** Nothing waits for a process that hears its topic. */
  predicate Quiet(u: Net) {
    forall n, t | n in u.nodes && t in u.nodes[n].subs :: Queue(u.queues, t) == []
  }

  lemma HeardAll(e: Entry, partnerSent: seq<string>)
    requires Flow(e, [], partnerSent) && e.live
    ensures e.got == Heard(partnerSent)
  {
    assert e.got + [] == e.got;
  }

  /** An open channel with nothing in flight, neither to it nor to the address it asked for. */
  lemma QuietClient(u: Net, x: Topic)
    requires x in u.dest && x in u.chans && ClientOk(u, x) && u.chans[x].live
    requires Queue(u.queues, x) == [] && Queue(u.queues, u.dest[x]) == []
    ensures x in u.answer && u.chans[x].chan.connected && u.chans[x].announced == 1
    ensures var y := u.answer[x];
            && y in u.chans && y !in u.dest && u.chans[x].chan.topicOut == Some(y)
            && u.chans[x].got == Heard(u.chans[y].sent)
  {
    if u.chans[x].chan.connected { HeardAll(u.chans[x], u.chans[u.answer[x]].sent); }
  }

  lemma QuietOwner(u: Net, t: Topic)
    requires Quiet(u) && t in u.chans && Located(u.nodes, t, u.chans[t])
    ensures Queue(u.queues, t) == []
  {
  }

  /** Once everything in flight has arrived, every open channel that asked for an address somebody
      listens on is connected, and open channels have heard all their partner said. */
  lemma QuietMeansConnected(s: Net, acts: seq<Action>, u: Net, x: Topic, n: NodeId)
    requires Initial(s) && Run(s, acts, u) && Quiet(u)
    requires x in u.chans && x in u.dest && u.chans[x].live && n in u.nodes && u.nodes[n].listen == u.dest[x]
    ensures u.chans[x].chan.connected && u.chans[x].announced == 1
    ensures u.chans[x].chan.topicOut.Some?
    ensures var y := u.chans[x].chan.topicOut.value;
            && y in u.chans && u.chans[y].node == n
            && u.chans[x].got == Heard(u.chans[y].sent)
            && (u.chans[y].live ==> u.chans[y].got == Heard(u.chans[x].sent))
  {
    InitialInv(s);
    RunKeepsInv(s, acts, u);
    assert Owner(n, u.nodes[n], u.chans) && Queue(u.queues, u.nodes[n].listen) == [];
    QuietOwner(u, x);
    QuietClient(u, x);
    var y := u.answer[x];
    assert ServerOk(u, y) && u.nodes[u.chans[y].node].listen == u.nodes[n].listen;
    QuietOwner(u, y);
    if u.chans[y].live { HeardAll(u.chans[y], u.chans[x].sent); }
  }

  lemma {:induction false} MessagesAreHeardWhole(ms: seq<string>)
    requires forall m | m in ms :: m != "" && NoNul(m)
    ensures Heard(ms) == ms
    decreases |ms|
  {
    if ms != [] {
      var ms0, m := ms[..|ms| - 1], ms[|ms| - 1];
      assert m in ms && forall x | x in ms0 :: x in ms;
      MessagesAreHeardWhole(ms0);
      CStringWhole(m);
    }
  }

  /** Messages of cores over the bridge: the framer fed with what a channel hands up yields the
      messages its partner sent, those that have arrived, one by one and in order. */
  lemma MessagesCrossTheBridge(s: Net, acts: seq<Action>, u: Net, t: Topic, p: Topic)
    requires Initial(s) && Run(s, acts, u) && t in u.chans && u.chans[t].chan.connected
    requires u.chans[t].chan.topicOut == Some(p) && p in u.chans
    requires forall m | m in u.chans[p].sent :: Framer.IsFrame(m) && NoNul(m)
    ensures |u.chans[t].got| <= |u.chans[p].sent|
    ensures Framer.Feed(Framer.FRESH, Framer.Join(u.chans[t].got))
         == Framer.Scan(Framer.OUTSIDE, "", u.chans[p].sent[..|u.chans[t].got|])
  {
    OnlyThePartnerIsHeard(s, acts, u, t);
    MessagesAreHeardWhole(u.chans[p].sent);
    var frames := u.chans[p].sent[..|u.chans[t].got|];
    assert u.chans[t].got == frames;
    assert forall f | f in frames :: f in u.chans[p].sent;
    Framer.FramesBackToBack([], frames);
    assert [] + frames == frames;
  }
}
