/** The MQTT bridge of modules/com_modules/mqtt_bridge/com_mqtt_bridge.c on one process: the
    channels it keeps, the two tables that lead to them, and its callbacks. */
module MqttBridge {
  import opened CFormat

  type Topic = string

  const TOPIC_SIZE: nat := 10

  datatype Chan = Chan(fd: int, topicIn: Topic, topicOut: Option<Topic>, connected: bool)

  /** The state of one process: the topic it listens on, the connection counter, the channels by
      connection number, the connection number by incoming topic, and what it subscribed to. */
  datatype Node = Node(listen: Topic, counter: nat, conns: map<int, Chan>, topics: map<Topic, int>, subs: set<Topic>)

  datatype Publication = Publication(topic: Topic, payload: string)

  datatype Upcall = OnConnect(fd: int) | OnData(fd: int, data: string)

  datatype Outcome = Outcome(node: Node, published: Option<Publication>, upcall: Option<Upcall>)

  function Register(n: Node, c: Chan): Node
    requires c.fd >= 0
  {
    n.(counter := c.fd, conns := n.conns[c.fd := c], topics := n.topics[c.topicIn := c.fd],
       subs := n.subs + {c.topicIn})
  }

  function Free(n: Node, c: Chan): Node {
    n.(conns := n.conns - {c.fd}, topics := n.topics - {c.topicIn})
  }

  /** com_connect: `name` is the random topic, `ok` whether publishing succeeds. */
  function Connect(n: Node, addr: Topic, name: string, ok: bool): (Node, int) {
    var c := Chan(n.counter + 1, name, None, false);
    if ok then (Register(n, c), c.fd) else (Free(Register(n, c), c), -1)
  }

  /** A request on the listen topic: its payload is the topic the other side waits on. */
  function Accept(n: Node, payload: string, name: string, ok: bool): Outcome {
    var c := Chan(n.counter + 1, CopyN(name, 5), Some(CopyN(payload, TOPIC_SIZE)), true);
    Outcome(Register(n, c), Some(Publication(CopyN(payload, TOPIC_SIZE), c.topicIn)),
            if ok then Some(OnConnect(c.fd)) else None)
  }

  /** message_callback; an empty payload arrives as a null pointer. */
  function OnMessage(n: Node, topic: Topic, payload: string, name: string, ok: bool): (o: Outcome)
    ensures o.upcall.Some? ==> o.upcall.value.fd in o.node.conns
    ensures o.published.Some? ==> o.node.counter in o.node.conns
  {
    if topic == n.listen then Accept(n, payload, name, ok)
    else if topic !in n.topics || n.topics[topic] !in n.conns then Outcome(n, None, None)
    else
      var fd := n.topics[topic];
      var c := n.conns[fd];
      if !c.connected then
        var d := if payload == "" then c else c.(topicOut := Some(CopyN(payload, TOPIC_SIZE)), connected := true);
        Outcome(n.(conns := n.conns[fd := d]), None, Some(OnConnect(fd)))
      else Outcome(n, None, if payload == "" then None else Some(OnData(fd, CString(payload))))
  }

  /** com_send: what is handed to the broker, if anything. */
  function Send(n: Node, conn: int, data: string): Option<Publication> {
    if conn in n.conns && n.conns[conn].topicOut.Some?
    then Some(Publication(n.conns[conn].topicOut.value, data)) else None
  }

  /** com_connection_close */
  function Close(n: Node, conn: int): (Node, int) {
    if conn in n.conns then (Free(n, n.conns[conn]), 0) else (n, -1)
  }

  // ---------- The two tables ----------

  /** No table leads to a freed channel, and connection numbers are not reused. */
  predicate Sane(n: Node) {
    && (forall fd | fd in n.conns :: n.conns[fd].fd == fd && fd <= n.counter)
    && (forall t | t in n.topics :: n.topics[t] in n.conns && n.conns[n.topics[t]].topicIn == t)
  }

  /** The two tables lead to the same channels. */
  predicate Agree(n: Node) {
    Sane(n) && forall fd | fd in n.conns :: n.conns[fd].topicIn in n.topics && n.topics[n.conns[fd].topicIn] == fd
  }

  lemma RegisterKeepsAgreeIff(n: Node, c: Chan)
    requires Agree(n) && c.fd == n.counter + 1
    ensures Sane(Register(n, c))
    ensures Agree(Register(n, c)) <==> c.topicIn !in n.topics
  {
    var m := Register(n, c);
    if c.topicIn in n.topics {
      var fd := n.topics[c.topicIn];
      assert fd in m.conns && m.conns[fd].topicIn == c.topicIn && m.topics[c.topicIn] != fd;
    }
  }

  lemma FreeKeepsAgree(n: Node, c: Chan)
    requires Agree(n) && c.fd in n.conns && n.conns[c.fd] == c
    ensures Agree(Free(n, c))
  {
  }

  /** A connect keeps the tables in agreement if and only if its topic is not that of an open
      channel; a failed one with a topic in use leaves that channel unreachable. */
  lemma ConnectKeepsTablesIff(n: Node, addr: Topic, name: string, ok: bool)
    requires Agree(n)
    ensures Agree(Connect(n, addr, name, ok).0) <==> name !in n.topics
  {
    var c := Chan(n.counter + 1, name, None, false);
    RegisterKeepsAgreeIff(n, c);
    if name in n.topics {
      assert n.topics[name] in n.conns && n.conns[n.topics[name]].topicIn == name;
      assert n.topics[name] in Free(Register(n, c), c).conns;
    } else {
      FreeKeepsAgree(Register(n, c), c);
    }
  }

  /** A connect takes the next number and subscribes to its topic. If publishing succeeds, the
      channel waits unconnected under both keys; if not, the result is -1 and no channel is left. */
  lemma ConnectOpensOrLeavesNothing(n: Node, addr: Topic, name: string, ok: bool)
    ensures var (m, result) := Connect(n, addr, name, ok);
            && m.listen == n.listen && m.counter == n.counter + 1 && m.subs == n.subs + {name}
            && (ok ==> && result == m.counter
                       && m.conns == n.conns[result := Chan(result, name, None, false)]
                       && m.topics == n.topics[name := result])
            && (!ok ==> result == -1 && m.conns == n.conns - {m.counter} && m.topics == n.topics - {name})
  {
  }

  /** A message keeps them so if and only if it opens no channel, or one with an unused topic. */
  lemma MessageKeepsTablesIff(n: Node, topic: Topic, payload: string, name: string, ok: bool)
    requires Agree(n)
    ensures Agree(OnMessage(n, topic, payload, name, ok).node) <==> (topic != n.listen || CopyN(name, 5) !in n.topics)
  {
    if topic == n.listen {
      RegisterKeepsAgreeIff(n, Chan(n.counter + 1, CopyN(name, 5), Some(CopyN(payload, TOPIC_SIZE)), true));
    }
  }

  lemma CloseKeepsTables(n: Node, conn: int)
    requires Agree(n)
    ensures Agree(Close(n, conn).0) && conn !in Close(n, conn).0.conns
    ensures Close(n, conn).1 == if conn in n.conns then 0 else -1
    ensures forall fd | fd != conn :: (fd in Close(n, conn).0.conns <==> fd in n.conns)
                                      && (fd in n.conns ==> Close(n, conn).0.conns[fd] == n.conns[fd])
  {
    if conn in n.conns { FreeKeepsAgree(n, n.conns[conn]); }
  }

  lemma Cut(s: string, size: nat)
    requires NoNul(s)
    ensures CopyN(s, size) == if size < |s| then s[..size] else s
  {
    CStringWhole(if size < |s| then s[..size] else s);
  }

  /** What a request on the listen topic leads to, if nothing holds a NUL: a connected channel with the
      next number, the first five characters of the random name as its topic and the first ten of the
      payload as its partner's, which is told the new topic. The core hears of it only if that was
      published. */
  lemma RequestIsAnswered(n: Node, payload: string, name: string, ok: bool)
    requires |name| >= 5 && NoNul(name) && NoNul(payload)
    ensures var o, fd := OnMessage(n, n.listen, payload, name, ok), n.counter + 1;
            var out := if |payload| > 10 then payload[..10] else payload;
            && o.node == Node(n.listen, fd, n.conns[fd := Chan(fd, name[..5], Some(out), true)],
                              n.topics[name[..5] := fd], n.subs + {name[..5]})
            && o.published == Some(Publication(out, name[..5]))
            && o.upcall == if ok then Some(OnConnect(fd)) else None
  {
    Cut(payload, 10);
    Cut(name, 5);
    assert name[..|name|] == name;
  }

  /** What a message on any other topic leads to: nothing, if no channel waits there. An unconnected
      channel takes a payload as its partner's topic, and the core is told it is connected even if
      there was none; a connected one hands a payload up, as far as its first NUL. */
  lemma MessageOnChannel(n: Node, topic: Topic, payload: string, name: string, ok: bool)
    requires Sane(n) && topic != n.listen
    ensures var o := OnMessage(n, topic, payload, name, ok);
            && o.published == None
            && if topic !in n.topics then o.node == n && o.upcall == None
               else
                 var fd := n.topics[topic];
                 var c, d := n.conns[fd], o.node.conns[fd];
                 && o.node == n.(conns := n.conns[fd := d])
                 && if c.connected
                    then d == c && o.upcall == if |payload| == 0 then None else Some(OnData(fd, CString(payload)))
                    else o.upcall == Some(OnConnect(fd)) && d.connected == (|payload| > 0)
                         && d.fd == fd && d.topicIn == topic
                         && (|payload| == 0 ==> d == c)
                         && (|payload| > 0 && NoNul(payload) ==>
                               d.topicOut == Some(if |payload| > 10 then payload[..10] else payload))
  {
    if NoNul(payload) { Cut(payload, 10); }
    if topic in n.topics && n.conns[n.topics[topic]].connected {
      assert n.conns[n.topics[topic] := n.conns[n.topics[topic]]] == n.conns;
    }
  }

  /** A send publishes the data as it is, on the partner's topic of any open channel that has one. */
  lemma SentAsItIs(n: Node, conn: int, data: string)
    ensures Send(n, conn, data) ==
            if exists c :: conn in n.conns && n.conns[conn] == c && c.topicOut.Some?
            then Some(Publication(n.conns[conn].topicOut.value, data)) else None
  {
  }

  // ---------- The objects ----------

  class Channel {
    const fd: int
    const topicIn: Topic
    var topicOut: Option<Topic>
    var connected: bool

    constructor (fd: int, topicIn: Topic, topicOut: Option<Topic>)
      ensures this.fd == fd && this.topicIn == topicIn && this.topicOut == topicOut && !connected
    {
      this.fd, this.topicIn, this.topicOut, connected := fd, topicIn, topicOut, false;
    }

    function View(): Chan
      reads this
    {
      Chan(fd, topicIn, topicOut, connected)
    }
  }

  class Bridge {
    var thistopic: Topic
    var connCounter: nat
    var connTable: map<int, Channel>
    var topicInTable: map<Topic, Channel>
    var subscriptions: set<Topic>

    ghost function Channels(): set<Channel>
      reads this
    {
      set fd | fd in connTable :: connTable[fd]
    }

    /** Both tables hold each channel under its own number and topic; nothing freed is reachable. */
    ghost predicate Valid()
      reads this, Channels()
    {
      && (forall fd | fd in connTable :: connTable[fd].fd == fd && fd <= connCounter)
      && (forall t | t in topicInTable :: topicInTable[t].topicIn == t
            && topicInTable[t].fd in connTable && connTable[topicInTable[t].fd] == topicInTable[t])
    }

    ghost function View(): Node
      reads this, Channels()
    {
      Node(thistopic, connCounter, map fd | fd in connTable :: connTable[fd].View(),
           map t | t in topicInTable :: topicInTable[t].fd, subscriptions)
    }

    /** com_init with a topic */
    constructor (topic: Topic)
      ensures Valid() && View() == Node(topic, 0, map[], map[], {topic})
    {
      thistopic, connCounter, connTable, topicInTable, subscriptions := topic, 0, map[], map[], {topic};
    }

    method ChannelNew(topicIn: Topic, topicOut: Option<Topic>) returns (c: Channel)
      requires Valid()
      modifies this`connCounter, this`subscriptions
      ensures fresh(c) && c.View() == Chan(old(connCounter) + 1, topicIn, topicOut, false)
      ensures Valid() && View() == old(View()).(counter := old(connCounter) + 1, subs := old(subscriptions) + {topicIn})
    {
      connCounter := connCounter + 1;
      c := new Channel(connCounter, topicIn, topicOut);
      subscriptions := subscriptions + {topicIn};
    }

    /** The two map_update calls that follow channel_new. */
    method Record(c: Channel)
      requires Valid() && c.fd !in connTable && c.fd <= connCounter
      modifies this`connTable, this`topicInTable
      ensures Valid() && connTable == old(connTable)[c.fd := c]
      ensures View() == old(View()).(conns := old(View()).conns[c.fd := c.View()],
                                     topics := old(View()).topics[c.topicIn := c.fd])
    {
      connTable := connTable[c.fd := c];
      topicInTable := topicInTable[c.topicIn := c];
      assert View().conns == old(View()).conns[c.fd := c.View()];
    }

    method ChannelFree(c: Channel)
      requires Valid() && c in Channels()
      modifies this`connTable, this`topicInTable
      ensures Valid() && View() == Free(old(View()), old(c.View()))
    {
      connTable := connTable - {c.fd};
      topicInTable := topicInTable - {c.topicIn};
    }

    method ComConnect(topic: Topic, name: string, ok: bool) returns (result: int, published: Publication)
      requires Valid()
      modifies this
      ensures Valid() && (View(), result) == Connect(old(View()), topic, name, ok)
      ensures published == Publication(topic, name)
    {
      var c := ChannelNew(name, None);
      Record(c);
      assert View() == Register(old(View()), c.View());
      published := Publication(topic, name);
      if ok {
        result := c.fd;
      } else {
        assert connTable[c.fd] == c;
        ChannelFree(c);
        result := -1;
      }
    }

    /** message_callback on the listen topic: a new channel answers the request. */
    method AcceptRequest(payload: string, name: string, ok: bool)
      returns (published: Publication, upcall: Option<Upcall>)
      requires Valid() && payload != ""
      modifies this
      ensures Valid() && Outcome(View(), Some(published), upcall) == Accept(old(View()), payload, name, ok)
    {
      var newTopicIn, newTopicOut := CopyN(name, 5), CopyN(payload, TOPIC_SIZE);
      var c := ChannelNew(newTopicIn, Some(newTopicOut));
      c.connected := true;
      Record(c);
      published := Publication(newTopicOut, newTopicIn);
      upcall := if ok then Some(OnConnect(c.fd)) else None;
    }

    /** message_callback on a channel's own topic, before it is connected. */
    method FinishConnect(c: Channel, payload: string)
      requires Valid() && c in Channels()
      modifies c
      ensures Valid() && c.View() == if payload == "" then old(c.View())
                                     else old(c.View()).(topicOut := Some(CopyN(payload, TOPIC_SIZE)),
                                                         connected := true)
      ensures View() == old(View()).(conns := old(View()).conns[c.fd := c.View()])
    {
      if payload != "" {
        c.topicOut := Some(CopyN(payload, TOPIC_SIZE));
        c.connected := true;
      }
      forall fd | fd in connTable
        ensures connTable[fd].View() == if fd == c.fd then c.View() else old(connTable[fd].View()) {
        assert fd != c.fd ==> connTable[fd] != c;
      }
      assert View().conns == old(View()).conns[c.fd := c.View()];
    }

    method MessageCallback(topic: Topic, payload: string, name: string, ok: bool)
      returns (published: Option<Publication>, upcall: Option<Upcall>)
      requires Valid()
      requires topic == thistopic ==> payload != ""
      modifies this, Channels()
      ensures Valid() && Outcome(View(), published, upcall) == OnMessage(old(View()), topic, payload, name, ok)
    {
      published, upcall := None, None;
      if topic == thistopic {
        var p;
        p, upcall := AcceptRequest(payload, name, ok);
        published := Some(p);
      } else if topic in topicInTable {
        var c := topicInTable[topic];
        if !c.connected {
          FinishConnect(c, payload);
          upcall := Some(OnConnect(c.fd));
        } else if payload != "" {
          upcall := Some(OnData(c.fd, CString(payload)));
        }
      }
    }

    method ComSend(conn: int, data: string) returns (published: Option<Publication>)
      requires Valid()
      ensures published == Send(View(), conn, data)
    {
      if conn !in connTable || connTable[conn].topicOut.None? {
        return None;
      }
      published := Some(Publication(connTable[conn].topicOut.value, data));
    }

    method ComConnectionClose(conn: int) returns (err: int)
      requires Valid()
      modifies this`connTable, this`topicInTable
      ensures Valid() && (View(), err) == Close(old(View()), conn)
    {
      if conn !in connTable {
        return -1;
      }
      ChannelFree(connTable[conn]);
      err := 0;
    }
  }
}
