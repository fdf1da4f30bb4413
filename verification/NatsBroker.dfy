/** broker/nats/nats.go: which library subscriptions the broker keeps alive.

    Of the NATS client library this assumes only that a subscription delivers until it is
    unsubscribed or its connection is closed, whichever comes first. Every call is one step. */
module NatsBroker {

  type Topic = string
  type Handler = nat

  /** Whether a call did its work, or which error it returned. */
  datatype Outcome = Done | NotConnected | AlreadySubscribed | Failed

  class Connection {
    var connected: bool
    var closed: bool

    constructor ()
      ensures connected && !closed
    {
      connected, closed := true, false;
    }

    predicate Usable()
      reads this
    {
      connected && !closed
    }
  }

  class Subscription {
    const topic: Topic
    const conn: Connection
    const handler: Handler
    var removed: bool

    constructor (topic: Topic, conn: Connection, handler: Handler)
      ensures this.topic == topic && this.conn == conn && this.handler == handler && !removed
    {
      this.topic, this.conn, this.handler, removed := topic, conn, handler, false;
    }

    /** The library still delivers messages to it. */
    predicate Live()
      reads this, conn
    {
      !removed && !conn.closed
    }
  }

  datatype Op =
    | Handle(list: map<Topic, Handler>)
    | Connect(dialled: bool, accepts: set<Topic>)
    | Subscribe(topic: Topic, handler: Handler, accepted: bool)
    | Unsubscribe(topic: Topic)
    | Disconnect
    | Network(connected: bool, closes: bool)

  class Nats {
    var conn: Connection?
    var subscriptions: map<Topic, Subscription>
    var handlers: map<Topic, Handler>

    /** Every connection and every subscription there has been. */
    var dialled: set<Connection>
    ghost var issued: set<Subscription>

    /** Whatever is alive is listed under its topic. */
    ghost predicate Valid()
      reads this, dialled, issued
    {
      && (conn != null ==> conn in dialled)
      && (forall s <- issued :: s.conn in dialled)
      && (forall s <- issued :: s.Live() ==> s.topic in subscriptions && subscriptions[s.topic] == s)
      && (forall t <- subscriptions :: subscriptions[t] in issued && subscriptions[t].topic == t)
    }

    /** The subscription is the one listed under its topic. */
    predicate Listed(s: Subscription)
      reads this
    {
      s.topic in subscriptions && subscriptions[s.topic] == s
    }

    /** Exactly one subscription of the topic is alive, over all connections, and it is the
        listed one. */
    ghost predicate OneLive(t: Topic)
      requires Valid()
      reads this, dialled, issued
    {
      && t in subscriptions
      && forall s <- issued :: s.topic == t && s.Live() <==> s == subscriptions[t]
    }

    constructor ()
      ensures Valid() && conn == null && subscriptions == map[] && handlers == map[] && issued == {} && dialled == {}
    {
      conn, subscriptions, handlers, dialled, issued := null, map[], map[], {}, {};
    }

    /** In every valid state a topic has at most one live subscription. */
    lemma AtMostOneLive(s: Subscription, s': Subscription)
      requires Valid() && s in issued && s' in issued
      requires s.Live() && s'.Live() && s.topic == s'.topic
      ensures s == s' == subscriptions[s.topic]
    {
    }

    lemma LiveIsOne(t: Topic)
      requires Valid() && t in subscriptions && subscriptions[t].Live()
      ensures OneLive(t)
    {
    }

    method Handle(list: map<Topic, Handler>)
      requires Valid()
      modifies this`handlers
      ensures Valid() && handlers == old(handlers) + list
    {
      handlers := handlers + list;
    }

    /** `accepted` is whether the library takes the subscription. */
    method Subscribe(topic: Topic, h: Handler, accepted: bool) returns (outcome: Outcome)
      requires Valid()
      modifies this`subscriptions, this`issued
      ensures Valid()
      ensures outcome ==
              if conn == null || !conn.Usable() then NotConnected
              else if topic in old(subscriptions) then AlreadySubscribed
              else if !accepted then Failed
              else Done
      ensures outcome != Done ==> subscriptions == old(subscriptions) && issued == old(issued)
      ensures outcome == Done ==>
                && topic in subscriptions
                && var sub := subscriptions[topic];
                && fresh(sub) && sub.conn == conn && sub.handler == h && sub.Live()
                && subscriptions == old(subscriptions)[topic := sub]
                && issued == old(issued) + {sub}
    {
      if conn == null || !conn.connected || conn.closed {
        return NotConnected;
      }
      if topic in subscriptions {
        return AlreadySubscribed;
      }
      if !accepted {
        return Failed;
      }
      var sub := new Subscription(topic, conn, h);
      subscriptions := subscriptions[topic := sub];
      issued := issued + {sub};
      outcome := Done;
    }

    method Unsubscribe(topic: Topic)
      requires Valid()
      modifies this`subscriptions, (if topic in subscriptions then {subscriptions[topic]} else {})`removed
      ensures Valid() && subscriptions == old(subscriptions) - {topic}
      ensures topic in old(subscriptions) ==> old(subscriptions)[topic].removed
      ensures forall s <- issued :: s.removed <==> old(s.removed) || (old(Listed(s)) && s.topic == topic)
    {
      if topic in subscriptions {
        var sub := subscriptions[topic];
        sub.removed := true;
        subscriptions := subscriptions - {topic};
      }
    }

    /** Exactly the listed subscriptions of registered handlers' topics are unsubscribed, on
        whatever connection they are; the entries of other topics stay, dead if their
        connection is the one closed. A connection that is closed already is kept, and
        so are all entries. */
    method Disconnect()
      requires Valid()
      modifies this`subscriptions, this`conn, issued`removed, (if conn == null then {} else {conn})`closed
      ensures Valid()
      ensures old(conn == null || conn.closed) ==>
                conn == old(conn) && subscriptions == old(subscriptions) &&
                (forall s <- issued :: s.removed == old(s.removed)) && (conn != null ==> conn.closed)
      ensures old(conn != null && !conn.closed) ==>
                && conn == null && old(conn).closed
                && subscriptions == old(subscriptions) - handlers.Keys
                && (forall s <- issued :: s.Live() ==> s.topic !in handlers && s.conn != old(conn))
                && (forall s <- issued :: s.removed <==>
                      old(s.removed) || (old(Listed(s)) && s.topic in handlers))
    {
      if conn != null && !conn.closed {
        UnsubscribeAll();
        conn.closed := true;
        conn := null;
      }
    }

    /** The loop of Disconnect over the registered handlers, in any order. */
    method UnsubscribeAll()
      requires Valid()
      modifies this`subscriptions, issued`removed
      ensures Valid() && subscriptions == old(subscriptions) - handlers.Keys
      ensures forall s <- issued :: s.removed <==> old(s.removed) || (old(Listed(s)) && s.topic in handlers)
    {
      hide Valid;
      var topics := handlers.Keys;
      ListedTopics();
      while topics != {}
        invariant Valid() && topics <= handlers.Keys
        invariant subscriptions == old(subscriptions) - (handlers.Keys - topics)
        invariant forall s <- issued :: s.removed <==>
                    old(s.removed) || (old(Listed(s)) && s.topic in handlers && s.topic !in topics)
      {
        var topic :| topic in topics;
        ListedTopics();
        Unsubscribe(topic);
        topics := topics - {topic};
      }
    }

    lemma ListedTopics()
      requires Valid()
      ensures forall t <- subscriptions :: subscriptions[t] in issued && subscriptions[t].topic == t
    {
    }

    /** The loop of Connect over the registered handlers, in any order. */
    method SubscribeAll(accepts: set<Topic>)
      requires Valid() && conn != null && conn.Usable()
      modifies this`subscriptions, this`issued
      ensures Valid() && old(issued) <= issued && fresh(issued - old(issued))
      ensures subscriptions.Keys == old(subscriptions).Keys + (handlers.Keys * accepts)
      ensures forall t <- old(subscriptions) :: subscriptions[t] == old(subscriptions)[t]
      ensures forall t <- subscriptions :: t !in old(subscriptions) ==>
                subscriptions[t].conn == conn && subscriptions[t].Live() && subscriptions[t].handler == handlers[t]
      ensures forall s <- issued - old(issued) :: s.topic in subscriptions && s.topic !in old(subscriptions)
    {
      hide Valid;
      var topics := handlers.Keys;
      while topics != {}
        invariant Valid() && topics <= handlers.Keys
        invariant old(issued) <= issued && fresh(issued - old(issued))
        invariant forall s <- issued - old(issued) :: s.topic in subscriptions && s.topic !in old(subscriptions)
        invariant subscriptions.Keys == old(subscriptions).Keys + ((handlers.Keys - topics) * accepts)
        invariant forall t <- old(subscriptions) :: subscriptions[t] == old(subscriptions)[t]
        invariant forall t <- subscriptions :: t !in old(subscriptions) ==>
                    subscriptions[t].conn == conn && subscriptions[t].Live() && subscriptions[t].handler == handlers[t]
      {
        var topic :| topic in topics;
        var result := Subscribe(topic, handlers[topic], topic in accepts);
        topics := topics - {topic};
      }
    }

    /** `dials` is whether the connection attempt succeeds and `accepts` the topics the
        library then takes. A previous connection is neither closed nor unsubscribed. After
        success a handler's topic is subscribed on the new connection if and only if it had
        no entry before. */
    method Connect(dials: bool, accepts: set<Topic>) returns (outcome: Outcome)
      requires Valid()
      modifies this`subscriptions, this`conn, this`issued, this`dialled
      ensures Valid() && outcome == (if dials then Done else Failed)
      ensures !dials ==> conn == old(conn) && subscriptions == old(subscriptions) &&
                         issued == old(issued) && dialled == old(dialled)
      ensures dials ==>
                && conn != null && fresh(conn) && conn.Usable() && dialled == old(dialled) + {conn}
                && old(issued) <= issued && fresh(issued - old(issued))
                && (forall s <- issued - old(issued) :: s.topic in subscriptions && s.topic !in old(subscriptions))
                && subscriptions.Keys == old(subscriptions).Keys + (handlers.Keys * accepts)
                && (forall t <- old(subscriptions) :: subscriptions[t] == old(subscriptions)[t])
                && (forall t <- handlers :: t in accepts ==>
                      (OneLive(t) && subscriptions[t].conn == conn <==> t !in old(subscriptions)))
                && (forall t <- handlers :: t in accepts && t !in old(subscriptions) ==>
                      subscriptions[t].handler == handlers[t])
    {
      if !dials {
        return Failed;
      }
      conn := new Connection();
      dialled := dialled + {conn};
      SubscribeAll(accepts);
      forall t | t in subscriptions && t !in old(subscriptions) ensures OneLive(t) {
        LiveIsOne(t);
      }
      outcome := Done;
    }

    /** Disconnect of an open connection followed by a successful Connect: one live
        subscription on the new connection for every handler's topic, calling its handler. */
    method Reconnect(accepts: set<Topic>)
      requires Valid() && conn != null && !conn.closed && handlers.Keys <= accepts
      modifies this`subscriptions, this`conn, this`issued, this`dialled, issued`removed, conn`closed
      ensures Valid() && conn != null && fresh(conn)
      ensures forall t <- handlers ::
                OneLive(t) && subscriptions[t].conn == conn && subscriptions[t].handler == handlers[t]
    {
      Disconnect();
      var outcome := Connect(true, accepts);
    }

    /** Some connection ever opened changes state by itself; a closed one stays closed. */
    method Network(connected: bool, closes: bool)
      requires Valid()
      modifies dialled
      ensures Valid() && forall c <- dialled :: old(c.closed) ==> c.closed
    {
      if dialled != {} {
        var c :| c in dialled;
        c.connected := connected;
        c.closed := c.closed || closes;
      }
    }

    method Step(op: Op)
      requires Valid()
      modifies this, issued, dialled
      ensures Valid() && fresh(issued - old(issued)) && fresh(dialled - old(dialled))
      ensures handlers == if op.Handle? then old(handlers) + op.list else old(handlers)
      ensures match op
              case Connect(dials, accepts) =>
                if dials then conn != null && fresh(conn) && handlers.Keys * accepts <= subscriptions.Keys
                else conn == old(conn) && subscriptions == old(subscriptions)
              case Subscribe(topic, _, accepted) =>
                conn != null && conn.Usable() && accepted ==> topic in subscriptions
              case Unsubscribe(topic) => subscriptions == old(subscriptions) - {topic}
              case Disconnect => conn == null || conn.closed
              case _ => subscriptions == old(subscriptions)
    {
      match op
      case Handle(list) => Handle(list);
      case Connect(dials, accepts) => var outcome := Connect(dials, accepts);
      case Subscribe(topic, h, accepted) => var outcome := Subscribe(topic, h, accepted);
      case Unsubscribe(topic) => Unsubscribe(topic);
      case Disconnect => Disconnect();
      case Network(connected, closes) => Network(connected, closes);
    }
  }

  /** The last of the first n calls that registers a handler for the topic registers this one. */
  ghost predicate LastHandler(ops: seq<Op>, n: nat, t: Topic, h: Handler)
    requires n <= |ops|
  {
    exists i :: 0 <= i < n && Registers(ops[i], t) && ops[i].list[t] == h && SilentFrom(ops, i + 1, n, t)
  }

  predicate Registers(op: Op, t: Topic) {
    op.Handle? && t in op.list
  }

  ghost predicate SilentFrom(ops: seq<Op>, i: nat, n: nat, t: Topic)
    requires n <= |ops|
  {
    forall j :: i <= j < n ==> !Registers(ops[j], t)
  }

  lemma LastHandlerNext(ops: seq<Op>, n: nat, t: Topic, h: Handler)
    requires n < |ops|
    ensures LastHandler(ops, n + 1, t, h) <==>
            if Registers(ops[n], t) then ops[n].list[t] == h else LastHandler(ops, n, t, h)
  {
    if Registers(ops[n], t) {
      assert SilentFrom(ops, n + 1, n + 1, t);
    } else if LastHandler(ops, n, t, h) {
      var i :| 0 <= i < n && Registers(ops[i], t) && ops[i].list[t] == h && SilentFrom(ops, i + 1, n, t);
      assert SilentFrom(ops, i + 1, n + 1, t);
    } else if LastHandler(ops, n + 1, t, h) {
      var i :| 0 <= i < n + 1 && Registers(ops[i], t) && ops[i].list[t] == h && SilentFrom(ops, i + 1, n + 1, t);
      assert SilentFrom(ops, i + 1, n, t);
    }
  }

  /** Over any run of calls and connection changes, every topic has at most one live
      subscription over all connections ever opened, and it is the listed one; each topic's
      handler is the one registered last. */
  method Run(ops: seq<Op>) returns (broker: Nats)
    ensures broker.Valid()
    ensures forall t, h :: t in broker.handlers && broker.handlers[t] == h <==> LastHandler(ops, |ops|, t, h)
    ensures forall s, s' :: s in broker.issued && s' in broker.issued && s.topic == s'.topic &&
                            s.Live() && s'.Live() ==>
              s == s' == broker.subscriptions[s.topic]
  {
    broker := new Nats();
    for i := 0 to |ops|
      invariant broker.Valid() && fresh(broker) && fresh(broker.issued) && fresh(broker.dialled)
      invariant forall t, h :: t in broker.handlers && broker.handlers[t] == h <==> LastHandler(ops, i, t, h)
    {
      broker.Step(ops[i]);
      ghost var n := i + 1;
      forall t, h ensures t in broker.handlers && broker.handlers[t] == h <==> LastHandler(ops, n, t, h) {
        LastHandlerNext(ops, i, t, h);
      }
    }
  }

  /** A topic subscribed directly keeps its entry, dead, when the broker disconnects. */
  method SubscribeDirectly(topic: Topic, h: Handler) returns (broker: Nats)
    ensures fresh(broker) && broker.Valid() && broker.conn == null && broker.handlers == map[]
    ensures topic in broker.subscriptions && forall s <- broker.issued :: !s.Live()
  {
    broker := new Nats();
    var outcome := broker.Connect(true, {topic});
    hide Nats.OneLive;
    outcome := broker.Subscribe(topic, h, true);
    broker.Disconnect();
  }

  /** A handler registered for a topic with a dead entry: Connect does not subscribe it. */
  method RegisterLate(broker: Nats, topic: Topic, h: Handler)
    requires broker.Valid() && broker.conn == null && broker.handlers == map[]
    requires topic in broker.subscriptions && forall s <- broker.issued :: !s.Live()
    modifies broker
    ensures broker.Valid() && broker.conn != null && broker.conn.Usable()
    ensures topic in broker.handlers && forall s <- broker.issued :: !s.Live()
  {
    hide Nats.OneLive;
    broker.Handle(map[topic := h]);
    var outcome := broker.Connect(true, {topic});
  }

  /** An entry that outlives its connection keeps Connect from subscribing: a topic first
      subscribed directly, then registered with a handler while disconnected, is dead. */
  method StaleEntry(topic: Topic, h: Handler) returns (broker: Nats)
    ensures broker.Valid() && broker.conn != null && broker.conn.Usable()
    ensures topic in broker.handlers && forall s <- broker.issued :: !s.Live()
  {
    broker := SubscribeDirectly(topic, h);
    RegisterLate(broker, topic, h);
  }
}
