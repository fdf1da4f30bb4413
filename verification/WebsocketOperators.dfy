/** server/websocket/websocket.go: the operators, one per client, over the shared pool. */
module WebsocketOperators {
  import opened Instances
  import opened WebsocketPool

  /** What may happen next, to the session put as number `who` where one is named. Handlers
      send, re-key, close and remove. */
  datatype Event =
    | Connect(id: UUID, broken: bool, now: int)
    | Message(who: nat, now: int)
    | Send(who: nat, now: int)
    | Finish(who: nat)
    | SetKey(who: nat, key: string)
    | CloseSession(who: nat)
    | RemoveByID(id: UUID)
    | RemoveByConn(who: nat)
    | RemoveByKey(key: string)
    | Purge(now: int)

  /** uuid.New never returns the nil id, and a handler's key is not the "no key" marker. */
  predicate Proper(e: Event) {
    (e.Connect? ==> e.id != NIL_UUID) && (e.SetKey? ==> e.key != "")
  }

  lemma NewValue<K, V>(m: map<K, V>, k: K, v: V)
    requires k !in m
    ensures m[k := v].Values == m.Values + {v}
  {
    forall x | x in m.Values ensures x in m[k := v].Values {
      var i :| i in m && m[i] == x;
      assert m[k := v][i] == x;
    }
    assert m[k := v][k] == v;
  }

  lemma DropValue<K, V>(m: map<K, V>, k: K)
    requires k in m && forall i :: i in m && m[i] == m[k] ==> i == k
    ensures (m - {k}).Values == m.Values - {m[k]}
  {
    forall x | x in m.Values - {m[k]} ensures x in (m - {k}).Values {
      var i :| i in m && m[i] == x;
      assert (m - {k})[i] == x;
    }
  }

  class Hub {
    const pool: Pool
    /** The sessions of the operators that have not returned yet, and of all operators in the
        order they were put. */
    var running: set<Session>
    var everyone: seq<Session>
    /** Some pooled session was given a key that another pooled session held. */
    ghost var takenOver: bool

    constructor (ping: int, idle: int)
      ensures Valid() && running == {} && fresh(pool) && fresh(pool.mutex) && everyone == [] && !takenOver
    {
      pool := new Pool(ping, idle);
      running, everyone, takenOver := {}, [], false;
    }

    ghost predicate Valid()
      reads this, pool, pool.mutex, pool.known
    {
      && pool.Valid() && !pool.mutex.held
      && pool.Members() <= running <= pool.known
      && (forall s :: s in everyone ==> s in pool.known) && (forall s :: s in pool.known ==> s in everyone)
      && (forall i, j :: 0 <= i < j < |everyone| ==> everyone[i].conn != everyone[j].conn)
      && (forall s :: s in pool.known ==> s.pool == null || s.pool == pool)
      && (!takenOver ==> pool.Complete())
    }

    /** Everything an event may write to. */
    ghost function Footprint(): set<object>
      reads this, pool, pool.known
    {
      {this, pool, pool.mutex} + pool.known + set s: Session | s in pool.known :: s.conn
    }

    lemma Covers(who: nat)
      requires Valid() && who < |everyone|
      ensures everyone[who] in Footprint()
    {
    }

    /** Sessions have one number each. */
    lemma OwnNumber(who: nat)
      requires Valid() && who < |everyone|
      ensures "" !in pool.keys
      ensures forall i :: 0 <= i < |everyone| && everyone[i] == everyone[who] ==> i == who
    {
    }

    lemma MembersAreLive()
      requires Valid()
      ensures forall s :: s in pool.Members() ==> s in pool.known && pool.Live(s) && s.pool == pool
    {
      forall s | s in pool.Members() ensures s in pool.known && pool.Live(s) && s.pool == pool {
        var id :| id in pool.sessions && pool.sessions[id] == s;
        assert pool.Live(s);
      }
    }

    lemma Ready()
      requires Valid()
      ensures pool.Valid() && !pool.mutex.held && (!takenOver ==> pool.Complete())
      ensures forall c :: c in pool.conns ==> pool.conns[c] in pool.known && pool.conns[c].conn == c
    {
    }

    twostate lemma Started(new sess: Session)
      requires old(Valid()) && pool.Valid() && !pool.mutex.held && sess.pool == pool
      requires pool.known == old(pool.known) + {sess} && pool.Members() == old(pool.Members()) + {sess}
      requires running == old(running) + {sess} && everyone == old(everyone) + [sess]
      requires takenOver == old(takenOver) && (!takenOver ==> pool.Complete())
      requires forall s :: s in old(pool.known) ==> s.conn != sess.conn && s.pool == old(s.pool)
      ensures Valid() && Footprint() == old(Footprint()) + {sess, sess.conn}
    {
    }

    /** The operator's start: the session is in the pool before any handler sees it. */
    method Start(id: UUID, broken: bool, now: int) returns (sess: Session)
      requires Valid() && id != NIL_UUID && id !in pool.sessions
      modifies this, pool, pool.mutex
      ensures Valid() && fresh(sess) && fresh(sess.conn)
      ensures pool.known == old(pool.known) + {sess} && running == old(running) + {sess}
      ensures sess.conn.broken == broken
      ensures sess.id == id && sess.lastActive == now && sess.key == "" && everyone == old(everyone) + [sess]
      ensures takenOver == old(takenOver) && pool.Members() == old(pool.Members()) + {sess}
      ensures Footprint() == old(Footprint()) + {sess, sess.conn}
    {
      hide Pool.Valid, Pool.Complete, Valid, Footprint;
      Ready();
      var conn := new Conn(broken);
      sess := new Session(id, conn, now);
      pool.Put(sess, id);
      running, everyone := running + {sess}, everyone + [sess];
      NewValue(old(pool.sessions), id, sess);
      Started(sess);
    }

    /** The operator's end: whatever happened to the session meanwhile, it is out of the
        pool before OnClose is called. */
    method End(sess: Session)
      requires Valid() && sess in everyone
      modifies this, pool, sess`pool, sess.conn
      ensures Valid() && pool.known == old(pool.known)
      ensures running == old(running) - {sess} && pool.Members() == old(pool.Members()) - {sess}
      ensures everyone == old(everyone) && takenOver == old(takenOver) && Footprint() == old(Footprint())
      ensures sess.conn.closes == old(sess.conn.closes) + 1 && sess.conn.pings == old(sess.conn.pings)
    {
      MembersAreLive();
      CloseIt(sess);
      running := running - {sess};
    }

    method CloseIt(sess: Session)
      requires Valid() && sess in pool.known
      modifies pool, sess`pool, sess.conn
      ensures Valid() && pool.known == old(pool.known)
      ensures pool.Members() == old(pool.Members()) - {sess}
      ensures sess.conn.closes == old(sess.conn.closes) + 1 && sess.conn.pings == old(sess.conn.pings)
    {
      hide Pool.Complete;
      MembersAreLive();
      sess.Close();
      MembersShrink(sess);
    }

    twostate lemma MembersShrink(sess: Session)
      requires old(Valid()) && sess in old(pool.known) && sess.pool == null && pool.known == old(pool.known)
      requires pool.Valid() && !pool.mutex.held && running == old(running) && everyone == old(everyone)
      requires takenOver == old(takenOver) && (old(pool.Complete()) ==> pool.Complete())
      requires old(sess.pool) != null ==> pool.WithoutMember(sess)
      requires old(sess.pool) == null ==> pool.sessions == old(pool.sessions)
      requires forall s :: s in pool.known && s != sess ==> s.pool == old(s.pool)
      ensures Valid() && pool.Members() == old(pool.Members()) - {sess}
    {
      if old(sess.pool) != null {
        assert old(pool.Live(sess));
        DropValue(old(pool.sessions), old(sess.id));
      } else {
        assert sess !in old(pool.Members()) by {
          assert !old(pool.Live(sess));
        }
      }
    }

    /** Only members left, and every session's pool pointer null or unchanged. */
    twostate lemma StillValid()
      requires old(Valid()) && pool.Valid() && !pool.mutex.held
      requires running == old(running) && everyone == old(everyone) && pool.known == old(pool.known)
      requires !takenOver ==> pool.Complete()
      requires pool.Members() <= old(pool.Members())
      requires forall s :: s in pool.known ==> s.pool == null || s.pool == old(s.pool)
      ensures Valid()
    {
    }

    /** The key of a session outside the pool is nobody's business. */
    twostate lemma DetachedRekey(s: Session)
      requires old(Valid()) && s in old(pool.known) && s.pool == null == old(s.pool) && pool.SameButKeys()
      requires pool.keys == old(pool.keys)
      requires forall t :: t in pool.known ==>
                 t.id == old(t.id) && t.pool == old(t.pool) && (t != s ==> t.key == old(t.key))
      ensures pool.Valid() && (old(pool.Complete()) <==> pool.Complete())
    {
      assert forall id :: id in pool.sessions ==> pool.sessions[id] != s;
    }

    lemma CompleteUnlessTaken(s: Session)
      requires Valid() && s in everyone
      ensures pool.Valid() && !pool.mutex.held && s in pool.known && (s.pool == null || s.pool == pool)
      ensures !takenOver ==> pool.Complete()
    {
    }

    /** Giving `s` the key would take it from another pooled session. */
    ghost predicate TakesOver(s: Session, key: string)
      reads s, pool, pool.Members()
    {
      s.pool != null && exists t :: t in pool.Members() && t != s && t.key == key
    }

    /** While no key was taken over, this is exactly what makes lookup by key incomplete. */
    method Rekey(s: Session, key: string)
      requires Valid() && s in everyone && key != ""
      modifies pool, pool.mutex, s`key, this`takenOver
      ensures Valid() && s.key == key
      ensures s.pool != null ==> key in pool.keys && pool.keys[key] == s
      ensures takenOver == old(takenOver || TakesOver(s, key)) && pool.Members() == old(pool.Members())
      ensures !old(takenOver) ==> (pool.Complete() <==> !takenOver)
    {
      hide Pool.Complete, Pool.Valid, Valid;
      CompleteUnlessTaken(s);
      takenOver := takenOver || TakesOver(s, key);
      s.SetKey(key);
      if s.pool == null {
        DetachedRekey(s);
      }
      StillValid();
    }

    lemma PurgedMembers(l: Ledger, now: int)
      requires l.Sound() && pool.maxIdleDuration > 0 && l.all.Values <= pool.known
      requires pool.Purged(l, now) && pool.Fixed(l)
      ensures forall s :: s in pool.Members() <==> s in l.all.Values && !Idle(s, now)
    {
      forall s | s in l.all.Values && !Idle(s, now) ensures s in pool.Members() {
        var id :| id in l.all && l.all[id] == s;
        assert pool.sessions[id] == s;
      }
      forall s | s in pool.Members() ensures s in l.all.Values && !Idle(s, now) {
        var id :| id in pool.sessions && pool.sessions[id] == s;
        assert l.all[id] == s;
      }
    }

    lemma KeysAndConnsKnown()
      requires Valid()
      ensures forall id :: id in pool.sessions ==> pool.sessions[id] in pool.known && pool.sessions[id].pool == pool
      ensures forall c :: c in pool.conns ==>
                pool.conns[c] in pool.known && c == pool.conns[c].conn && pool.conns[c].pool == pool
      ensures forall k :: k in pool.keys ==> pool.keys[k] in pool.known && pool.keys[k].pool == pool
    {
    }

    /** The three ways to find a member lead to that member. */
    lemma ByIndex(s: Session)
      requires Valid() && s in everyone
      ensures s in pool.Members() <==> s.id in pool.sessions && pool.sessions[s.id] == s
      ensures s in pool.Members() <==> s.conn in pool.conns
      ensures s.conn in pool.conns ==> pool.conns[s.conn] == s
    {
      if s in pool.Members() {
        MembersAreLive();
      }
      if s.conn in pool.conns {
        var t := pool.conns[s.conn];
        assert pool.Live(t) && t in pool.Members();
        var i :| 0 <= i < |everyone| && everyone[i] == s;
        var j :| 0 <= j < |everyone| && everyone[j] == t;
      }
    }

    /** Whom a removal by id takes out. */
    method RemoveOwner(id: UUID)
      requires Valid()
      modifies pool, pool.known`pool
      ensures Valid() && pool.known == old(pool.known)
      ensures forall s :: s in everyone ==> (s in pool.Members() <==> s in old(pool.Members()) && s.id != id)
    {
      forall s | s in everyone ensures s in pool.Members() <==> s.id in pool.sessions && pool.sessions[s.id] == s {
        ByIndex(s);
      }
      ByIdKnown();
      hide Valid, Pool.Valid;
      RemoveID(id);
    }

    lemma ByIdKnown()
      requires Valid()
      ensures forall id :: id in pool.sessions ==> pool.sessions[id].id == id
    {
    }

    /** Removal by its connection takes out that session. */
    method RemoveByConnOf(s: Session)
      requires Valid() && s in everyone
      modifies pool, pool.known`pool
      ensures Valid() && pool.known == old(pool.known) && pool.Members() == old(pool.Members()) - {s}
    {
      ByIndex(s);
      hide Valid, Pool.Valid;
      RemoveConn(s.conn);
    }

    method RemoveID(id: UUID)
      requires Valid()
      modifies pool, pool.known`pool
      ensures Valid() && pool.known == old(pool.known)
      ensures pool.Members() == old(pool.Members()) - old(if id in pool.sessions then {pool.sessions[id]} else {})
    {
      hide Pool.Valid, Pool.Complete;
      KeysAndConnsKnown();
      if id in pool.sessions {
        ghost var s := pool.sessions[id];
        var _ := pool.RemoveByID(id);
        MembersShrink(s);
      }
    }

    method RemoveConn(conn: Conn)
      requires Valid()
      modifies pool, pool.known`pool
      ensures Valid() && pool.known == old(pool.known)
      ensures pool.Members() == old(pool.Members()) - old(if conn in pool.conns then {pool.conns[conn]} else {})
    {
      hide Pool.Valid, Pool.Complete;
      KeysAndConnsKnown();
      if conn in pool.conns {
        ghost var s := pool.conns[conn];
        var _ := pool.RemoveByConn(conn);
        MembersShrink(s);
      }
    }

    method RemoveKey(key: string)
      requires Valid()
      modifies pool, pool.known`pool
      ensures Valid() && pool.known == old(pool.known)
      ensures pool.Members() == old(pool.Members()) - old(if key in pool.keys then {pool.keys[key]} else {})
      ensures key !in pool.keys
    {
      hide Pool.Valid, Pool.Complete;
      KeysAndConnsKnown();
      KeysOwn();
      if key in pool.keys {
        ghost var s := pool.keys[key];
        var _ := pool.RemoveByKey(key);
        MembersShrink(s);
      }
    }

    /** A pooled session has been silent beyond the idle limit. */
    ghost predicate Idle(s: Session, now: int)
      reads this, pool, s
    {
      pool.maxIdleDuration > 0 && now - s.lastActive > pool.maxIdleDuration
    }

    method Purge(now: int)
      requires Valid()
      modifies pool, pool.mutex, pool.known`pool, pool.conns.Keys
      ensures Valid() && pool.known == old(pool.known)
      ensures pool.maxIdleDuration <= 0 ==>
                forall c :: c in old(pool.conns) ==> c.closes == old(c.closes) && c.pings == old(c.pings)
      ensures forall s :: s in pool.Members() <==> s in old(pool.Members()) && !old(Idle(s, now))
      ensures pool.maxIdleDuration > 0 ==> pool.Purged(old(pool.Noted()), now)
    {
      hide Pool.Valid, Pool.Complete, Pool.Purged, Pool.Fixed;
      Ready();
      ghost var l := pool.Noted();
      pool.Purge(now);
      if pool.maxIdleDuration > 0 {
        PurgedMembers(l, now);
      } else {
        forall c | c in old(pool.conns) ensures c.closes == old(c.closes) && c.pings == old(c.pings) {
          assert c in pool.conns;
        }
      }
      StillValid();
    }

    method Touch(s: Session, now: int)
      requires Valid() && s in everyone
      modifies s`lastActive
      ensures Valid() && s.lastActive == now && Footprint() == old(Footprint())
    {
      s.lastActive := now;
    }

    method Send(s: Session, now: int)
      requires Valid() && s in everyone
      modifies s`lastActive
      ensures Valid() && s.lastActive == now
    {
      var _ := s.Send(now);
    }

    /** The event is about session s, by its number. */
    ghost predicate Names(e: Event, s: Session)
      reads this
    {
      match e
      case Message(who, _) => who < |everyone| && everyone[who] == s
      case Send(who, _) => who < |everyone| && everyone[who] == s
      case Finish(who) => who < |everyone| && everyone[who] == s
      case SetKey(who, _) => who < |everyone| && everyone[who] == s
      case CloseSession(who) => who < |everyone| && everyone[who] == s
      case RemoveByConn(who) => who < |everyone| && everyone[who] == s
      case _ => false
    }

    /** The event takes session s, if pooled, out of the pool. The operators of the sessions
        in `apart` do not finish. */
    ghost predicate Removes(e: Event, s: Session, apart: set<Session>)
      reads this, pool, s
    {
      match e
      case Finish(_) => Names(e, s) && s in running && s !in apart
      case CloseSession(_) => Names(e, s)
      case RemoveByConn(_) => Names(e, s)
      case RemoveByID(id) => s.id == id
      case RemoveByKey(key) => s.key == key && key in pool.keys && pool.keys[key] == s
      case Purge(now) => Idle(s, now)
      case _ => false
    }

    /** The effect of an event on the sessions there are, and who is new. */
    twostate predicate Did(e: Event, apart: set<Session>)
      reads this, pool, everyone
    {
      && old(everyone) <= everyone
      && |everyone| == |old(everyone)| + (if e.Connect? && e.id !in old(pool.sessions) then 1 else 0)
      && (|everyone| > |old(everyone)| ==>
            var s := everyone[|old(everyone)|];
            && s.key == "" && s.id == e.id && s.lastActive == e.now && s.conn.broken == e.broken
            && s in running && s in pool.Members())
      && (forall s :: s in old(everyone) ==>
            && (s in running <==>
                s in old(running) && !(e.Finish? && old(Names(e, s)) && s !in apart))
            && (s in pool.Members() <==> s in old(pool.Members()) && !old(Removes(e, s, apart)))
            && s.id == old(s.id)
            && s.key == (if e.SetKey? && old(Names(e, s)) then e.key else old(s.key))
            && s.lastActive == if (e.Message? || e.Send?) && old(Names(e, s)) then e.now else old(s.lastActive))
    }

    /** The event closes the connection of session s, once. */
    ghost predicate Closes(e: Event, s: Session, apart: set<Session>)
      reads this, pool, s
    {
      match e
      case Finish(_) => Names(e, s) && s in running && s !in apart
      case CloseSession(_) => Names(e, s)
      case Purge(now) => s in pool.Members() && Idle(s, now)
      case _ => false
    }

    /** The event pings session s. */
    ghost predicate Pings(e: Event, s: Session)
      reads this, pool, s
    {
      && e.Purge? && s in pool.Members()
      && pool.maxIdleDuration > 0 && e.now - s.lastActive > pool.pingDuration
    }

    ghost function Conns(): set<Conn>
      reads this, everyone
    {
      set s: Session | s in everyone :: s.conn
    }

    /** The effect of an event on the connections there are. */
    twostate predicate Wrote(e: Event, apart: set<Session>)
      reads this, everyone, Conns()
    {
      forall s :: s in old(everyone) && s in everyone ==>
        && s.conn.closes == old(s.conn.closes) + (if old(Closes(e, s, apart)) then 1 else 0)
        && s.conn.pings == old(s.conn.pings) + if old(Pings(e, s)) then 1 else 0
    }

    /** While no key was taken over, a takeover is exactly what makes lookup by key incomplete;
        it takes an event that gives a key which some pooled session holds. */
    twostate predicate Taken(e: Event)
      reads this, pool, pool.sessions.Values
    {
      && (!old(takenOver) ==> (pool.Complete() <==> !takenOver))
      && (takenOver && !old(takenOver) ==>
            e.SetKey? && exists t :: t in old(pool.Members()) && old(t.key) == e.key)
    }

    method Arrive(e: Event, apart: set<Session>)
      requires Valid() && Proper(e) && e.Connect?
      modifies Footprint()
      ensures Valid() && Did(e, apart) && Wrote(e, apart) && Taken(e)
      ensures forall o :: o in Footprint() ==> o in old(Footprint()) || fresh(o)
    {
      hide Pool.Valid, Pool.Complete;
      // uuid.New never returns an id in use.
      if e.id !in pool.sessions {
        var sess := Start(e.id, e.broken, e.now);
      }
    }

    method Stir(e: Event, apart: set<Session>)
      requires Valid() && (e.Message? || e.Send?)
      modifies Footprint()
      ensures Valid() && Did(e, apart) && Wrote(e, apart) && Taken(e)
      ensures forall o :: o in Footprint() ==> o in old(Footprint()) || fresh(o)
    {
      hide Pool.Valid, Pool.Complete;
      if e.who < |everyone| {
        if e.Message? {
          Touch(everyone[e.who], e.now);
        } else {
          Send(everyone[e.who], e.now);
        }
      }
    }

    method Give(e: Event, apart: set<Session>)
      requires Valid() && Proper(e) && e.SetKey?
      modifies Footprint()
      ensures Valid() && Did(e, apart) && Wrote(e, apart) && Taken(e)
      ensures forall o :: o in Footprint() ==> o in old(Footprint()) || fresh(o)
    {
      hide Pool.Valid, Pool.Complete;
      if e.who < |everyone| {
        Rekey(everyone[e.who], e.key);
      }
    }

    method Depart(e: Event, apart: set<Session>)
      requires Valid() && e.Finish?
      modifies Footprint()
      ensures Valid() && Did(e, apart) && Wrote(e, apart) && Taken(e)
      ensures forall o :: o in Footprint() ==> o in old(Footprint()) || fresh(o)
    {
      hide Pool.Valid, Pool.Complete;
      if e.who < |everyone| && everyone[e.who] in running && everyone[e.who] !in apart {
        End(everyone[e.who]);
      }
    }

    method Dismiss(e: Event, apart: set<Session>)
      requires Valid() && e.CloseSession?
      modifies Footprint()
      ensures Valid() && Did(e, apart) && Wrote(e, apart) && Taken(e)
      ensures forall o :: o in Footprint() ==> o in old(Footprint()) || fresh(o)
    {
      hide Pool.Valid, Pool.Complete;
      if e.who < |everyone| {
        CloseIt(everyone[e.who]);
      }
    }

    method DropByConn(e: Event, apart: set<Session>)
      requires Valid() && e.RemoveByConn?
      modifies Footprint()
      ensures Valid() && Did(e, apart) && Wrote(e, apart) && Taken(e)
      ensures forall o :: o in Footprint() ==> o in old(Footprint()) || fresh(o)
    {
      hide Pool.Valid, Pool.Complete;
      if e.who < |everyone| {
        RemoveByConnOf(everyone[e.who]);
      }
    }

    method DropById(e: Event, apart: set<Session>)
      requires Valid() && e.RemoveByID?
      modifies Footprint()
      ensures Valid() && Did(e, apart) && Wrote(e, apart) && Taken(e)
      ensures forall o :: o in Footprint() ==> o in old(Footprint()) || fresh(o)
    {
      hide Pool.Valid, Pool.Complete;
      RemoveOwner(e.id);
    }

    method DropByKey(e: Event, apart: set<Session>)
      requires Valid() && e.RemoveByKey?
      modifies Footprint()
      ensures Valid() && Did(e, apart) && Wrote(e, apart) && Taken(e)
      ensures forall o :: o in Footprint() ==> o in old(Footprint()) || fresh(o)
    {
      hide Pool.Valid, Pool.Complete;
      KeysOwn();
      RemoveKey(e.key);
    }

    lemma KeysOwn()
      requires Valid()
      ensures forall k :: k in pool.keys ==> k != "" && pool.keys[k].key == k
    {
    }

    /** What a purge with an idle limit did to the connections, read off its outcome. */
    twostate lemma PurgeWrote(e: Event)
      requires old(pool.Valid()) && e.Purge? && everyone == old(everyone) && pool.maxIdleDuration > 0
      requires pool.Purged(old(pool.Noted()), e.now)
      requires forall s :: s in old(everyone) && s.conn !in old(pool.conns) ==>
                 s.conn.closes == old(s.conn.closes) && s.conn.pings == old(s.conn.pings)
      requires old(Indexed())
      ensures Wrote(e, {})
    {
      hide Pool.Complete, Valid, Pool.Valid;
      var l := old(pool.Noted());
      forall s | s in old(everyone)
        ensures s.conn.closes == old(s.conn.closes) + (if old(Closes(e, s, {})) then 1 else 0)
        ensures s.conn.pings == old(s.conn.pings) + if old(Pings(e, s)) then 1 else 0
      {
        assert s in old(pool.Members()) ==> old(s.id) in l.all && l.all[old(s.id)] == s;
      }
    }

    twostate lemma NothingWritten(e: Event)
      requires e.Purge? && pool.maxIdleDuration <= 0 && old(Indexed())
      requires everyone == old(everyone)
      requires forall s :: s in old(everyone) ==>
                 s.conn.closes == old(s.conn.closes) && s.conn.pings == old(s.conn.pings)
      ensures Wrote(e, {})
    {
    }

    /** Every session is a member exactly if it is found by its id, or by its connection. */
    ghost predicate Indexed()
      reads this, pool, everyone
    {
      forall s :: s in everyone ==>
        && (s in pool.Members() <==> s.id in pool.sessions && pool.sessions[s.id] == s)
        && (s in pool.Members() <==> s.conn in pool.conns)
    }

    lemma AllIndexed()
      requires Valid()
      ensures Indexed()
    {
      forall s | s in everyone
        ensures s in pool.Members() <==> s.id in pool.sessions && pool.sessions[s.id] == s
        ensures s in pool.Members() <==> s.conn in pool.conns
      {
        ByIndex(s);
      }
    }

    method DropIdle(e: Event, apart: set<Session>)
      requires Valid() && e.Purge?
      modifies Footprint()
      ensures Valid() && Did(e, apart) && Wrote(e, apart) && Taken(e)
      ensures forall o :: o in Footprint() ==> o in old(Footprint()) || fresh(o)
    {
      hide Pool.Valid, Pool.Complete;
      ConnsCovered();
      PurgeIdle(e);
    }

    method PurgeIdle(e: Event)
      requires Valid() && e.Purge?
      modifies pool, pool.mutex, pool.known`pool, pool.conns.Keys
      ensures Valid() && pool.known == old(pool.known)
      ensures forall s :: s in pool.Members() <==> s in old(pool.Members()) && !old(Idle(s, e.now))
      ensures Wrote(e, {})
    {
      hide Pool.Valid, Pool.Complete, Pool.Purged, Pool.Noted, Wrote;
      AllIndexed();
      Purge(e.now);
      if pool.maxIdleDuration > 0 {
        PurgeWrote(e);
      } else {
        NothingWritten(e);
      }
    }

    lemma ConnsCovered()
      requires Valid()
      ensures forall c :: c in pool.conns ==> c in Footprint()
    {
      assert forall c :: c in pool.conns ==> pool.conns[c].conn == c;
    }

    /** One event; it writes only to the sessions there are. */
    method Step(e: Event, apart: set<Session>)
      requires Valid() && Proper(e)
      modifies Footprint()
      ensures Valid() && Did(e, apart) && Wrote(e, apart) && Taken(e)
      ensures forall o :: o in Footprint() ==> o in old(Footprint()) || fresh(o)
    {
      hide Valid, Did, Wrote, Taken, Footprint;
      match e
      case Connect(_, _, _) => Arrive(e, apart);
      case Message(_, _) => Stir(e, apart);
      case Send(_, _) => Stir(e, apart);
      case SetKey(_, _) => Give(e, apart);
      case Finish(_) => Depart(e, apart);
      case CloseSession(_) => Dismiss(e, apart);
      case RemoveByConn(_) => DropByConn(e, apart);
      case RemoveByID(_) => DropById(e, apart);
      case RemoveByKey(_) => DropByKey(e, apart);
      case Purge(_) => DropIdle(e, apart);
    }

    lemma KnownMembers()
      requires Valid()
      ensures forall s :: s in pool.Members() ==> s in everyone
    {
    }

    lemma CompleteIsPlain()
      requires Valid()
      ensures !takenOver ==> pool.Complete() && pool.PlainSet()
    {
      if !takenOver {
        pool.PlainSetIff();
      }
    }

    /** Pooled sessions belong to running operators; with none running, all three indexes
        are empty. */
    lemma NoOperatorNoSession()
      requires Valid()
      ensures pool.Members() <= running
      ensures running == {} ==> pool.sessions == map[] && pool.conns == map[] && pool.keys == map[]
    {
      forall id | id in pool.sessions ensures pool.sessions[id] in running {
        assert pool.sessions[id] in pool.Members();
      }
      forall c | c in pool.conns ensures pool.conns[c] in running {
        assert pool.Live(pool.conns[c]);
        assert pool.conns[c] in pool.Members();
      }
      forall k | k in pool.keys ensures pool.keys[k] in running {
        assert pool.Live(pool.keys[k]);
        assert pool.keys[k] in pool.Members();
      }
    }
  }

  /** No two SetKey events of the run use the same key. */
  predicate DistinctKeys(events: seq<Event>) {
    forall i, j :: 0 <= i < j < |events| && events[i].SetKey? && events[j].SetKey? ==> events[i].key != events[j].key
  }

  /** Every key in use was given by one of the first n events. */
  ghost predicate KeysFrom(everyone: seq<Session>, events: seq<Event>, n: nat)
    requires n <= |events|
    reads everyone
  {
    forall s :: s in everyone && s.key != "" ==> Given(events, n, s.key)
  }

  /** One of the first n events gives the key. */
  predicate Given(events: seq<Event>, n: nat, key: string)
    requires n <= |events|
  {
    exists i :: 0 <= i < n && events[i].SetKey? && events[i].key == key
  }

  lemma GivenNext(events: seq<Event>, n: nat, key: string)
    requires n < |events|
    ensures Given(events, n + 1, key) <==> Given(events, n, key) || (events[n].SetKey? && events[n].key == key)
  {
    if events[n].SetKey? && events[n].key == key {
      assert Given(events, n + 1, key);
    }
  }

  lemma GivenTwice(events: seq<Event>, n: nat)
    requires n < |events| && events[n].SetKey? && Given(events, n, events[n].key)
    ensures !DistinctKeys(events)
  {
  }

  // ---- each session after a run, read off its own events ----

  /** The event is activity of session `me`: a message of it, or a send to it. */
  predicate Stirs(e: Event, me: nat) {
    (e.Message? || e.Send?) && e.who == me
  }

  predicate NoneStirs(events: seq<Event>, me: nat) {
    forall j :: 0 <= j < |events| ==> !Stirs(events[j], me)
  }

  /** t is the time of the last activity among the events, or `start` if there is none. */
  ghost predicate LastStir(start: int, me: nat, events: seq<Event>, t: int) {
    || (NoneStirs(events, me) && t == start)
    || (exists j :: && 0 <= j < |events| && Stirs(events[j], me) && events[j].now == t
                    && forall k :: j < k < |events| ==> !Stirs(events[k], me))
  }

  lemma LastStirNext(start: int, me: nat, events: seq<Event>, i: nat, t: int)
    requires i < |events| && LastStir(start, me, events[..i], t)
    ensures LastStir(start, me, events[..i + 1], if Stirs(events[i], me) then events[i].now else t)
  {
    var prefix, next := events[..i], events[..i + 1];
    assert next == prefix + [events[i]];
    hide Stirs;
    if Stirs(events[i], me) {
      assert Stirs(next[i], me);
    } else if !NoneStirs(prefix, me) {
      var j :| 0 <= j < i && Stirs(prefix[j], me) && prefix[j].now == t
               && forall k :: j < k < i ==> !Stirs(prefix[k], me);
      assert Stirs(next[j], me) && next[j].now == t;
    }
  }

  /** The last of the events that re-keys session `me` gives it this key; if there is none, it
      has none. */
  ghost predicate LastKey(me: nat, events: seq<Event>, key: string) {
    || (key == "" && forall j :: 0 <= j < |events| ==> !Rekeys(events[j], me))
    || (exists j :: && 0 <= j < |events| && events[j] == SetKey(me, key)
                    && forall k :: j < k < |events| ==> !Rekeys(events[k], me))
  }

  predicate Rekeys(e: Event, me: nat) {
    e.SetKey? && e.who == me
  }

  lemma LastKeyNext(me: nat, events: seq<Event>, e: Event, key: string)
    requires LastKey(me, events, key)
    ensures LastKey(me, events + [e], if Rekeys(e, me) then e.key else key)
  {
    var all, n := events + [e], |events|;
    assert all[n] == e && forall j :: 0 <= j < n ==> all[j] == events[j];
    if Rekeys(e, me) {
      assert all[n] == SetKey(me, e.key);
    } else if !(forall j :: 0 <= j < n ==> !Rekeys(events[j], me)) {
      var j :| 0 <= j < n && events[j] == SetKey(me, key) && forall k :: j < k < n ==> !Rekeys(events[k], me);
      assert all[j] == SetKey(me, key);
    }
  }

  /** Session `me`, put by event c, as the later events leave it. */
  ghost predicate AsTold(c: Event, later: seq<Event>, me: nat, id: UUID, runs: bool, active: int, key: string) {
    && c.Connect? && id == c.id
    && (runs <==> Finish(me) !in later)
    && LastStir(c.now, me, later, active)
    && LastKey(me, later, key)
  }

  lemma ToldNext(c: Event, later: seq<Event>, e: Event, me: nat, id: UUID, runs: bool, active: int, key: string)
    requires AsTold(c, later, me, id, runs, active, key)
    ensures AsTold(c, later + [e], me, id, runs && e != Finish(me),
                   if Stirs(e, me) then e.now else active, if Rekeys(e, me) then e.key else key)
  {
    var all := later + [e];
    assert all[..|later|] == later && all[..|later| + 1] == all;
    LastStirNext(c.now, me, all, |later|, active);
    LastKeyNext(me, later, e, key);
  }

  lemma NewTold(c: Event, me: nat)
    requires c.Connect?
    ensures AsTold(c, [], me, c.id, true, c.now, "")
  {
  }

  /** No earlier event brings the id of the j-th. */
  predicate NewId(events: seq<Event>, j: nat)
    requires j < |events| && events[j].Connect?
  {
    forall i :: 0 <= i < j && events[i].Connect? ==> events[i].id != events[j].id
  }

  /** Session k was put by event at[k], and every Connect with a new id put one. */
  ghost predicate Arrived(everyone: seq<Session>, events: seq<Event>, n: nat, at: seq<nat>)
    requires n <= |events|
    reads everyone
  {
    && |at| == |everyone|
    && (forall j, k :: 0 <= j < k < |at| ==> at[j] < at[k])
    && (forall k :: 0 <= k < |at| ==> at[k] < n && events[at[k]].Connect? && everyone[k].id == events[at[k]].id)
    && (forall j: nat :: j < n && events[j].Connect? && NewId(events, j) ==> j in at)
  }

  /** Every session there has been is as its own events leave it. */
  ghost predicate AllAsTold(hub: Hub, events: seq<Event>, n: nat, at: seq<nat>)
    requires n <= |events|
    reads hub, hub.everyone
  {
    && Arrived(hub.everyone, events, n, at)
    && forall k :: 0 <= k < |at| ==> SessionAsTold(hub, k, events[at[k]], events[at[k] + 1..n])
  }

  ghost predicate SessionAsTold(hub: Hub, k: nat, c: Event, later: seq<Event>)
    requires k < |hub.everyone|
    reads hub, hub.everyone[k]
  {
    var s := hub.everyone[k];
    AsTold(c, later, k, s.id, s in hub.running, s.lastActive, s.key)
  }

  lemma NewIdIsFree(hub: Hub, events: seq<Event>, n: nat, at: seq<nat>)
    requires hub.Valid() && n < |events| && AllAsTold(hub, events, n, at)
    ensures events[n].Connect? && NewId(events, n) ==> events[n].id !in hub.pool.sessions
  {
    hide AsTold;
    if events[n].Connect? && events[n].id in hub.pool.sessions {
      var s := hub.pool.sessions[events[n].id];
      assert s in hub.pool.Members() && s.id == events[n].id;
      var k :| 0 <= k < |hub.everyone| && hub.everyone[k] == s;
      assert at[k] < n && events[at[k]].id == events[n].id;
    }
  }

  predicate About(e: Event, k: nat) {
    (e.Message? || e.Send? || e.Finish? || e.SetKey? || e.CloseSession? || e.RemoveByConn?) && e.who == k
  }

  /** An event that names a session names it by its number. */
  ghost predicate ByNumber(hub: Hub, e: Event)
    reads hub, hub.everyone
  {
    forall k :: 0 <= k < |hub.everyone| ==> (hub.Names(e, hub.everyone[k]) <==> About(e, k))
  }

  lemma NamesByNumber(hub: Hub, e: Event)
    requires hub.Valid()
    ensures ByNumber(hub, e)
  {
    hide Hub.Valid;
    forall k | 0 <= k < |hub.everyone| ensures hub.Names(e, hub.everyone[k]) <==> About(e, k) {
      hub.OwnNumber(k);
    }
  }

  datatype Change = Change(hub: Hub, e: Event)

  /** What an event does to the numbered sessions. */
  twostate predicate Changed(c: Change)
    reads c.hub, c.hub.everyone
  {
    && old(c.hub.everyone) <= c.hub.everyone
    && forall k :: 0 <= k < |old(c.hub.everyone)| ==>
         var s := c.hub.everyone[k];
         && s.id == old(s.id)
         && (s in c.hub.running <==> s in old(c.hub.running) && c.e != Finish(k))
         && s.lastActive == (if Stirs(c.e, k) then c.e.now else old(s.lastActive))
         && s.key == if Rekeys(c.e, k) then c.e.key else old(s.key)
  }

  /** A Connect with an id not in use puts one session, and nothing else does. */
  twostate predicate Came(c: Change)
    reads c.hub, c.hub.everyone
  {
    && old(c.hub.everyone) <= c.hub.everyone
    && |c.hub.everyone| == |old(c.hub.everyone)| +
         (if c.e.Connect? && c.e.id !in old(c.hub.pool.sessions) then 1 else 0)
    && (|c.hub.everyone| > |old(c.hub.everyone)| ==>
          var s := c.hub.everyone[|old(c.hub.everyone)|];
          s.id == c.e.id && s.lastActive == c.e.now && s.key == "" && s in c.hub.running)
  }

  twostate lemma DidByNumber(c: Change)
    requires c.hub.Did(c.e, {}) && old(ByNumber(c.hub, c.e))
    ensures Changed(c)
  {
    var everyone := old(c.hub.everyone);
    assert forall k :: 0 <= k < |everyone| ==> c.hub.everyone[k] == everyone[k] && everyone[k] in everyone;
  }

  /** The i-th event of a run. */
  method NextEvent(hub: Hub, events: seq<Event>, i: nat)
    requires i < |events| && hub.Valid() && Proper(events[i])
    requires KeysFrom(hub.everyone, events, i) && (DistinctKeys(events) ==> !hub.takenOver)
    modifies hub.Footprint()
    ensures hub.Valid() && forall o :: o in hub.Footprint() ==> o in old(hub.Footprint()) || fresh(o)
    ensures KeysFrom(hub.everyone, events, i + 1) && (DistinctKeys(events) ==> !hub.takenOver)
    ensures Changed(Change(hub, events[i])) && Came(Change(hub, events[i]))
  {
    hide Hub.Footprint, Hub.Valid, Given, DistinctKeys, Pool.Complete, Changed;
    hub.KnownMembers();
    NamesByNumber(hub, events[i]);
    hub.Step(events[i], {});
    DidByNumber(Change(hub, events[i]));
    forall s | s in hub.everyone && s.key != "" ensures Given(events, i + 1, s.key) {
      GivenNext(events, i, s.key);
    }
    if hub.takenOver && !old(hub.takenOver) {
      GivenTwice(events, i);
    }
  }

  method NextTold(hub: Hub, events: seq<Event>, i: nat, ghost at: seq<nat>) returns (ghost at': seq<nat>)
    requires i < |events| && hub.Valid() && Proper(events[i])
    requires KeysFrom(hub.everyone, events, i) && (DistinctKeys(events) ==> !hub.takenOver)
    requires AllAsTold(hub, events, i, at)
    modifies hub.Footprint()
    ensures hub.Valid() && forall o :: o in hub.Footprint() ==> o in old(hub.Footprint()) || fresh(o)
    ensures KeysFrom(hub.everyone, events, i + 1) && (DistinctKeys(events) ==> !hub.takenOver)
    ensures AllAsTold(hub, events, i + 1, at')
  {
    hide Hub.Footprint, Hub.Valid, Hub.Did, KeysFrom, DistinctKeys, AllAsTold, Changed, Came, NewId;
    NewIdIsFree(hub, events, i, at);
    NextEvent(hub, events, i);
    at' := if |hub.everyone| > |at| then at + [i] else at;
    KeepsTold(Telling(hub, events, i, at));
  }

  datatype Telling = Telling(hub: Hub, events: seq<Event>, i: nat, at: seq<nat>)

  function MoreArrived(t: Telling): seq<nat>
    reads t.hub
  {
    if |t.hub.everyone| > |t.at| then t.at + [t.i] else t.at
  }

  twostate lemma KeepsArrived(t: Telling)
    requires t.i < |t.events| && old(Arrived(t.hub.everyone, t.events, t.i, t.at))
    requires Changed(Change(t.hub, t.events[t.i])) && Came(Change(t.hub, t.events[t.i]))
    requires t.events[t.i].Connect? && NewId(t.events, t.i) ==> t.events[t.i].id !in old(t.hub.pool.sessions)
    ensures Arrived(t.hub.everyone, t.events, t.i + 1, MoreArrived(t))
  {
    hide AsTold, NewId;
    var at' := MoreArrived(t);
    forall j: nat | j < t.i + 1 && t.events[j].Connect? && NewId(t.events, j) ensures j in at' {
      if j == t.i {
        assert at'[|t.at|] == j;
      }
    }
  }

  datatype One = One(hub: Hub, e: Event, k: nat, c: Event, later: seq<Event>)

  twostate lemma KeepsOne(o: One)
    requires o.k < |old(o.hub.everyone)| && old(SessionAsTold(o.hub, o.k, o.c, o.later))
    requires Changed(Change(o.hub, o.e))
    ensures o.k < |o.hub.everyone| && SessionAsTold(o.hub, o.k, o.c, o.later + [o.e])
  {
    hide AsTold;
    var s := old(o.hub.everyone)[o.k];
    ToldNext(o.c, o.later, o.e, o.k, old(s.id), s in old(o.hub.running), old(s.lastActive), old(s.key));
  }

  lemma OneLater(events: seq<Event>, a: nat, n: nat)
    requires a < n < |events|
    ensures events[a + 1..n + 1] == events[a + 1..n] + [events[n]]
    ensures events[n + 1..n + 1] == []
  {
  }

  datatype Nth = Nth(t: Telling, k: nat)

  twostate lemma KeepsNth(n: Nth)
    requires n.t.i < |n.t.events| && old(AllAsTold(n.t.hub, n.t.events, n.t.i, n.t.at))
    requires Changed(Change(n.t.hub, n.t.events[n.t.i])) && Came(Change(n.t.hub, n.t.events[n.t.i]))
    requires n.k < |MoreArrived(n.t)| == |n.t.hub.everyone|
    ensures var a := MoreArrived(n.t)[n.k];
            a <= n.t.i && SessionAsTold(n.t.hub, n.k, n.t.events[a], n.t.events[a + 1..n.t.i + 1])
  {
    hide SessionAsTold, NewId, Changed;
    var events, i := n.t.events, n.t.i;
    if n.k < |n.t.at| {
      var a := n.t.at[n.k];
      assert MoreArrived(n.t)[n.k] == a;
      OneLater(events, a, i);
      KeepsOne(One(n.t.hub, events[i], n.k, events[a], events[a + 1..i]));
    } else {
      NewcomerTold(Change(n.t.hub, events[i]));
      assert events[i + 1..i + 1] == [];
    }
  }

  twostate lemma KeepsSessions(t: Telling)
    requires t.i < |t.events| && old(AllAsTold(t.hub, t.events, t.i, t.at))
    requires Changed(Change(t.hub, t.events[t.i])) && Came(Change(t.hub, t.events[t.i]))
    requires Arrived(t.hub.everyone, t.events, t.i + 1, MoreArrived(t))
    ensures AllAsTold(t.hub, t.events, t.i + 1, MoreArrived(t))
  {
    hide SessionAsTold, NewId, Changed, Came, MoreArrived;
    forall k | 0 <= k < |MoreArrived(t)|
      ensures SessionAsTold(t.hub, k, t.events[MoreArrived(t)[k]], t.events[MoreArrived(t)[k] + 1..t.i + 1])
    {
      KeepsNth(Nth(t, k));
    }
  }

  twostate lemma KeepsTold(t: Telling)
    requires t.i < |t.events| && old(AllAsTold(t.hub, t.events, t.i, t.at))
    requires Changed(Change(t.hub, t.events[t.i])) && Came(Change(t.hub, t.events[t.i]))
    requires t.events[t.i].Connect? && NewId(t.events, t.i) ==> t.events[t.i].id !in old(t.hub.pool.sessions)
    ensures AllAsTold(t.hub, t.events, t.i + 1, MoreArrived(t))
  {
    hide SessionAsTold, NewId, Changed, Came;
    KeepsArrived(t);
    KeepsSessions(t);
  }

  twostate lemma NewcomerTold(c: Change)
    requires Came(c) && |c.hub.everyone| > |old(c.hub.everyone)|
    ensures SessionAsTold(c.hub, |old(c.hub.everyone)|, c.e, [])
  {
    NewTold(c.e, |old(c.hub.everyone)|);
  }

  /** Any run of operators starting, receiving and ending, of handlers sending, re-keying,
      closing and removing sessions, and of purges, in any interleaving of such calls. Each
      session ends up as its own events leave it, whatever is interleaved: running unless it
      finished, with its last key and the time of its last activity. While no session is given a
      key that another pooled one holds, the pool is a plain set of sessions; for this it is
      enough that the keys given are distinct. */
  method Run(ping: int, idle: int, events: seq<Event>) returns (hub: Hub, ghost at: seq<nat>)
    requires forall e :: e in events ==> Proper(e)
    ensures hub.Valid()
    ensures AllAsTold(hub, events, |events|, at)
    ensures hub.pool.Members() <= hub.running
    ensures hub.running == {} ==>
              hub.pool.sessions == map[] && hub.pool.conns == map[] && hub.pool.keys == map[]
    ensures !hub.takenOver ==> hub.pool.Complete() && hub.pool.PlainSet()
    ensures DistinctKeys(events) ==> !hub.takenOver
  {
    hide Hub.Footprint, Hub.Valid, KeysFrom, DistinctKeys, AllAsTold, Proper, Pool.Valid, Pool.Complete, Pool.PlainSet;
    hub := Fresh(ping, idle, events);
    at := [];
    for i := 0 to |events|
      invariant hub.Valid() && forall o :: o in hub.Footprint() ==> fresh(o)
      invariant KeysFrom(hub.everyone, events, i) && (DistinctKeys(events) ==> !hub.takenOver)
      invariant AllAsTold(hub, events, i, at)
    {
      assert events[i] in events;
      at := NextTold(hub, events, i, at);
    }
    hub.NoOperatorNoSession();
    hub.CompleteIsPlain();
  }

  method Fresh(ping: int, idle: int, events: seq<Event>) returns (hub: Hub)
    ensures hub.Valid() && (forall o :: o in hub.Footprint() ==> fresh(o))
    ensures KeysFrom(hub.everyone, events, 0) && !hub.takenOver && AllAsTold(hub, events, 0, [])
  {
    hub := new Hub(ping, idle);
  }

  // ---- the order of a session's events ----

  datatype Frame = Data(body: string, at: int) | Pong(at: int) | CloseFrame | Other | Failed

  datatype Callback = OnConnect | OnData(body: string) | OnError | OnClose

  predicate Ends(f: Frame) {
    f.CloseFrame? || f.Failed?
  }

  /** The calls are for the data frames among the first n, one each and in order, with their
      bodies: call j is for frame at[j]. */
  ghost predicate Delivers(frames: seq<Frame>, n: nat, calls: seq<Callback>, at: seq<nat>)
    requires n <= |frames|
  {
    && |at| == |calls|
    && (forall j :: 0 <= j < |at| ==>
          at[j] < n && frames[at[j]].Data? && calls[j] == OnData(frames[at[j]].body))
    && (forall j, k :: 0 <= j < k < |at| ==> at[j] < at[k])
    && (forall i: nat :: i < n && frames[i].Data? ==> i in at)
  }

  /** A data frame is activity too, and so is an answer to a ping. */
  predicate Counts(f: Frame) {
    f.Data? || f.Pong?
  }

  /** Neither the frames from i up to n nor the events before them are activity. */
  predicate Silent(me: nat, frames: seq<Frame>, between: seq<seq<Event>>, i: nat, n: nat)
    requires n <= |frames| == |between|
  {
    forall m :: i <= m < n ==> !Counts(frames[m]) && NoneStirs(between[m], me)
  }

  /** Frame i, or else the last of the events before it, is activity at time t. */
  ghost predicate ActiveAt(me: nat, f: Frame, events: seq<Event>, t: int) {
    if Counts(f) then t == f.at else !NoneStirs(events, me) && LastStir(t, me, events, t)
  }

  /** t is the time of the last activity up to frame n, or `start` if there was none. */
  ghost predicate LastSeen(start: int, me: nat, frames: seq<Frame>, between: seq<seq<Event>>, n: nat, t: int)
    requires n <= |frames| == |between|
  {
    || (Silent(me, frames, between, 0, n) && t == start)
    || (exists i: nat :: i < n && ActiveAt(me, frames[i], between[i], t) && Silent(me, frames, between, i + 1, n))
  }

  /** The same when the loop has ended at frame n: what happened before the ending frame was
      read counts too, that frame itself does not. */
  ghost predicate LastActivity(start: int, me: nat, frames: seq<Frame>, between: seq<seq<Event>>, n: nat, t: int)
    requires n <= |frames| == |between|
  {
    if n < |frames| && !NoneStirs(between[n], me) then LastStir(t, me, between[n], t)
    else LastSeen(start, me, frames, between, n, t)
  }

  predicate AllProper(events: seq<Event>) {
    forall e :: e in events ==> Proper(e)
  }

  /** The event takes session `me` with this id out of the pool neither by number, id nor
      key, if its keys are among `keys`, nor by purging, and gives it no other key. */
  predicate Spares(e: Event, me: nat, id: UUID, keys: set<string>) {
    match e
    case SetKey(who, key) => who == me ==> key in keys
    case Finish(_) => true
    case CloseSession(who) => who != me
    case RemoveByConn(who) => who != me
    case RemoveByID(i) => i != id
    case RemoveByKey(key) => key !in keys
    case Purge(_) => false
    case _ => true
  }

  predicate AllSpare(events: seq<Event>, me: nat, id: UUID, keys: set<string>) {
    forall e :: e in events ==> Spares(e, me, id, keys)
  }

  predicate AlwaysSpare(between: seq<seq<Event>>, me: nat, id: UUID, keys: set<string>) {
    forall i :: 0 <= i < |between| ==> AllSpare(between[i], me, id, keys)
  }

  /** Session `me` is pooled, with no key or one of `keys`. */
  ghost predicate Pooled(hub: Hub, me: nat, keys: set<string>)
    requires me < |hub.everyone|
    reads hub, hub.pool, hub.everyone[me]
  {
    var sess := hub.everyone[me];
    sess in hub.pool.Members() && (sess.key == "" || sess.key in keys)
  }

  /** The operator of session `me` with this id is running. */
  ghost predicate Follows(hub: Hub, me: nat, id: UUID)
    reads hub, hub.pool, hub.pool.mutex, hub.pool.known, hub.everyone
  {
    && hub.Valid() && me < |hub.everyone|
    && hub.everyone[me] in hub.running && hub.everyone[me].id == id
  }

  /** n is the number of frames before the one that ends the loop, if any does. */
  predicate ReadUntil(frames: seq<Frame>, n: nat) {
    n <= |frames| && (forall i :: 0 <= i < n ==> !Ends(frames[i])) && (n < |frames| ==> Ends(frames[n]))
  }

  method Begin(hub: Hub, id: UUID, broken: bool, now: int) returns (me: nat)
    requires hub.Valid() && id != NIL_UUID && id !in hub.pool.sessions
    modifies hub.Footprint()
    ensures Follows(hub, me, id) && me == |old(hub.everyone)|
    ensures fresh(hub.everyone[me]) && hub.everyone[me].lastActive == now
    ensures forall keys :: Pooled(hub, me, keys)
    ensures forall o :: o in hub.Footprint() ==> o in old(hub.Footprint()) || fresh(o)
  {
    hide Pool.Valid, Pool.Complete;
    me := |hub.everyone|;
    var sess := hub.Start(id, broken, now);
  }

  method Leave(hub: Hub, me: nat, ghost id: UUID)
    requires Follows(hub, me, id)
    modifies hub.Footprint()
    ensures hub.Valid() && hub.everyone == old(hub.everyone)
    ensures hub.everyone[me] !in hub.pool.Members() && hub.everyone[me] !in hub.running
    ensures hub.everyone[me].lastActive == old(hub.everyone[me].lastActive)
  {
    hide Pool.Valid, Pool.Complete;
    hub.End(hub.everyone[me]);
  }

  /** One event beside the operator. */
  method Beside(hub: Hub, me: nat, ghost id: UUID, ghost keys: set<string>, e: Event)
    requires Follows(hub, me, id) && Proper(e)
    modifies hub.Footprint()
    ensures Follows(hub, me, id) && old(hub.everyone) <= hub.everyone
    ensures forall o :: o in hub.Footprint() ==> o in old(hub.Footprint()) || fresh(o)
    ensures hub.everyone[me].lastActive == if Stirs(e, me) then e.now else old(hub.everyone[me].lastActive)
    ensures Spares(e, me, id, keys) && old(Pooled(hub, me, keys)) ==> Pooled(hub, me, keys)
  {
    hide Hub.Footprint, Pool.Valid, Pool.Complete;
    var sess := hub.everyone[me];
    hub.OwnNumber(me);
    hub.Step(e, {sess});
  }

  /** What else happens before the operator reads its next frame. */
  method Meanwhile(hub: Hub, me: nat, ghost id: UUID, ghost keys: set<string>, events: seq<Event>)
    requires Follows(hub, me, id) && AllProper(events)
    modifies hub.Footprint()
    ensures Follows(hub, me, id) && old(hub.everyone) <= hub.everyone
    ensures forall o :: o in hub.Footprint() ==> o in old(hub.Footprint()) || fresh(o)
    ensures LastStir(old(hub.everyone[me].lastActive), me, events, hub.everyone[me].lastActive)
    ensures AllSpare(events, me, id, keys) && old(Pooled(hub, me, keys)) ==> Pooled(hub, me, keys)
  {
    hide Hub.Valid, Hub.Footprint, LastStir, Stirs, Pooled, Spares, Proper;
    ghost var start := hub.everyone[me].lastActive;
    NothingStirs(start, me, events);
    for i := 0 to |events|
      invariant Follows(hub, me, id) && old(hub.everyone) <= hub.everyone
      invariant forall o :: o in hub.Footprint() ==> o in old(hub.Footprint()) || fresh(o)
      invariant LastStir(start, me, events[..i], hub.everyone[me].lastActive)
      invariant AllSpare(events, me, id, keys) && old(Pooled(hub, me, keys)) ==> Pooled(hub, me, keys)
    {
      assert events[i] in events;
      LastStirNext(start, me, events, i, hub.everyone[me].lastActive);
      Beside(hub, me, id, keys, events[i]);
    }
    assert events[..|events|] == events;
  }

  lemma NothingStirs(start: int, me: nat, events: seq<Event>)
    ensures LastStir(start, me, events[..0], start)
  {
  }

  /** A frame that does not end the loop. */
  method Receive(hub: Hub, me: nat, ghost id: UUID, f: Frame, calls: seq<Callback>) returns (calls': seq<Callback>)
    requires Follows(hub, me, id) && !Ends(f)
    modifies {hub.everyone[me]}`lastActive
    ensures Follows(hub, me, id) && hub.Footprint() == old(hub.Footprint())
    ensures calls' == if f.Data? then calls + [OnData(f.body)] else calls
    ensures hub.everyone[me].lastActive == if Counts(f) then f.at else old(hub.everyone[me].lastActive)
  {
    hide Hub.Valid, Hub.Footprint;
    calls' := calls;
    match f
    case Data(body, at) =>
      hub.Touch(hub.everyone[me], at);
      calls' := calls + [OnData(body)];
    case Pong(at) =>
      hub.Touch(hub.everyone[me], at);
    case _ =>
  }

  /** One turn of the read loop; `es` happens before the frame is read. */
  method Turn(hub: Hub, me: nat, ghost id: UUID, ghost keys: set<string>, f: Frame, es: seq<Event>,
              calls: seq<Callback>)
    returns (ended: bool, calls': seq<Callback>)
    requires Follows(hub, me, id) && AllProper(es)
    modifies hub.Footprint()
    ensures Follows(hub, me, id) && old(hub.everyone) <= hub.everyone
    ensures forall o :: o in hub.Footprint() ==> o in old(hub.Footprint()) || fresh(o)
    ensures ended == Ends(f) && calls' == if f.Data? then calls + [OnData(f.body)] else calls
    ensures if Counts(f) then hub.everyone[me].lastActive == f.at
            else LastStir(old(hub.everyone[me].lastActive), me, es, hub.everyone[me].lastActive)
    ensures AllSpare(es, me, id, keys) && old(Pooled(hub, me, keys)) ==> Pooled(hub, me, keys)
  {
    hide Hub.Valid, Hub.Footprint, LastStir, AllProper, AllSpare;
    hub.Covers(me);
    Meanwhile(hub, me, id, keys, es);
    ended, calls' := Ends(f), calls;
    if !ended {
      calls' := Receive(hub, me, id, f, calls);
    }
  }

  lemma NoFrame(start: int, me: nat, frames: seq<Frame>, between: seq<seq<Event>>)
    requires |frames| == |between|
    ensures Delivers(frames, 0, [], []) && LastSeen(start, me, frames, between, 0, start)
  {
  }

  lemma NextDelivered(frames: seq<Frame>, n: nat, calls: seq<Callback>, at: seq<nat>) returns (at': seq<nat>)
    requires n < |frames| && Delivers(frames, n, calls, at)
    ensures Delivers(frames, n + 1, if frames[n].Data? then calls + [OnData(frames[n].body)] else calls, at')
  {
    if frames[n].Data? {
      at' := at + [n];
      forall i: nat | i < n + 1 && frames[i].Data? ensures i in at' {
        assert i == n ==> at'[|at|] == n;
      }
    } else {
      at' := at;
    }
  }

  lemma NextSeen(start: int, me: nat, frames: seq<Frame>, between: seq<seq<Event>>, n: nat, before: int, t: int)
    requires n < |frames| == |between| && LastSeen(start, me, frames, between, n, before)
    requires if Counts(frames[n]) then t == frames[n].at else LastStir(before, me, between[n], t)
    ensures LastSeen(start, me, frames, between, n + 1, t)
    ensures Ends(frames[n]) ==> LastActivity(start, me, frames, between, n, t)
  {
    if Counts(frames[n]) || !NoneStirs(between[n], me) {
      assert ActiveAt(me, frames[n], between[n], t);
    } else {
      assert t == before;
      if !(Silent(me, frames, between, 0, n) && t == start) {
        var i: nat :| i < n && ActiveAt(me, frames[i], between[i], t) && Silent(me, frames, between, i + 1, n);
        assert Silent(me, frames, between, i + 1, n + 1);
      }
    }
  }

  /** The read loop, among anything else that happens: `between[i]` are the events before the
      i-th frame is read, calls made by this session's own handlers included. */
  method ReadLoop(hub: Hub, me: nat, ghost id: UUID, ghost keys: set<string>,
                  frames: seq<Frame>, between: seq<seq<Event>>)
    returns (calls: seq<Callback>, n: nat, ghost at: seq<nat>)
    requires Follows(hub, me, id)
    requires |frames| == |between| && forall i :: 0 <= i < |between| ==> AllProper(between[i])
    modifies hub.Footprint()
    ensures Follows(hub, me, id) && old(hub.everyone) <= hub.everyone
    ensures forall o :: o in hub.Footprint() ==> o in old(hub.Footprint()) || fresh(o)
    ensures ReadUntil(frames, n) && Delivers(frames, n, calls, at)
    ensures LastActivity(old(hub.everyone[me].lastActive), me, frames, between, n, hub.everyone[me].lastActive)
    ensures AlwaysSpare(between, me, id, keys) && old(Pooled(hub, me, keys)) ==> Pooled(hub, me, keys)
  {
    hide Hub.Valid, Hub.Footprint, Delivers, LastSeen, LastStir, NoneStirs, AllProper, AllSpare, Pooled;
    calls, n, at := [], 0, [];
    ghost var start := hub.everyone[me].lastActive;
    NoFrame(start, me, frames, between);
    var ended := false;
    while n < |frames| && !ended
      invariant n <= |frames| && (ended ==> n < |frames|)
      invariant Follows(hub, me, id) && old(hub.everyone) <= hub.everyone
      invariant forall o :: o in hub.Footprint() ==> o in old(hub.Footprint()) || fresh(o)
      invariant Delivers(frames, n, calls, at)
      invariant if ended then LastActivity(start, me, frames, between, n, hub.everyone[me].lastActive)
                else LastSeen(start, me, frames, between, n, hub.everyone[me].lastActive)
      invariant AlwaysSpare(between, me, id, keys) && old(Pooled(hub, me, keys)) ==> Pooled(hub, me, keys)
      invariant (forall i :: 0 <= i < n ==> !Ends(frames[i])) && (ended ==> Ends(frames[n]))
      decreases |frames| - n, !ended
    {
      ghost var before := hub.everyone[me].lastActive;
      ghost var at' := NextDelivered(frames, n, calls, at);
      ended, calls := Turn(hub, me, id, keys, frames[n], between[n], calls);
      NextSeen(start, me, frames, between, n, before, hub.everyone[me].lastActive);
      if !ended {
        n, at := n + 1, at';
      }
    }
  }

  /** What one handler is called with. Every data frame before the first ending one gives its
      body, once and in order; the ending one gives an error only if the read failed; OnClose
      comes last, once, when the session has left the pool, whatever happened to it meanwhile.
      Until then it stays pooled if nothing that happens is about it; events about other sessions
      do not matter, unless they use one of its `keys`. */
  method Operator(hub: Hub, id: UUID, broken: bool, now: int, ghost keys: set<string>,
                  frames: seq<Frame>, between: seq<seq<Event>>)
    returns (calls: seq<Callback>, n: nat, me: nat, ghost data: seq<Callback>, ghost at: seq<nat>)
    requires hub.Valid() && id != NIL_UUID && id !in hub.pool.sessions
    requires |frames| == |between| && forall i :: 0 <= i < |between| ==> AllProper(between[i])
    modifies hub.Footprint()
    ensures hub.Valid() && me == |old(hub.everyone)| < |hub.everyone| && fresh(hub.everyone[me])
    ensures ReadUntil(frames, n) && Delivers(frames, n, data, at)
    ensures n < |frames| ==>
              && calls == [OnConnect] + data + (if frames[n].Failed? then [OnError] else []) + [OnClose]
              && hub.everyone[me] !in hub.pool.Members() && hub.everyone[me] !in hub.running
    ensures n == |frames| ==> calls == [OnConnect] + data && hub.everyone[me] in hub.running
    ensures LastActivity(now, me, frames, between, n, hub.everyone[me].lastActive)
    ensures n == |frames| && AlwaysSpare(between, me, id, keys) ==> hub.everyone[me] in hub.pool.Members()
  {
    hide Hub.Valid, Hub.Footprint, Delivers, LastActivity, AllProper, AllSpare, AlwaysSpare;
    me := Begin(hub, id, broken, now);
    assert Pooled(hub, me, keys);
    calls, n, at := ReadLoop(hub, me, id, keys, frames, between);
    data := calls;
    calls := [OnConnect] + calls;
    if n < |frames| {
      if frames[n].Failed? {
        calls := calls + [OnError];
      }
      Leave(hub, me, id);
      calls := calls + [OnClose];
    }
  }
}
