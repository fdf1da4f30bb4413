/** server/websocket/session.go: one set of sessions behind three indexes, by id, by
    connection and by key. Each call is one atomic step: Get, Remove and part of SetKey run
    without the pool's lock in the source. */
module WebsocketPool {
  import opened Instances
  import opened Listings

  /** A connection, as far as the pool uses it: whether writes on it fail, and counters of
      what was attempted on it. `forced` counts closes of the network connection below it. */
  class Conn {
    const broken: bool
    var pings: int
    var closeFrames: int
    var forced: int
    var closes: int

    constructor (broken: bool)
      ensures this.broken == broken && pings == closeFrames == forced == closes == 0
    {
      this.broken, pings, closeFrames, forced, closes := broken, 0, 0, 0, 0;
    }
  }

  class Session {
    var id: UUID
    const conn: Conn
    var key: string
    var lastActive: int
    var pool: Pool?

    constructor (id: UUID, conn: Conn, now: int)
      ensures this.id == id && this.conn == conn && key == "" && lastActive == now && pool == null
    {
      this.id, this.conn, this.key, this.lastActive, this.pool := id, conn, "", now, null;
    }

    /** Sending counts as activity, whether or not the write succeeds. */
    method Send(now: int) returns (ok: bool)
      modifies this`lastActive
      ensures lastActive == now && ok == !conn.broken
    {
      lastActive := now;
      ok := !conn.broken;
    }

    /** The removal comes first, so a session closed by Purge leaves the pool while Purge
        holds the lock; nothing here takes the lock. */
    method Close()
      requires pool != null ==> pool.Valid() && this in pool.known
      modifies this`pool, conn, if pool != null then {pool} else {}
      ensures pool == null
      ensures old(pool) != null ==> old(pool).Valid() && old(pool).WithoutMember(this)
      ensures old(pool != null && pool.Complete()) ==> old(pool).Complete()
      ensures conn.closeFrames == old(conn.closeFrames) + 1 && conn.closes == old(conn.closes) + 1
      ensures conn.forced == old(conn.forced) + if conn.broken then 1 else 0
      ensures conn.pings == old(conn.pings)
    {
      hide Pool.Valid, Pool.Complete;
      if pool != null {
        IsLive();
        var _ := pool.RemoveByID(id);
      }
      conn.closeFrames := conn.closeFrames + 1;
      if conn.broken {
        conn.forced := conn.forced + 1;
      }
      conn.closes := conn.closes + 1;
    }

    lemma IsLive()
      requires pool != null && pool.Valid() && this in pool.known
      ensures id in pool.sessions && pool.sessions[id] == this
    {
    }

    /** Re-keys a session. On a pooled session the index invariants survive exactly when the
        new key is not empty, and every held key stays indexed exactly when no other live
        session holds the new one. */
    method SetKey(newKey: string)
      requires pool != null ==> pool.Valid() && this in pool.known && !pool.mutex.held
      modifies this`key, if pool != null then {pool, pool.mutex} else {}
      ensures key == newKey && (pool != null ==> !pool.mutex.held)
      ensures pool != null ==>
                && pool.SameButKeys()
                && pool.keys == (if old(key) != "" then old(pool.keys) - {old(key)} else old(pool.keys))[newKey := this]
      ensures pool != null ==> (pool.Valid() <==> newKey != "")
      ensures pool != null && newKey != "" && old(pool.Complete()) ==>
                (pool.Complete() <==> forall s :: s in pool.Members() && s != this ==> old(s.key) != newKey)
    {
      if pool != null {
        if key != "" {
          pool.mutex.Lock();
          pool.keys := pool.keys - {key};
          pool.mutex.Unlock();
        }
        pool.keys := pool.keys[newKey := this];
      }
      key := newKey;
      if pool != null {
        pool.RekeySoundIff(this);
        if newKey != "" && old(pool.Complete()) {
          pool.RekeyCompleteIff(this);
        }
      }
    }
  }

  /** The pool's lock. Lock blocks while the lock is held: a caller that holds it already
      would wait for itself, so not holding it is a precondition. */
  class Mutex {
    var held: bool

    constructor ()
      ensures !held
    {
      held := false;
    }

    method Lock()
      requires !held
      modifies this
      ensures held
    {
      held := true;
    }

    method Unlock()
      requires held
      modifies this
      ensures !held
    {
      held := false;
    }
  }

  /** The content of a pool at one moment, with its sessions' activity and keys and the
      counters of their connections, by session id. */
  datatype Ledger = Ledger(
    all: map<UUID, Session>, allKeys: map<string, Session>, owner: map<Conn, Session>,
    active: map<UUID, int>, held: map<UUID, string>, pings: map<UUID, int>, closes: map<UUID, int>)
  {
    ghost predicate Sound() {
      && all.Keys == active.Keys == held.Keys == pings.Keys == closes.Keys
      && forall id :: id in all ==> all[id].conn in owner && owner[all[id].conn] == all[id]
    }

    /** Every key held is indexed to its holder. */
    ghost predicate Complete()
      requires Sound()
    {
      forall id :: id in all && held[id] != "" ==> held[id] in allKeys && allKeys[held[id]] == all[id]
    }
  }

  /** One turn of Purge: the session visited, and whether it is pinged and closed. */
  datatype Turn = Turn(l: Ledger, pinged: set<UUID>, gone: set<UUID>, id: UUID, pings: bool, closes: bool)

  lemma SubtractMore<K, V>(m: map<K, V>, s: set<K>, k: K)
    ensures (m - s) - {k} == m - (s + {k})
  {
  }

  lemma SubtractAbsent<K, V>(m: map<K, V>, k: K)
    ensures k !in m ==> m - {k} == m - {}
  {
  }

  lemma SubtractKeys<K, V, W>(m: map<K, V>, s: map<K, W>, k: K, w: W)
    ensures (m - s.Keys) - {k} == m - s[k := w].Keys
  {
    assert s[k := w].Keys == s.Keys + {k};
    SubtractMore(m, s.Keys, k);
  }

  class Pool {
    const mutex: Mutex
    var sessions: map<UUID, Session>
    var conns: map<Conn, Session>
    var keys: map<string, Session>
    const pingDuration: int
    const maxIdleDuration: int
    /** Every session ever put. */
    ghost var known: set<Session>

    constructor (ping: int, idle: int)
      ensures Valid() && sessions == map[] && known == {} && fresh(mutex) && !mutex.held
      ensures pingDuration == ping && maxIdleDuration == idle
    {
      sessions, conns, keys := map[], map[], map[];
      pingDuration, maxIdleDuration := ping, idle;
      mutex := new Mutex();
      known := {};
    }

    ghost predicate Live(s: Session)
      reads this, s
    {
      s.id in sessions && sessions[s.id] == s
    }

    /** The set of sessions the pool stands for. */
    ghost function Members(): set<Session>
      reads this
    {
      sessions.Values
    }

    ghost predicate IdsSound()
      reads this, known
    {
      forall id :: id in sessions ==>
        && id != NIL_UUID && sessions[id] in known && sessions[id].id == id
        && sessions[id].conn in conns && conns[sessions[id].conn] == sessions[id]
    }

    ghost predicate ConnsSound()
      reads this, known
    {
      forall c :: c in conns ==> conns[c] in known && conns[c].conn == c && Live(conns[c])
    }

    ghost predicate KeysSound()
      reads this, known
    {
      forall k :: k in keys ==> k != "" && keys[k] in known && keys[k].key == k && Live(keys[k])
    }

    ghost predicate PointersSound()
      reads this, known
    {
      forall s :: s in known ==> (s.pool == this <==> Live(s))
    }

    /** Index soundness. */
    ghost predicate Valid()
      reads this, known
    {
      IdsSound() && ConnsSound() && KeysSound() && PointersSound()
    }

    /** Every key held by a live session leads to that session. */
    ghost predicate Complete()
      reads this, sessions.Values
    {
      forall id :: id in sessions && sessions[id].key != "" ==>
        sessions[id].key in keys && keys[sessions[id].key] == sessions[id]
    }

    twostate predicate SameButKeys()
      reads this
    {
      sessions == old(sessions) && conns == old(conns) && known == old(known)
    }

    /** The pool after taking out `s`, whatever the route. */
    twostate predicate WithoutMember(s: Session)
      reads this, s
    {
      && sessions == old(sessions) - {old(s.id)}
      && conns == old(conns) - {s.conn}
      && keys == old(keys) - (if old(s.key) != "" then {old(s.key)} else {})
      && known == old(known)
    }

    /** No session but `s` changed, and of `s` only the back pointer. */
    twostate predicate OthersSame(s: Session)
      reads this, known
    {
      forall t :: t in old(known) && t in known ==>
        t.id == old(t.id) && t.key == old(t.key) && (t != s ==> t.pool == old(t.pool))
    }

    twostate lemma RemovalSound(s: Session)
      requires old(Valid()) && old(Live(s)) && s in old(known)
      requires WithoutMember(s) && OthersSame(s) && s.pool == null
      ensures Valid()
      ensures old(Complete()) ==> Complete()
    {
      RemovalKeepsIds(s);
      RemovalKeepsConns(s);
      RemovalKeepsKeys(s);
      RemovalKeepsPointers(s);
      if old(Complete()) {
        RemovalKeepsComplete(s);
      }
    }

    twostate lemma RemovalKeepsIds(s: Session)
      requires old(IdsSound()) && old(Live(s)) && s in old(known) && WithoutMember(s) && OthersSame(s)
      ensures IdsSound()
    {
      forall id | id in sessions
        ensures id != NIL_UUID && sessions[id] in known && sessions[id].id == id
        ensures sessions[id].conn in conns && conns[sessions[id].conn] == sessions[id]
      {
        assert old(conns)[s.conn] == s;
      }
    }

    twostate lemma RemovalKeepsConns(s: Session)
      requires old(ConnsSound()) && old(IdsSound()) && old(Live(s)) && s in old(known)
      requires WithoutMember(s) && OthersSame(s)
      ensures ConnsSound()
    {
      forall c | c in conns
        ensures conns[c] in known && conns[c].conn == c && Live(conns[c])
      {
        assert old(Live(conns[c]));
      }
    }

    twostate lemma RemovalKeepsKeys(s: Session)
      requires old(KeysSound()) && old(Live(s)) && s in old(known) && WithoutMember(s) && OthersSame(s)
      ensures KeysSound()
    {
      forall k | k in keys
        ensures k != "" && keys[k] in known && keys[k].key == k && Live(keys[k])
      {
        assert old(Live(keys[k]));
      }
    }

    twostate lemma RemovalKeepsPointers(s: Session)
      requires old(PointersSound()) && old(Live(s)) && s in old(known)
      requires WithoutMember(s) && OthersSame(s) && s.pool == null
      ensures PointersSound()
    {
      forall t | t in known ensures t.pool == this <==> Live(t) {
        assert old(t.pool == this <==> Live(t));
      }
    }

    twostate lemma RemovalKeepsComplete(s: Session)
      requires old(Valid()) && old(Complete()) && old(Live(s)) && s in old(known)
      requires WithoutMember(s) && OthersSame(s)
      ensures Complete()
    {
      forall id | id in sessions && sessions[id].key != ""
        ensures sessions[id].key in keys && keys[sessions[id].key] == sessions[id]
      {
        var t := sessions[id];
        assert t in old(known) && t != s;
        assert old(keys)[t.key] == t;
        assert old(s.key) != "" ==> old(keys)[old(s.key)] == s;
      }
    }

    /** The keys index after re-keying `s`. */
    twostate predicate Rekeyed(s: Session)
      reads this, known, s
    {
      && SameButKeys()
      && keys == (if old(s.key) != "" then old(keys) - {old(s.key)} else old(keys))[s.key := s]
      && forall t :: t in known ==> t.id == old(t.id) && t.pool == old(t.pool) && (t != s ==> t.key == old(t.key))
    }

    twostate lemma RekeySoundIff(s: Session)
      requires old(Valid()) && s in old(known) && old(Live(s)) && Rekeyed(s)
      ensures Valid() <==> s.key != ""
    {
      assert IdsSound() && ConnsSound() && PointersSound() by {
        assert forall t :: t in known ==> Live(t) == old(Live(t));
      }
      if s.key != "" {
        forall k | k in keys
          ensures k != "" && keys[k] in known && keys[k].key == k && Live(keys[k])
        {
          assert k != s.key ==> old(Live(keys[k]));
        }
      } else {
        assert "" in keys;
      }
    }

    twostate lemma RekeyCompleteIff(s: Session)
      requires old(Valid()) && s in old(known) && old(Live(s)) && Rekeyed(s) && s.key != "" && old(Complete())
      ensures Complete() <==> forall t :: t in Members() && t != s ==> old(t.key) != s.key
    {
      if forall t :: t in Members() && t != s ==> old(t.key) != s.key {
        forall id | id in sessions && sessions[id].key != ""
          ensures sessions[id].key in keys && keys[sessions[id].key] == sessions[id]
        {
          var t := sessions[id];
          assert t in Members() && t in known;
          if t != s {
            assert old(keys)[t.key] == t;
            assert old(s.key) != "" ==> old(keys)[old(s.key)] == s;
          }
        }
      } else {
        var t :| t in Members() && t != s && old(t.key) == s.key;
        var id :| id in sessions && sessions[id] == t;
        assert t in known && t.key == s.key && keys[t.key] == s;
      }
    }

    /** The pool after putting `s`. */
    twostate predicate Added(s: Session)
      reads this, known, s
    {
      && s.pool == this && known == old(known) + {s}
      && sessions == old(sessions)[s.id := s] && conns == old(conns)[s.conn := s]
      && keys == (if s.key != "" then old(keys)[s.key := s] else old(keys))
      && s.key == old(s.key)
      && forall t :: t in old(known) && t != s ==> t.id == old(t.id) && t.pool == old(t.pool) && t.key == old(t.key)
    }

    /** Put again while pooled, or put with an id and a connection the pool does not hold. */
    twostate predicate FreshOrPooled(s: Session)
      reads this, s
    {
      if old(s.pool) == this then s in old(known) && s.id == old(s.id)
      else s.id != NIL_UUID && s.id !in old(sessions) && s.conn !in old(conns)
    }

    /** The whole effect of Put on soundness and completeness. */
    twostate lemma PutIff(s: Session)
      requires old(Valid()) && Added(s) && s.id != NIL_UUID
      requires old(s.pool) == this ==> s in old(known) && s.id == old(s.id)
      ensures Valid() <==> old(s.pool) == this || (s.id !in old(sessions) && s.conn !in old(conns))
      ensures Valid() && old(Complete()) ==>
                (Complete() <==> s.key == "" || forall t :: t in old(Members()) && t != s ==> old(t.key) != s.key)
    {
      if FreshOrPooled(s) {
        PutSound(s);
        if old(Complete()) {
          PutCompleteIff(s);
        }
      } else {
        PutUnsound(s);
      }
    }

    /** A session that takes the id or the connection of another leaves that one's back
        pointer or its entry by id dangling. */
    twostate lemma PutUnsound(s: Session)
      requires old(Valid()) && Added(s) && old(s.pool) != this
      requires s.id in old(sessions) || s.conn in old(conns)
      ensures !Valid()
    {
      if s.id in old(sessions) {
        var t := old(sessions)[s.id];
        assert old(Live(t)) && t in old(known) && t != s;
        assert t.pool == this && !Live(t);
      } else {
        var t := old(conns)[s.conn];
        assert old(Live(t)) && t != s && t.id != s.id;
        assert sessions[t.id] == t && conns[t.conn] == s;
      }
    }

    twostate lemma PutSound(s: Session)
      requires old(Valid()) && Added(s) && FreshOrPooled(s)
      ensures Valid()
    {
      assert old(s.pool) == this ==> old(Live(s));
      assert forall t :: t in old(known) && t != s ==> Live(t) == old(Live(t));
      PutKeepsIds(s);
      forall c | c in conns ensures conns[c] in known && conns[c].conn == c && Live(conns[c]) {
        assert c != s.conn ==> old(Live(conns[c]));
      }
      forall k | k in keys ensures k != "" && keys[k] in known && keys[k].key == k && Live(keys[k]) {
        assert keys[k] != s ==> old(Live(keys[k]));
      }
    }

    twostate lemma PutKeepsIds(s: Session)
      requires old(Valid()) && Added(s) && FreshOrPooled(s)
      ensures IdsSound()
    {
      forall id | id in sessions
        ensures id != NIL_UUID && sessions[id] in known && sessions[id].id == id
        ensures sessions[id].conn in conns && conns[sessions[id].conn] == sessions[id]
      {
        if id != s.id {
          assert old(conns)[sessions[id].conn] == sessions[id];
          assert old(s.pool) == this ==> old(conns)[s.conn] == s;
        }
      }
    }

    twostate lemma PutCompleteIff(s: Session)
      requires old(Valid()) && Added(s) && FreshOrPooled(s) && old(Complete())
      ensures Complete() <==> s.key == "" || forall t :: t in old(Members()) && t != s ==> old(t.key) != s.key
    {
      if s.key == "" || forall t :: t in old(Members()) && t != s ==> old(t.key) != s.key {
        forall id | id in sessions && sessions[id].key != ""
          ensures sessions[id].key in keys && keys[sessions[id].key] == sessions[id]
        {
          var t := sessions[id];
          if t != s {
            assert t in old(Members()) && t in old(known);
            assert old(keys)[t.key] == t;
          }
        }
      } else {
        var t :| t in old(Members()) && t != s && old(t.key) == s.key;
        var id :| id in old(sessions) && old(sessions)[id] == t;
        assert t in old(known) && id != s.id;
        assert sessions[id] == t && t.key == s.key && keys[t.key] == s;
      }
    }

    /** `newId` is what uuid.New() returns if it is called. The indexes stay sound if and only
        if the session was in this pool already, or neither its id nor its connection was in
        use; then completeness survives if and only if its key was not in use either. */
    method Put(sess: Session, newId: UUID)
      requires Valid() && !mutex.held && newId != NIL_UUID && (sess.pool == this ==> sess in known)
      modifies this, mutex, sess`id, sess`pool
      ensures !mutex.held && sess.pool == this
      ensures sess.id == if old(sess.id) == NIL_UUID then newId else old(sess.id)
      ensures sessions == old(sessions)[sess.id := sess] && conns == old(conns)[sess.conn := sess]
      ensures keys == if sess.key != "" then old(keys)[sess.key := sess] else old(keys)
      ensures known == old(known) + {sess}
      ensures Valid() <==> old(sess.pool) == this || (sess.id !in old(sessions) && sess.conn !in old(conns))
      ensures Valid() && old(Complete()) ==>
                (Complete() <==>
                 sess.key == "" || forall s :: s in old(Members()) && s != sess ==> old(s.key) != sess.key)
    {
      hide Valid, Complete;
      PooledHasId(sess);
      mutex.Lock();
      if sess.id == NIL_UUID {
        sess.id := newId;
      }
      sessions := sessions[sess.id := sess];
      conns := conns[sess.conn := sess];
      if sess.key != "" {
        keys := keys[sess.key := sess];
      }
      sess.pool := this;
      known := known + {sess};
      mutex.Unlock();
      PutIff(sess);
    }

    lemma PooledHasId(s: Session)
      requires Valid()
      ensures s in known && s.pool == this ==> s.id != NIL_UUID
    {
    }

    /** The lookups agree with a search of the set of members. */
    method GetByID(id: UUID) returns (s: Session?)
      requires Valid()
      ensures s != null ==> s in Members() && s.id == id
      ensures s == null ==> forall t :: t in Members() ==> t.id != id
    {
      s := if id in sessions then sessions[id] else null;
    }

    method GetByConn(conn: Conn) returns (s: Session?)
      requires Valid()
      ensures s != null ==> s in Members() && s.conn == conn
      ensures s == null ==> forall t :: t in Members() ==> t.conn != conn
    {
      s := if conn in conns then conns[conn] else null;
    }

    method GetByKey(key: string) returns (s: Session?)
      requires Valid()
      ensures s != null ==> s in Members() && s.key == key && key != ""
      ensures s == null && Complete() && key != "" ==> forall t :: t in Members() ==> t.key != key
    {
      s := if key in keys then keys[key] else null;
      assert s != null ==> sessions[s.id] == s;
    }

    /** Any two members that agree in a key are the same, and it is indexed, exactly in a
        complete pool: this is when lookup by key is search by key. */
    lemma CompleteIff()
      requires Valid()
      ensures Complete() <==>
              && (forall s, t :: s in Members() && t in Members() && s.key == t.key && s.key != "" ==> s == t)
              && (forall s :: s in Members() && s.key != "" ==> s.key in keys)
    {
      if Complete() {
        forall s | s in Members() && s.key != ""
          ensures s.key in keys && keys[s.key] == s
        {
          assert sessions[s.id] == s;
        }
      } else {
        var id :| id in sessions && sessions[id].key != "" &&
          !(sessions[id].key in keys && keys[sessions[id].key] == sessions[id]);
        var s := sessions[id];
        assert s in Members();
        if s.key in keys {
          var t := keys[s.key];
          assert sessions[t.id] == t;
          assert t in Members() && t.key == s.key && t != s;
        }
      }
    }

    /** The three indexes are what a search of the set of members would find, and no more. */
    ghost predicate PlainSet()
      reads this, sessions.Values
    {
      && (forall s :: s in Members() ==>
            && s.id in sessions && sessions[s.id] == s && s.conn in conns && conns[s.conn] == s
            && (s.key != "" ==> s.key in keys && keys[s.key] == s))
      && (forall id :: id in sessions ==> sessions[id].id == id)
      && (forall c :: c in conns ==> conns[c] in Members() && conns[c].conn == c)
      && (forall k :: k in keys ==> k != "" && keys[k] in Members() && keys[k].key == k)
    }

    lemma PlainSetIff()
      requires Valid()
      ensures PlainSet() <==> Complete()
    {
      forall c | c in conns ensures conns[c] in Members() {
        assert sessions[conns[c].id] == conns[c];
      }
      forall k | k in keys ensures keys[k] in Members() {
        assert sessions[keys[k].id] == keys[k];
      }
      forall s | s in Members() ensures s.id in sessions && sessions[s.id] == s {
        var id :| id in sessions && sessions[id] == s;
      }
      assert forall id :: id in sessions ==> sessions[id] in Members();
    }

    method RemoveByID(id: UUID) returns (ok: bool)
      requires Valid()
      modifies this, (if id in sessions then {sessions[id]} else {})`pool
      ensures ok == (id in old(sessions))
      ensures ok ==> Valid() && WithoutMember(old(sessions)[id]) && old(sessions)[id].pool == null
      ensures ok && old(Complete()) ==> Complete()
      ensures !ok ==> unchanged(this)
    {
      if id !in sessions {
        return false;
      }
      var sess := sessions[id];
      sessions := sessions - {id};
      conns := conns - {sess.conn};
      if sess.key != "" {
        keys := keys - {sess.key};
      }
      sess.pool := null;
      RemovalSound(sess);
      ok := true;
    }

    method RemoveByConn(conn: Conn) returns (ok: bool)
      requires Valid()
      modifies this, (if conn in conns then {conns[conn]} else {})`pool
      ensures ok == (conn in old(conns))
      ensures ok ==> Valid() && WithoutMember(old(conns)[conn]) && old(conns)[conn].pool == null
      ensures ok && old(Complete()) ==> Complete()
      ensures !ok ==> unchanged(this)
    {
      if conn !in conns {
        return false;
      }
      var sess := conns[conn];
      sessions := sessions - {sess.id};
      conns := conns - {conn};
      if sess.key != "" {
        keys := keys - {sess.key};
      }
      sess.pool := null;
      RemovalSound(sess);
      ok := true;
    }

    /** Deletes the key it was called with; for a sound index that is the session's key. */
    method RemoveByKey(key: string) returns (ok: bool)
      requires Valid()
      modifies this, (if key in keys then {keys[key]} else {})`pool
      ensures ok == (key in old(keys))
      ensures ok ==> Valid() && WithoutMember(old(keys)[key]) && old(keys)[key].pool == null
      ensures ok && old(Complete()) ==> Complete()
      ensures !ok ==> unchanged(this)
    {
      if key !in keys {
        return false;
      }
      var sess := keys[key];
      sessions := sessions - {sess.id};
      conns := conns - {sess.conn};
      keys := keys - {key};
      sess.pool := null;
      RemovalSound(sess);
      ok := true;
    }

    method Length() returns (n: nat)
      requires Valid() && !mutex.held
      modifies mutex
      ensures !mutex.held && n == |Members()|
    {
      mutex.Lock();
      n := |sessions|;
      MemberCount(sessions);
      mutex.Unlock();
    }

    lemma {:induction false} MemberCount(m: map<UUID, Session>)
      requires forall id :: id in m ==> m[id].id == id
      ensures |m| == |m.Values|
      decreases |m|
    {
      if m.Keys == {} {
        assert m == map[] && m.Values == {};
      } else {
        var id: UUID :| id in m.Keys;
        var rest := m - {id};
        assert m.Keys == rest.Keys + {id};
        MemberCount(rest);
        assert m.Values == rest.Values + {m[id]} by {
          forall s | s in m.Values ensures s in rest.Values + {m[id]} {
            assert s.id in m && m[s.id] == s;
            assert s.id != id ==> rest[s.id] == s;
          }
        }
        assert m[id] !in rest.Values;
      }
    }

    /** Sessions only ever leave. */
    twostate predicate OnlyLeave()
      reads this, known
    {
      known == old(known) && forall s :: s in known ==> s.pool == null || s.pool == old(s.pool)
    }

    lemma LiveIsPooled(s: Session)
      requires Valid() && s in known && Live(s)
      ensures s.pool == this && "" !in keys
    {
    }

    /** One turn of Purge's loop. */
    method PurgeOne(sess: Session, now: int) returns (pinged: bool, closed: bool)
      requires Valid() && sess in known && Live(sess)
      modifies this, sess`pool, sess.conn
      ensures Valid() && OnlyLeave()
      ensures pinged == (now - sess.lastActive > pingDuration)
      ensures closed == (now - sess.lastActive > maxIdleDuration)
      ensures closed ==> sessions == old(sessions) - {sess.id} && keys == old(keys) - {sess.key}
      ensures !closed ==> sessions == old(sessions) && conns == old(conns) && keys == old(keys)
      ensures sess.conn.pings == old(sess.conn.pings) + if pinged then 1 else 0
      ensures sess.conn.closes == old(sess.conn.closes) + if closed then 1 else 0
    {
      LiveIsPooled(sess);
      SubtractAbsent(keys, "");
      pinged := now - sess.lastActive > pingDuration;
      if pinged {
        sess.conn.pings := sess.conn.pings + 1;
      }
      closed := now - sess.lastActive > maxIdleDuration;
      if closed {
        sess.Close();
      }
    }

    /** What a purge has done once the sessions outside `todo` are visited: whom it pinged,
        whom it closed, and for each key it freed a closed session that held it. */
    ghost predicate Visited(active: map<UUID, int>, held: map<UUID, string>, todo: set<UUID>, now: int,
                            pinged: set<UUID>, gone: set<UUID>, freed: map<string, UUID>)
      requires active.Keys == held.Keys
    {
      && todo <= active.Keys && gone <= active.Keys - todo && pinged <= active.Keys - todo
      && (forall id :: id in active && id !in todo ==>
            && (id in pinged <==> now - active[id] > pingDuration)
            && (id in gone <==> now - active[id] > maxIdleDuration))
      && (forall id :: id in gone ==> held[id] in freed)
      && (forall k :: k in freed ==> freed[k] in gone && held[freed[k]] == k)
    }

    lemma Visit(active: map<UUID, int>, held: map<UUID, string>, todo: set<UUID>, now: int,
                pinged: set<UUID>, gone: set<UUID>, freed: map<string, UUID>, id: UUID)
      requires active.Keys == held.Keys && id in todo
      requires Visited(active, held, todo, now, pinged, gone, freed)
      ensures Visited(active, held, todo - {id}, now,
                      if now - active[id] > pingDuration then pinged + {id} else pinged,
                      if now - active[id] > maxIdleDuration then gone + {id} else gone,
                      if now - active[id] > maxIdleDuration then freed[held[id] := id] else freed)
      ensures id !in pinged && id !in gone
    {
    }

    /** What stays fixed while Purge runs. */
    ghost predicate Fixed(l: Ledger)
      requires l.Sound()
      reads this, l.all.Values
    {
      && l.all.Values <= known
      && forall id :: id in l.all ==>
           l.all[id].lastActive == l.active[id] && l.all[id].key == l.held[id] && l.all[id].id == id
    }

    /** The connections' counters, given whom Purge pinged and closed so far. */
    ghost predicate Counted(l: Ledger, pinged: set<UUID>, gone: set<UUID>)
      requires l.Sound()
      reads l.owner.Keys
    {
      forall id :: id in l.all ==> CountedOne(l, id, id in pinged, id in gone)
    }

    ghost predicate CountedOne(l: Ledger, id: UUID, pinged: bool, gone: bool)
      requires l.Sound() && id in l.all
      reads l.owner.Keys
    {
      && l.all[id].conn.pings == l.pings[id] + (if pinged then 1 else 0)
      && l.all[id].conn.closes == l.closes[id] + (if gone then 1 else 0)
    }

    /** The invariant of Purge's loop, over the pool content noted when it started. */
    ghost predicate Purging(l: Ledger, todo: set<UUID>, now: int,
                            pinged: set<UUID>, gone: set<UUID>, freed: map<string, UUID>)
      requires l.Sound()
      reads this, known, l.all.Values, l.owner.Keys
    {
      && Valid() && Fixed(l) && todo <= l.all.Keys
      && Visited(l.active, l.held, todo, now, pinged, gone, freed)
      && sessions == l.all - gone && keys == l.allKeys - freed.Keys
      && Counted(l, pinged, gone)
    }

    twostate predicate SameSessions(l: Ledger)
      reads l.all.Values
    {
      forall s :: s in l.all.Values ==> s.lastActive == old(s.lastActive) && s.key == old(s.key) && s.id == old(s.id)
    }

    twostate predicate OnlyConn(l: Ledger, conn: Conn)
      reads l.owner.Keys
    {
      forall o :: o in l.owner && o != conn ==> o.pings == old(o.pings) && o.closes == old(o.closes)
    }

    twostate lemma FixedStays(l: Ledger)
      requires l.Sound() && old(Fixed(l)) && known == old(known) && SameSessions(l)
      ensures Fixed(l)
    {
    }

    twostate lemma CountedNext(t: Turn)
      requires t.l.Sound() && old(Counted(t.l, t.pinged, t.gone)) && Fixed(t.l)
      requires t.id in t.l.all && t.id !in t.pinged && t.id !in t.gone
      requires var conn := t.l.all[t.id].conn;
               && OnlyConn(t.l, conn)
               && conn.pings == old(conn.pings) + (if t.pings then 1 else 0)
               && conn.closes == old(conn.closes) + if t.closes then 1 else 0
      ensures Counted(t.l, if t.pings then t.pinged + {t.id} else t.pinged,
                      if t.closes then t.gone + {t.id} else t.gone)
    {
      var pinged := if t.pings then t.pinged + {t.id} else t.pinged;
      var gone := if t.closes then t.gone + {t.id} else t.gone;
      forall i | i in t.l.all ensures CountedOne(t.l, i, i in pinged, i in gone) {
        assert old(CountedOne(t.l, i, i in t.pinged, i in t.gone));
        if i != t.id {
          OwnConns(t.l, i, t.id);
        }
      }
    }

    lemma OwnConns(l: Ledger, i: UUID, j: UUID)
      requires l.Sound() && Fixed(l) && i in l.all && j in l.all && i != j
      ensures l.all[i].conn != l.all[j].conn
    {
      assert l.owner[l.all[i].conn] == l.all[i] && l.owner[l.all[j].conn] == l.all[j];
    }

    /** PurgeOne, against the content noted at the start. */
    method PurgeNoted(ghost l: Ledger, ghost pinged: set<UUID>, ghost gone: set<UUID>, sess: Session, now: int)
      returns (p: bool, c: bool)
      requires Valid() && sess in known && Live(sess)
      requires l.Sound() && Fixed(l) && Counted(l, pinged, gone)
      requires sess.id in l.all && l.all[sess.id] == sess && sess.id !in pinged && sess.id !in gone
      modifies this, sess`pool, sess.conn
      ensures Valid() && OnlyLeave() && known == old(known)
      ensures p == (now - sess.lastActive > pingDuration)
      ensures c == (now - sess.lastActive > maxIdleDuration)
      ensures c ==> sessions == old(sessions) - {sess.id} && keys == old(keys) - {sess.key}
      ensures !c ==> sessions == old(sessions) && keys == old(keys)
      ensures Fixed(l) && Counted(l, if p then pinged + {sess.id} else pinged, if c then gone + {sess.id} else gone)
    {
      hide Valid, Counted, OnlyLeave, Fixed;
      p, c := PurgeOne(sess, now);
      FixedStays(l);
      CountedNext(Turn(l, pinged, gone, sess.id, p, c));
    }

    /** The loop of Purge. A range over a map skips entries deleted before they are reached;
        here the only entry deleted in a turn is the one just visited. */
    method PurgeTurn(ghost l: Ledger, ghost todo: set<UUID>, id: UUID, now: int,
                     ghost pinged: set<UUID>, ghost gone: set<UUID>, ghost freed: map<string, UUID>)
      returns (ghost pinged': set<UUID>, ghost gone': set<UUID>, ghost freed': map<string, UUID>)
      requires l.Sound() && id in todo && Purging(l, todo, now, pinged, gone, freed)
      modifies this, known`pool, l.owner.Keys
      ensures OnlyLeave()
      ensures Purging(l, todo - {id}, now, pinged', gone', freed')
    {
      hide Valid, Visited, Counted, OnlyLeave;
      Visit(l.active, l.held, todo, now, pinged, gone, freed, id);
      SubtractMore(l.all, gone, id);
      SubtractKeys(l.allKeys, freed, l.held[id], id);
      assert l.all[id] in l.all.Values;
      assert id in sessions && sessions[id] == l.all[id];
      var sess := sessions[id];
      var p, c := PurgeNoted(l, pinged, gone, sess, now);
      pinged' := if p then pinged + {id} else pinged;
      gone', freed' := if c then gone + {id} else gone, if c then freed[sess.key := id] else freed;
      assert sessions == l.all - gone' && keys == l.allKeys - freed'.Keys;
    }

    lemma StartVisits(active: map<UUID, int>, held: map<UUID, string>, now: int)
      requires active.Keys == held.Keys
      ensures Visited(active, held, active.Keys, now, {}, {}, map[])
    {
    }

    ghost function Noted(): Ledger
      requires Valid()
      reads this, known, conns.Keys
      ensures Noted().Sound()
    {
      Ledger(sessions, keys, conns,
             map id | id in sessions :: sessions[id].lastActive, map id | id in sessions :: sessions[id].key,
             map id | id in sessions :: sessions[id].conn.pings, map id | id in sessions :: sessions[id].conn.closes)
    }

    lemma NotedComplete()
      requires Valid()
      ensures Noted().Complete() <==> Complete()
    {
    }

    lemma StartPurging(now: int)
      requires Valid()
      ensures Purging(Noted(), sessions.Keys, now, {}, {}, map[])
    {
      StartVisits(Noted().active, Noted().held, now);
      assert sessions - {} == sessions && keys - {} == keys;
    }

    method PurgeAll(now: int)
      requires Valid()
      modifies this, known`pool, conns.Keys
      ensures Valid() && OnlyLeave()
      ensures Purged(old(Noted()), now) && Fixed(old(Noted()))
    {
      hide Fixed, Purging, Purged, Valid;
      ghost var l := Noted();
      var todo := sessions.Keys;
      ghost var pinged: set<UUID>, gone: set<UUID>, freed: map<string, UUID> := {}, {}, map[];
      StartPurging(now);
      while todo != {}
        invariant OnlyLeave() && Purging(l, todo, now, pinged, gone, freed)
        decreases todo
      {
        var id :| id in todo;
        pinged, gone, freed := PurgeTurn(l, todo, id, now, pinged, gone, freed);
        todo := todo - {id};
      }
      PurgingEnds(l, now, pinged, gone, freed);
    }

    /** With a positive idle limit, exactly the sessions within the limit stay, and exactly
        the keys held by removed ones are freed; one ping is attempted for each session
        silent beyond the ping limit and one close for each removed one. The lock is taken
        once: Close gets by without it. */
    method Purge(now: int)
      requires Valid() && !mutex.held
      modifies this, mutex, known`pool, conns.Keys
      ensures Valid() && !mutex.held && OnlyLeave()
      ensures old(Complete()) ==> Complete()
      ensures maxIdleDuration <= 0 ==> unchanged(this) && forall c :: c in conns ==> unchanged(c)
      ensures maxIdleDuration > 0 ==> Purged(old(Noted()), now) && Fixed(old(Noted()))
    {
      hide Purged, Noted, Valid, Complete, Fixed, Ledger.Complete;
      if maxIdleDuration > 0 {
        ghost var l := Noted();
        NotedComplete();
        mutex.Lock();
        assert l == Noted();
        PurgeAll(now);
        assert Purged(l, now) && Fixed(l);
        mutex.Unlock();
        assert Purged(l, now) && Fixed(l);
        if old(Complete()) {
          PurgedComplete(l, now);
        }
      }
    }

    /** The keys of the sessions that stay are not among those that are freed. */
    lemma PurgedComplete(l: Ledger, now: int)
      requires Valid() && l.Sound() && Purged(l, now) && Fixed(l) && l.Complete()
      ensures Complete()
    {
    }

    /** The outcome of a purge, said without the loop. */
    ghost predicate Purged(l: Ledger, now: int)
      requires l.Sound()
      reads this, l.owner.Keys
    {
      && (forall id :: id in sessions <==> id in l.all && now - l.active[id] <= maxIdleDuration)
      && (forall id :: id in sessions ==> sessions[id] == l.all[id])
      && (forall k :: k in keys <==>
            k in l.allKeys && forall id :: id in l.all && now - l.active[id] > maxIdleDuration ==> l.held[id] != k)
      && (forall k :: k in keys ==> keys[k] == l.allKeys[k])
      && (forall id :: id in l.all ==>
            && l.all[id].conn.pings == l.pings[id] + (if now - l.active[id] > pingDuration then 1 else 0)
            && l.all[id].conn.closes == l.closes[id] + (if now - l.active[id] > maxIdleDuration then 1 else 0))
    }

    lemma PurgingEnds(l: Ledger, now: int, pinged: set<UUID>, gone: set<UUID>, freed: map<string, UUID>)
      requires l.Sound() && Purging(l, {}, now, pinged, gone, freed)
      ensures Valid() && Purged(l, now) && Fixed(l)
    {
      hide Valid;
      assert forall id :: id in l.all ==> CountedOne(l, id, id in pinged, id in gone);
    }

    /** When nobody is idle, a purge removes and closes nothing. */
    method PurgeAgain(now: int)
      requires Valid() && !mutex.held
      requires forall id :: id in sessions ==> now - sessions[id].lastActive <= maxIdleDuration
      modifies this, mutex, known`pool, conns.Keys
      ensures Valid() && !mutex.held && sessions.Keys == old(sessions.Keys)
      ensures forall id :: id in old(sessions) ==> old(sessions)[id].conn.closes == old(sessions[id].conn.closes)
    {
      Purge(now);
    }

    /** Nobody left is idle, and nobody removed has a connection in the pool. */
    lemma PurgeLeaves(l: Ledger, now: int)
      requires Valid() && l.Sound() && Purged(l, now) && Fixed(l)
      ensures forall id :: id in sessions <==> id in l.all && now - l.active[id] <= maxIdleDuration
      ensures forall id :: id in sessions ==> now - sessions[id].lastActive <= maxIdleDuration
      ensures forall id :: id in sessions ==> sessions[id] == l.all[id]
      ensures forall c :: c in conns ==> c in l.owner
      ensures forall id :: id in l.all && now - l.active[id] > maxIdleDuration ==> l.all[id].conn !in conns
      ensures forall id :: id in l.all ==>
                l.all[id].conn.closes == l.closes[id] + if now - l.active[id] > maxIdleDuration then 1 else 0
    {
      forall c | c in conns ensures c in l.owner && Live(l.owner[c]) {
        assert Live(conns[c]) && l.all[conns[c].id] == conns[c];
      }
    }

    /** Purging again at the same instant closes nothing more. */
    method PurgeTwice(now: int)
      requires Valid() && !mutex.held && maxIdleDuration > 0
      modifies this, mutex, known`pool, conns.Keys
      ensures Valid()
      ensures forall id :: id in sessions <==>
                id in old(sessions) && now - old(sessions[id].lastActive) <= maxIdleDuration
      ensures forall id :: id in old(sessions) ==>
                old(sessions)[id].conn.closes ==
                old(sessions[id].conn.closes) + if now - old(sessions[id].lastActive) > maxIdleDuration then 1 else 0
    {
      hide Valid, Purged, Fixed, Complete;
      ghost var l := Noted();
      Purge(now);
      assert Purged(l, now) && Fixed(l);
      PurgeLeaves(l, now);
      PurgeAgain(now);
    }
  }
}
