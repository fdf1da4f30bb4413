/** registry/redis/redis.go: the shared hash behind the discovery protocol. */
module RedisRegistry {
  import opened Instances
  import opened Listings
  import opened Grouping
  import opened Stores
  import RegistryPool
  import Protocol = Discovery

  /** The libraries' part: printing ids, JSON both ways. */
  datatype Codec = Codec(printId: UUID -> string, encode: Instance -> string, decode: string -> Option<Instance>)

  ghost predicate Faithful(c: Codec) {
    && (forall x :: c.decode(c.encode(x)) == Some(x))
    && (forall a, b :: c.printId(a) == c.printId(b) ==> a == b)
  }

  type Hash = map<string, string>

  /** The decodable entries of the hash are exactly the instances of the store, each under
      its printed id. Entries that do not decode may be present; Load skips them. */
  ghost predicate Represents(c: Codec, hash: Hash, store: Store) {
    && OwnKeys(store)
    && (forall id :: id in store ==> c.printId(id) in hash && c.decode(hash[c.printId(id)]) == Some(store[id]))
    && (forall k :: k in hash && c.decode(hash[k]).Some? ==>
          var x := c.decode(hash[k]).value; k == c.printId(x.id) && x.id in store && store[x.id] == x)
  }

  /** The loop of Load, over the entries in some order. */
  function DecodeAll(c: Codec, order: seq<string>, hash: Hash): seq<Instance>
    requires forall k :: k in order ==> k in hash
  {
    if order == [] then []
    else
      var rest := DecodeAll(c, order[..|order| - 1], hash);
      match c.decode(hash[order[|order| - 1]])
      case Some(x) => rest + [x]
      case None => rest
  }

  function Ids(ins: seq<Instance>): (ids: seq<UUID>)
    ensures |ids| == |ins|
    ensures forall i :: 0 <= i < |ins| ==> ids[i] == ins[i].id
  {
    seq(|ins|, i requires 0 <= i < |ins| => ins[i].id)
  }

  lemma {:induction false} DecodedOnce(c: Codec, order: seq<string>, hash: Hash, store: Store)
    requires Represents(c, hash, store)
    requires forall k :: k in order ==> k in hash
    requires Distinct(order)
    ensures var ins := DecodeAll(c, order, hash);
            && (forall x :: x in ins ==> x.id in store && store[x.id] == x && c.printId(x.id) in order)
            && (forall id :: id in store && c.printId(id) in order ==> store[id] in ins)
            && (forall i, j :: 0 <= i < j < |ins| ==> ins[i].id != ins[j].id)
  {
    if order != [] {
      var n := |order| - 1;
      var init := order[..n];
      DecodedOnce(c, init, hash, store);
      assert forall k :: k in order <==> k in init || k == order[n];
      assert order[n] !in init;
    }
  }

  /** Whatever order HGetAll's entries come in, Load lists the store. */
  lemma LoadListsStore(c: Codec, order: seq<string>, hash: Hash, store: Store)
    requires Represents(c, hash, store) && Lists(order, hash.Keys)
    ensures var ins := DecodeAll(c, order, hash);
            Lists(Ids(ins), store.Keys) && ins == Pick(Ids(ins), store)
  {
    var ins := DecodeAll(c, order, hash);
    DecodedOnce(c, order, hash, store);
    forall id | id in store.Keys ensures id in Ids(ins) {
      assert store[id] in ins;
      var i :| 0 <= i < |ins| && ins[i] == store[id];
      assert Ids(ins)[i] == id;
    }
    forall id | id in Ids(ins) ensures id in store.Keys {
      var i :| 0 <= i < |ins| && Ids(ins)[i] == id;
      assert ins[i] in ins;
    }
    forall i | 0 <= i < |ins| ensures ins[i] == store[Ids(ins)[i]] {
      assert ins[i] in ins;
    }
  }

  /** The hash holds the current store of the protocol. */
  ghost predicate Holds(c: Codec, hash: Hash, s: Protocol.State) {
    s.history != [] && Represents(c, hash, Protocol.StoreOf(s))
  }

  /** HSet of a registration is the protocol's write: every other id keeps its instance. */
  lemma PutRepresents(c: Codec, hash: Hash, s: Protocol.State, x: Instance)
    requires Faithful(c) && Holds(c, hash, s)
    ensures Protocol.Enabled(s, Protocol.Put(x))
    ensures Holds(c, hash[c.printId(x.id) := c.encode(x)], Protocol.Apply(s, Protocol.Put(x)))
    ensures Represents(c, hash[c.printId(x.id) := c.encode(x)], Protocol.StoreOf(s)[x.id := x])
  {
  }

  /** HDel is the protocol's delete: every other id keeps its instance. */
  lemma DelRepresents(c: Codec, hash: Hash, s: Protocol.State, id: UUID)
    requires Faithful(c) && Holds(c, hash, s)
    ensures Protocol.Enabled(s, Protocol.Del(id))
    ensures Holds(c, hash - {c.printId(id)}, Protocol.Apply(s, Protocol.Del(id)))
    ensures Represents(c, hash - {c.printId(id)}, Protocol.StoreOf(s) - {id})
  {
  }

  lemma TwoSteps(s: Protocol.State, a: Protocol.Step, b: Protocol.Step)
    requires Protocol.ValidRun(s, [a, b])
    ensures Protocol.Enabled(s, a) && Protocol.Enabled(Protocol.Apply(s, a), b)
    ensures Protocol.Final(s, [a, b]) == Protocol.Apply(Protocol.Apply(s, a), b)
  {
    hide Protocol.Apply, Protocol.Enabled;
    assert [a, b][1..] == [b] && [b][1..] == [];
    assert Protocol.Final(Protocol.Apply(s, a), [b]) == Protocol.Apply(Protocol.Apply(s, a), b);
  }

  /** What one undisturbed turn of a watcher installs in the protocol. */
  lemma TurnInstalls(s: Protocol.State, n: nat, order: seq<UUID>)
    requires s.history != [] && OwnKeys(Protocol.StoreOf(s))
    requires Protocol.ValidRun(s, [Protocol.Load(n), Protocol.Purge(n, order)])
    ensures var f := Protocol.Final(s, [Protocol.Load(n), Protocol.Purge(n, order)]);
            n < |f.nodes| && f.nodes[n].pool == GroupsOf(Protocol.StoreOf(s))
  {
    hide Protocol.ValidRun, Protocol.Final, GroupsOf, Group, Pick;
    TwoSteps(s, Protocol.Load(n), Protocol.Purge(n, order));
    ListingGroups(Protocol.StoreOf(s), order);
  }

  class Redis {
    const codec: Codec
    var hash: Hash
    var published: seq<string>

    constructor (codec: Codec)
      ensures this.codec == codec && hash == map[] && published == []
    {
      this.codec := codec;
      hash := map[];
      published := [];
    }

    /** A failed publish is not reported: Register's result is that of the write. */
    method Register(x: Instance, writeOk: bool, publishOk: bool) returns (ok: bool)
      requires Faithful(codec)
      modifies this
      ensures ok == writeOk
      ensures !ok ==> hash == old(hash) && published == old(published)
      ensures ok ==> forall s :: Holds(codec, old(hash), s) ==>
                && Protocol.Enabled(s, Protocol.Put(x)) && Holds(codec, hash, Protocol.Apply(s, Protocol.Put(x)))
                && Represents(codec, hash, Protocol.StoreOf(s)[x.id := x])
      ensures ok && publishOk ==> published == old(published) + [codec.printId(x.id)]
      ensures !publishOk ==> published == old(published)
    {
      hide Represents, Faithful;
      if !writeOk {
        return false;
      }
      hash := hash[codec.printId(x.id) := codec.encode(x)];
      forall s | Holds(codec, old(hash), s)
        ensures Protocol.Enabled(s, Protocol.Put(x)) && Holds(codec, hash, Protocol.Apply(s, Protocol.Put(x)))
        ensures Represents(codec, hash, Protocol.StoreOf(s)[x.id := x])
      {
        PutRepresents(codec, old(hash), s, x);
      }
      if publishOk {
        published := published + [codec.printId(x.id)];
      }
      ok := true;
    }

    /** Deregister does report a failed publish, although the entry is gone. */
    method Deregister(id: UUID, writeOk: bool, publishOk: bool) returns (ok: bool)
      requires Faithful(codec)
      modifies this
      ensures ok == (writeOk && publishOk)
      ensures !writeOk ==> hash == old(hash)
      ensures writeOk ==> forall s :: Holds(codec, old(hash), s) ==>
                && Protocol.Enabled(s, Protocol.Del(id)) && Holds(codec, hash, Protocol.Apply(s, Protocol.Del(id)))
                && Represents(codec, hash, Protocol.StoreOf(s) - {id})
      ensures published == if ok then old(published) + [codec.printId(id)] else old(published)
    {
      hide Represents, Faithful;
      if !writeOk {
        return false;
      }
      hash := hash - {codec.printId(id)};
      forall s | Holds(codec, old(hash), s)
        ensures Protocol.Enabled(s, Protocol.Del(id)) && Holds(codec, hash, Protocol.Apply(s, Protocol.Del(id)))
        ensures Represents(codec, hash, Protocol.StoreOf(s) - {id})
      {
        DelRepresents(codec, old(hash), s, id);
      }
      if publishOk {
        published := published + [codec.printId(id)];
      }
      ok := publishOk;
    }

    /** None is the error of a failed HGetAll. */
    method Load(answers: bool) returns (loaded: Option<seq<Instance>>)
      ensures loaded.Some? <==> answers
      ensures loaded.Some? ==>
                forall store :: Represents(codec, hash, store) ==>
                  Lists(Ids(loaded.value), store.Keys) && loaded.value == Pick(Ids(loaded.value), store)
    {
      if !answers {
        return None;
      }
      var ins := LoadAll();
      loaded := Some(ins);
    }

    method LoadAll() returns (ins: seq<Instance>)
      ensures exists order :: Lists(order, hash.Keys) && ins == DecodeAll(codec, order, hash)
      ensures forall store :: Represents(codec, hash, store) ==>
                Lists(Ids(ins), store.Keys) && ins == Pick(Ids(ins), store)
    {
      var order := AnyOrder(hash.Keys);
      ins := [];
      for i := 0 to |order|
        invariant ins == DecodeAll(codec, order[..i], hash)
      {
        assert order[..i + 1][..i] == order[..i];
        match codec.decode(hash[order[i]])
        case Some(x) => ins := ins + [x];
        case None =>
      }
      assert order[..|order|] == order;
      forall store | Represents(codec, hash, store)
        ensures Lists(Ids(ins), store.Keys) && ins == Pick(Ids(ins), store)
      {
        LoadListsStore(codec, order, hash, store);
      }
    }

    /** One turn of Watch's loop, when nothing is written between its load and its purge: it
        installs what the protocol's load and swap install on any node. A failed load leaves
        the pool as it is. */
    method Reload(registry: RegistryPool.Registry, answers: bool)
      modifies registry
      ensures !answers ==> registry.currentPool == old(registry.currentPool)
      ensures answers ==>
                && registry.currentPool != null
                && forall store :: Represents(codec, hash, store) ==>
                     registry.currentPool.View() == GroupsOf(store)
      ensures answers ==> forall s, n: nat, order ::
                Holds(codec, hash, s) && Protocol.ValidRun(s, [Protocol.Load(n), Protocol.Purge(n, order)]) ==>
                  var f := Protocol.Final(s, [Protocol.Load(n), Protocol.Purge(n, order)]);
                  n < |f.nodes| && registry.currentPool.View() == f.nodes[n].pool
    {
      var loaded := Load(answers);
      if loaded.None? {
        return;
      }
      var ins := loaded.value;
      registry.PurgePool(ins);
      forall store | Represents(codec, hash, store)
        ensures registry.currentPool.View() == GroupsOf(store)
      {
        ListingGroups(store, Ids(ins));
      }
      forall s, n: nat, order |
        Holds(codec, hash, s) && Protocol.ValidRun(s, [Protocol.Load(n), Protocol.Purge(n, order)])
        ensures var f := Protocol.Final(s, [Protocol.Load(n), Protocol.Purge(n, order)]);
                n < |f.nodes| && registry.currentPool.View() == f.nodes[n].pool
      {
        TurnInstalls(s, n, order);
      }
    }
  }
}
