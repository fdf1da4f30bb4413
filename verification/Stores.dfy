/** Grouping applied to a store keyed by instance id, as the Redis hash is. */
module Stores {
  import opened Instances
  import opened Listings
  import opened Grouping

  type Store = map<UUID, Instance>

  /** Every instance is stored under its own id. */
  ghost predicate OwnKeys(store: Store) {
    forall id :: id in store ==> store[id].id == id
  }

  function NamesOf(store: Store): set<string> {
    set id | id in store :: store[id].serviceName
  }

  /** The grouping of a store, independent of any visiting order. */
  function GroupsOf(store: Store): Groups {
    map name | name in NamesOf(store) ::
      map id | id in store && store[id].serviceName == name :: store[id]
  }

  lemma GroupsOfLookup(store: Store, name: string, id: UUID)
    ensures Lookup(GroupsOf(store), name, id) ==
            if id in store && store[id].serviceName == name then Some(store[id]) else None
  {
  }

  /** Whatever order HGetAll's result is visited in, purging gives the same pool. */
  lemma ListingGroups(store: Store, order: seq<UUID>)
    requires OwnKeys(store) && Lists(order, store.Keys)
    ensures Group(Pick(order, store)) == GroupsOf(store)
  {
    var ins, g := Pick(order, store), GroupsOf(store);
    forall name | name in g ensures g[name] != map[] {
      var id: UUID :| id in store && store[id].serviceName == name;
      assert id in g[name];
    }
    forall i | LastInList(ins, i)
      ensures Lookup(g, ins[i].serviceName, ins[i].id) == Some(ins[i])
    {
      assert order[i] in store;
    }
    forall name, id | name in g && id in g[name] ensures g[name][id] in ins {
      var i :| 0 <= i < |order| && order[i] == id;
      assert ins[i] == g[name][id];
    }
    GroupingUnique(ins, g);
  }

  /** Grouping loses nothing: different stores have different groupings. */
  lemma GroupsOfInjective(a: Store, b: Store)
    ensures GroupsOf(a) == GroupsOf(b) <==> a == b
  {
    if GroupsOf(a) == GroupsOf(b) {
      forall id | id in a ensures id in b && b[id] == a[id] {
        GroupsOfLookup(a, a[id].serviceName, id);
        GroupsOfLookup(b, a[id].serviceName, id);
      }
      forall id | id in b ensures id in a {
        GroupsOfLookup(a, b[id].serviceName, id);
        GroupsOfLookup(b, b[id].serviceName, id);
      }
    }
  }
}
