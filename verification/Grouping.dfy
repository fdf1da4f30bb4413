/** The nested map PurgePool builds: instances grouped by service name, then by id. */
module Grouping {
  import opened Instances
  import opened LastWrite

  type Groups = map<string, map<UUID, Instance>>

  /** GetService, RegisterService if missing, RegisterInstance: one turn of PurgePool. */
  function Insert(g: Groups, x: Instance): Groups {
    var group := if x.serviceName in g then g[x.serviceName] else map[];
    g[x.serviceName := group[x.id := x]]
  }

  function Group(ins: seq<Instance>): Groups {
    if ins == [] then map[] else Insert(Group(ins[..|ins| - 1]), ins[|ins| - 1])
  }

  /** Pool.GetInstance on the grouped view. */
  function Lookup(g: Groups, name: string, id: UUID): Option<Instance> {
    if name in g && id in g[name] then Some(g[name][id]) else None
  }

  /** No service without instances. */
  ghost predicate NoEmptyService(g: Groups) {
    forall name :: name in g ==> g[name] != map[]
  }

  /** Outer and inner keys match the names and ids stored under them. */
  ghost predicate KeysMatch(g: Groups) {
    forall name, id :: name in g && id in g[name] ==> g[name][id].serviceName == name && g[name][id].id == id
  }

  ghost predicate WellFormed(g: Groups) {
    NoEmptyService(g) && KeysMatch(g)
  }

  type Key = (string, UUID)

  function KeyOf(x: Instance): Key {
    (x.serviceName, x.id)
  }

  /** No later instance of the list has the same service name and id. */
  ghost predicate LastInList(ins: seq<Instance>, i: int) {
    0 <= i < |ins| && forall j :: i < j < |ins| ==> KeyOf(ins[j]) != KeyOf(ins[i])
  }

  /** "Group by service name, the last instance per id wins", without reference to the loop. */
  ghost predicate IsGrouping(ins: seq<Instance>, g: Groups) {
    && WellFormed(g)
    && (forall i :: LastInList(ins, i) ==> Lookup(g, ins[i].serviceName, ins[i].id) == Some(ins[i]))
    && (forall name, id :: name in g && id in g[name] ==> g[name][id] in ins)
  }

  function Keyed(ins: seq<Instance>): (ws: seq<(Key, Instance)>)
    ensures |ws| == |ins|
    ensures forall i :: 0 <= i < |ins| ==> ws[i] == (KeyOf(ins[i]), ins[i])
  {
    seq(|ins|, i requires 0 <= i < |ins| => (KeyOf(ins[i]), ins[i]))
  }

  lemma {:induction false} GroupIsWellFormed(ins: seq<Instance>)
    ensures WellFormed(Group(ins))
  {
    if ins != [] {
      GroupIsWellFormed(ins[..|ins| - 1]);
      var x := ins[|ins| - 1];
      assert x.id in Group(ins)[x.serviceName];
    }
  }

  /** The nested map is the flat map keyed by (name, id). */
  lemma {:induction false} GroupIsFlat(ins: seq<Instance>, name: string, id: UUID)
    ensures var flat := Writes(Keyed(ins));
            Lookup(Group(ins), name, id) == if (name, id) in flat then Some(flat[(name, id)]) else None
  {
    if ins != [] {
      var n := |ins| - 1;
      GroupIsFlat(ins[..n], name, id);
      assert Keyed(ins)[..n] == Keyed(ins[..n]);
    }
  }

  /** PurgePool's loop meets its specification. */
  lemma GroupSpec(ins: seq<Instance>)
    ensures IsGrouping(ins, Group(ins))
  {
    var g, ws := Group(ins), Keyed(ins);
    GroupIsWellFormed(ins);
    forall i | LastInList(ins, i)
      ensures Lookup(g, ins[i].serviceName, ins[i].id) == Some(ins[i])
    {
      forall j | i < j < |ws| ensures ws[j].0 != ws[i].0 {
        assert KeyOf(ins[j]) != KeyOf(ins[i]);
      }
      LastDecides(ws, i);
      GroupIsFlat(ins, ins[i].serviceName, ins[i].id);
    }
    forall name, id | name in g && id in g[name]
      ensures g[name][id] in ins
    {
      GroupIsFlat(ins, name, id);
      WritesKeys(ws);
      assert ((name, id), g[name][id]) in ws;
    }
  }

  /** Every listed instance has an entry, under its own name and id. */
  lemma ListedIsPresent(ins: seq<Instance>, x: Instance)
    requires x in ins
    ensures x.serviceName in Group(ins) && x.id in Group(ins)[x.serviceName]
  {
    GroupIsFlat(ins, x.serviceName, x.id);
    WritesKeys(Keyed(ins));
    var i :| 0 <= i < |ins| && ins[i] == x;
    assert Keyed(ins)[i] in Keyed(ins);
  }

  lemma SameLookup(g: Groups, h: Groups)
    requires NoEmptyService(g) && NoEmptyService(h)
    requires forall name, id :: Lookup(g, name, id) == Lookup(h, name, id)
    ensures g == h
  {
    forall name | name in g ensures name in h && g[name] == h[name] {
      SameService(g, h, name);
    }
    forall name | name in h ensures name in g {
      SameService(h, g, name);
    }
  }

  lemma SameService(g: Groups, h: Groups, name: string)
    requires NoEmptyService(g) && name in g
    requires forall n, id :: Lookup(g, n, id) == Lookup(h, n, id)
    ensures name in h && g[name] == h[name]
  {
    assert g[name].Keys != {} by {
      assert g[name] != map[];
    }
    var some: UUID :| some in g[name].Keys;
    assert Lookup(g, name, some) == Lookup(h, name, some);
    forall id | id in g[name] ensures id in h[name] && h[name][id] == g[name][id] {
      assert Lookup(g, name, id) == Lookup(h, name, id);
    }
    forall id | id in h[name] ensures id in g[name] {
      assert Lookup(g, name, id) == Lookup(h, name, id);
    }
  }

  /** The specification leaves PurgePool no choice. */
  lemma GroupingUnique(ins: seq<Instance>, g: Groups)
    requires IsGrouping(ins, g)
    ensures g == Group(ins)
  {
    GroupSpec(ins);
    forall name, id
      ensures Lookup(g, name, id) == Lookup(Group(ins), name, id)
    {
      LookupDecided(ins, g, Group(ins), name, id);
      LookupDecided(ins, Group(ins), g, name, id);
    }
    SameLookup(g, Group(ins));
  }

  lemma LookupDecided(ins: seq<Instance>, g: Groups, h: Groups, name: string, id: UUID)
    requires IsGrouping(ins, g) && IsGrouping(ins, h)
    ensures Lookup(g, name, id).Some? ==> Lookup(h, name, id) == Lookup(g, name, id)
  {
    if name in g && id in g[name] {
      var i :| 0 <= i < |ins| && ins[i] == g[name][id];
      var j := LastOccurrence(ins, i);
      assert Lookup(g, name, id) == Some(ins[j]) == Lookup(h, name, id);
    }
  }

  lemma LastOccurrence(ins: seq<Instance>, i: nat) returns (j: nat)
    requires i < |ins|
    ensures LastInList(ins, j) && KeyOf(ins[j]) == KeyOf(ins[i])
  {
    j := HasLast(Keyed(ins), i);
    forall k | j < k < |ins| ensures KeyOf(ins[k]) != KeyOf(ins[j]) {
      assert Keyed(ins)[k].0 != Keyed(ins)[j].0;
    }
  }

  /** Instances with the same service name and id are the same instance. */
  ghost predicate DistinctKeys(ins: seq<Instance>) {
    forall x, y :: x in ins && y in ins && KeyOf(x) == KeyOf(y) ==> x == y
  }

  /** Without clashing instances only the membership of the list matters. */
  lemma SameMembersSameGroups(a: seq<Instance>, b: seq<Instance>)
    requires DistinctKeys(a)
    requires forall x :: x in a <==> x in b
    ensures Group(a) == Group(b)
  {
    KeyedMembers(a);
    KeyedMembers(b);
    SameWrites(Keyed(a), Keyed(b));
    forall name, id
      ensures Lookup(Group(a), name, id) == Lookup(Group(b), name, id)
    {
      GroupIsFlat(a, name, id);
      GroupIsFlat(b, name, id);
    }
    GroupIsWellFormed(a);
    GroupIsWellFormed(b);
    SameLookup(Group(a), Group(b));
  }

  lemma KeyedMembers(ins: seq<Instance>)
    ensures forall w: (Key, Instance) :: w in Keyed(ins) <==> w.1 in ins && w.0 == KeyOf(w.1)
  {
    forall w: (Key, Instance) | w.1 in ins && w.0 == KeyOf(w.1) ensures w in Keyed(ins) {
      var i :| 0 <= i < |ins| && ins[i] == w.1;
      assert Keyed(ins)[i] == w;
    }
  }

  ghost predicate OrderIrrelevant(ins: seq<Instance>) {
    forall other :: multiset(other) == multiset(ins) ==> Group(other) == Group(ins)
  }

  /** Reordering the list never changes the pool exactly when no two different
      instances share a service name and an id. */
  lemma OrderIrrelevantIff(ins: seq<Instance>)
    ensures OrderIrrelevant(ins) <==> DistinctKeys(ins)
  {
    if DistinctKeys(ins) {
      forall other | multiset(other) == multiset(ins)
        ensures Group(other) == Group(ins)
      {
        assert forall x :: x in ins <==> x in multiset(ins);
        assert forall x :: x in other <==> x in multiset(other);
        SameMembersSameGroups(ins, other);
      }
    } else {
      var x, y :| x in ins && y in ins && KeyOf(x) == KeyOf(y) && x != y;
      var a := EndingIn(ins, x);
      var b := EndingIn(ins, y);
      assert Group(a)[x.serviceName][x.id] != Group(b)[x.serviceName][x.id];
    }
  }

  lemma EndingIn(ins: seq<Instance>, x: Instance) returns (other: seq<Instance>)
    requires x in ins
    ensures multiset(other) == multiset(ins)
    ensures x.serviceName in Group(other) && x.id in Group(other)[x.serviceName]
    ensures Group(other)[x.serviceName][x.id] == x
  {
    var i :| 0 <= i < |ins| && ins[i] == x;
    other := ins[..i] + ins[i + 1..] + [x];
    assert ins == ins[..i] + [x] + ins[i + 1..];
    assert other[..|other| - 1] == ins[..i] + ins[i + 1..];
  }

  /** `list` holds the instances of `g`, each at least once, in any order. */
  ghost predicate Flattens(list: seq<Instance>, g: Groups) {
    && (forall x :: x in list ==> Lookup(g, x.serviceName, x.id) == Some(x))
    && (forall name, id :: name in g && id in g[name] ==> g[name][id] in list)
  }

  /** Re-purging any flattening of a pool restores the pool. */
  lemma Regroup(g: Groups, list: seq<Instance>)
    requires WellFormed(g) && Flattens(list, g)
    ensures Group(list) == g
  {
    GroupingUnique(list, g);
  }

  /** The grouping of a list can be flattened and purged again without change. */
  lemma PurgeIdempotent(ins: seq<Instance>, list: seq<Instance>)
    requires Flattens(list, Group(ins))
    ensures Group(list) == Group(ins)
  {
    GroupIsWellFormed(ins);
    Regroup(Group(ins), list);
  }
}
