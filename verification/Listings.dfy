/** Go visits the keys of a map in an unspecified order. A `range` over a map is
    modelled by an arbitrary listing of its keys; whatever is proved about a loop
    over a listing is proved for every order. */
module Listings {

  ghost predicate Distinct<T>(order: seq<T>) {
    forall i, j :: 0 <= i < j < |order| ==> order[i] != order[j]
  }

  /** `order` visits every element of `s` exactly once. */
  ghost predicate Lists<T>(order: seq<T>, s: set<T>) {
    && (forall x :: x in order ==> x in s)
    && (forall x :: x in s ==> x in order)
    && Distinct(order)
  }

  /** The order in which a `range` happens to visit `s`. */
  method AnyOrder<T(==)>(s: set<T>) returns (order: seq<T>)
    ensures Lists(order, s)
  {
    order := [];
    var todo := s;
    while todo != {}
      invariant todo <= s
      invariant Lists(order, s - todo)
      decreases todo
    {
      var x :| x in todo;
      todo := todo - {x};
      order := order + [x];
    }
    assert s - todo == s;
  }

  lemma {:induction false} ListingExists<T>(s: set<T>) returns (order: seq<T>)
    ensures Lists(order, s)
    decreases s
  {
    if s == {} {
      order := [];
    } else {
      var x :| x in s;
      var rest := ListingExists(s - {x});
      order := rest + [x];
    }
  }

  lemma {:induction false} DistinctCount<T>(a: seq<T>, x: T)
    requires Distinct(a)
    ensures multiset(a)[x] == if x in a then 1 else 0
  {
    if a != [] {
      var last := |a| - 1;
      assert a == a[..last] + [a[last]];
      DistinctCount(a[..last], x);
      assert x in a <==> x in a[..last] || x == a[last];
    }
  }

  /** Two visits of the same set are permutations of each other. */
  lemma ListingsPermute<T>(a: seq<T>, b: seq<T>, s: set<T>)
    requires Lists(a, s) && Lists(b, s)
    ensures multiset(a) == multiset(b)
    ensures |a| == |b|
  {
    forall x: T
      ensures multiset(a)[x] == multiset(b)[x]
    {
      DistinctCount(a, x);
      DistinctCount(b, x);
    }
    assert multiset(a) == multiset(b);
    assert |a| == |multiset(a)| == |multiset(b)| == |b|;
  }

  /** The values met when visiting the keys of `m` in the given order. */
  function Pick<K, V>(order: seq<K>, m: map<K, V>): (r: seq<V>)
    requires forall k :: k in order ==> k in m
    ensures |r| == |order|
    ensures forall i :: 0 <= i < |order| ==> r[i] == m[order[i]]
  {
    seq(|order|, i requires 0 <= i < |order| => m[order[i]])
  }

  lemma PickConcat<K, V>(a: seq<K>, b: seq<K>, m: map<K, V>)
    requires forall k :: k in a + b ==> k in m
    ensures forall k :: k in a ==> k in m
    ensures forall k :: k in b ==> k in m
    ensures Pick(a + b, m) == Pick(a, m) + Pick(b, m)
  {
    forall k | k in a ensures k in m { assert k in a + b; }
    forall k | k in b ensures k in m { assert k in a + b; }
  }

  lemma DropSame<K>(x: K, tail: seq<K>, left: seq<K>, right: seq<K>)
    requires multiset([x] + tail) == multiset(left + ([x] + right))
    ensures multiset(tail) == multiset(left + right)
  {
    assert multiset([x] + tail) - multiset{x} == multiset(tail);
    assert multiset(left + ([x] + right)) - multiset{x} == multiset(left + right);
  }

  /** One more key anywhere in the visit, one more value. */
  lemma PickOneMore<K, V>(left: seq<K>, x: K, right: seq<K>, m: map<K, V>)
    requires forall k :: k in left + ([x] + right) ==> k in m
    ensures x in m && forall k :: k in left + right ==> k in m
    ensures multiset(Pick(left + ([x] + right), m)) == multiset(Pick(left + right, m)) + multiset{m[x]}
  {
    assert x in left + ([x] + right);
    assert forall k :: k in left + right ==> k in left + ([x] + right);
    hide Pick;
    PickConcat(left, [x] + right, m);
    PickConcat([x], right, m);
    PickConcat(left, right, m);
    assert Pick([x], m) == [m[x]];
  }

  /** Permuting the visit permutes the values met. */
  lemma {:induction false} PickPermutes<K, V>(a: seq<K>, b: seq<K>, m: map<K, V>)
    requires multiset(a) == multiset(b)
    requires forall k :: k in a ==> k in m
    ensures forall k :: k in b ==> k in m
    ensures multiset(Pick(a, m)) == multiset(Pick(b, m))
    decreases |a|
  {
    hide Pick;
    forall k | k in b ensures k in m {
      assert k in multiset(b);
    }
    if a == [] {
      assert |multiset(b)| == 0;
      assert b == [];
    } else {
      var x, tail := a[0], a[1..];
      assert a == [] + ([x] + tail);
      assert x in multiset(b);
      var j :| 0 <= j < |b| && b[j] == x;
      var left, right := b[..j], b[j + 1..];
      assert b == left + ([x] + right);
      DropSame(x, tail, left, right);
      PickOneMore([], x, tail, m);
      PickOneMore(left, x, right, m);
      assert [] + tail == tail;
      PickPermutes(tail, left + right, m);
    }
  }
}
