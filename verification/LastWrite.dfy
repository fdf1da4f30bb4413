/** Filling a map by a sequence of assignments: the last assignment to a key wins. */
module LastWrite {

  function Writes<K, V>(ws: seq<(K, V)>): map<K, V> {
    if ws == [] then map[]
    else Writes(ws[..|ws| - 1])[ws[|ws| - 1].0 := ws[|ws| - 1].1]
  }

  /** No later assignment has the key of assignment `i`. */
  ghost predicate LastOf<K, V>(ws: seq<(K, V)>, i: int) {
    0 <= i < |ws| && forall j :: i < j < |ws| ==> ws[j].0 != ws[i].0
  }

  /** The last assignment to a key decides its value. */
  lemma {:induction false} LastDecides<K, V>(ws: seq<(K, V)>, i: int)
    requires LastOf(ws, i)
    ensures ws[i].0 in Writes(ws) && Writes(ws)[ws[i].0] == ws[i].1
  {
    var n := |ws| - 1;
    if i < n {
      assert LastOf(ws[..n], i);
      LastDecides(ws[..n], i);
    }
  }

  /** Every key of the map has a last assignment. */
  lemma {:induction false} KeyHasLast<K, V>(ws: seq<(K, V)>, k: K) returns (i: int)
    requires k in Writes(ws)
    ensures LastOf(ws, i) && ws[i].0 == k
  {
    var n := |ws| - 1;
    if k == ws[n].0 {
      i := n;
    } else {
      i := KeyHasLast(ws[..n], k);
    }
  }

  lemma {:induction false} HasLast<K, V>(ws: seq<(K, V)>, i: nat) returns (j: nat)
    requires i < |ws|
    ensures i <= j && LastOf(ws, j) && ws[j].0 == ws[i].0
    decreases |ws| - i
  {
    if LastOf(ws, i) {
      j := i;
    } else {
      var next: nat :| i < next < |ws| && ws[next].0 == ws[i].0;
      j := HasLast(ws, next);
    }
  }

  /** The assigned keys are exactly the keys of the map, and each value was assigned. */
  lemma WritesKeys<K, V>(ws: seq<(K, V)>)
    ensures forall w :: w in ws ==> w.0 in Writes(ws)
    ensures forall k :: k in Writes(ws) ==> (k, Writes(ws)[k]) in ws
  {
    forall w | w in ws ensures w.0 in Writes(ws) {
      var i :| 0 <= i < |ws| && ws[i] == w;
      var j := HasLast(ws, i);
      LastDecides(ws, j);
    }
    forall k | k in Writes(ws) ensures (k, Writes(ws)[k]) in ws {
      var i := KeyHasLast(ws, k);
      LastDecides(ws, i);
      assert ws[i] == (k, Writes(ws)[k]);
    }
  }

  /** Equal keys are always assigned equal values. */
  ghost predicate Consistent<K, V>(ws: seq<(K, V)>) {
    forall v, w :: v in ws && w in ws && v.0 == w.0 ==> v.1 == w.1
  }

  /** Consistent assignments determine the map by membership alone. */
  lemma ConsistentWrites<K, V>(ws: seq<(K, V)>)
    requires Consistent(ws)
    ensures forall w :: w in ws ==> w.0 in Writes(ws) && Writes(ws)[w.0] == w.1
    ensures forall k :: k in Writes(ws) ==> (k, Writes(ws)[k]) in ws
  {
    WritesKeys(ws);
  }

  /** Reordering or repeating consistent assignments changes nothing. */
  lemma SameWrites<K, V>(v: seq<(K, V)>, w: seq<(K, V)>)
    requires Consistent(v)
    requires forall x :: x in v <==> x in w
    ensures Writes(v) == Writes(w)
  {
    ConsistentWrites(v);
    ConsistentWrites(w);
    forall k | k in Writes(v) ensures k in Writes(w) && Writes(w)[k] == Writes(v)[k] {
      assert (k, Writes(v)[k]) in w;
    }
    forall k | k in Writes(w) ensures k in Writes(v) {
      assert (k, Writes(w)[k]) in v;
    }
  }
}
