/**
 * Sums over the entries of a finite map, weighted by a function of the
 * entry. The ledger's conservation invariants (a relation's total is the
 * sum of its files, a role's total is the sum of its relations) are stated
 * with these sums.
 */
module MapSums {

  /** The sum of w(m[k]) over all keys k of m. */
  ghost function MapSum<K, V>(m: map<K, V>, w: V -> int): int
    decreases m.Keys
  {
    if m.Keys == {} then 0
    else
      var k :| k in m.Keys;
      w(m[k]) + MapSum(m - {k}, w)
  }

  /** Taking any one entry out of a sum takes out exactly its weight. */
  lemma {:induction false} MapSumRemove<K, V>(m: map<K, V>, w: V -> int, x: K)
    requires x in m
    ensures MapSum(m, w) == w(m[x]) + MapSum(m - {x}, w)
    decreases m.Keys
  {
    var k :| k in m.Keys && MapSum(m, w) == w(m[k]) + MapSum(m - {k}, w);
    if k != x {
      MapSumRemove(m - {k}, w, x);
      MapSumRemove(m - {x}, w, k);
      assert m - {k} - {x} == m - {x} - {k};
    }
  }

  /** Replacing or adding one entry changes the sum by the difference of the weights. */
  lemma MapSumUpdate<K, V>(m: map<K, V>, w: V -> int, x: K, v: V)
    ensures MapSum(m[x := v], w) == MapSum(m, w) - (if x in m then w(m[x]) else 0) + w(v)
  {
    MapSumRemove(m[x := v], w, x);
    assert m[x := v] - {x} == m - {x};
    if x in m {
      MapSumRemove(m, w, x);
    } else {
      assert m - {x} == m;
    }
  }

  /** A sum whose every weight is zero is zero. */
  lemma {:induction false} MapSumZero<K, V>(m: map<K, V>, w: V -> int)
    requires forall k :: k in m ==> w(m[k]) == 0
    ensures MapSum(m, w) == 0
    decreases m.Keys
  {
    if m.Keys != {} {
      var k :| k in m.Keys;
      MapSumRemove(m, w, k);
      MapSumZero(m - {k}, w);
    }
  }

  /** A sum of non-negative weights is at least each of its weights. */
  lemma {:induction false} MapSumAtLeast<K, V>(m: map<K, V>, w: V -> int, x: K)
    requires forall k :: k in m ==> w(m[k]) >= 0
    requires x in m
    ensures MapSum(m, w) >= w(m[x])
  {
    MapSumRemove(m, w, x);
    MapSumNonNegative(m - {x}, w);
  }

  /** A sum of non-negative weights is non-negative. */
  lemma {:induction false} MapSumNonNegative<K, V>(m: map<K, V>, w: V -> int)
    requires forall k :: k in m ==> w(m[k]) >= 0
    ensures MapSum(m, w) >= 0
    decreases m.Keys
  {
    if m.Keys != {} {
      var k :| k in m.Keys;
      MapSumRemove(m, w, k);
      MapSumNonNegative(m - {k}, w);
    }
  }
}
