/**
 * Sums of the values of a finite map, and running totals over a growing set of its keys:
 * the registries' statistics and cleanup counts are such sums. Also the size of a subset.
 */
module MapFacts {

  /** The sum of the values of a map, in no particular order. */
  ghost function Sum<K>(m: map<K, int>): int
    decreases |m|
  {
    if m == map[] then 0
    else
      var k :| k in m;
      m[k] + Sum(m - {k})
  }

  /** Summing is independent of the key picked first. */
  lemma {:induction false} SumRemove<K>(m: map<K, int>, k: K)
    requires k in m
    ensures Sum(m) == m[k] + Sum(m - {k})
    decreases |m|
  {
    var j :| j in m && Sum(m) == m[j] + Sum(m - {j});
    if j != k {
      var mj, mk := m - {j}, m - {k};
      assert k in mj && j in mk;
      SumRemove(mj, k);
      SumRemove(mk, j);
      assert mj - {k} == mk - {j};
    }
  }

  /** A sum over non-negative values is non-negative. */
  lemma {:induction false} SumNonNegative<K>(m: map<K, int>)
    requires forall k :: k in m ==> m[k] >= 0
    ensures Sum(m) >= 0
    decreases |m|
  {
    if m != map[] {
      var k :| k in m;
      SumRemove(m, k);
      SumNonNegative(m - {k});
    }
  }

  /** The entries of `m` whose keys are in `s`. */
  function Restrict<K(==)>(m: map<K, int>, s: set<K>): map<K, int> {
    map k | k in m && k in s :: m[k]
  }

  /** A running total grows by the entry of the one key added to it. */
  lemma {:induction false} RestrictAdd<K>(m: map<K, int>, s: set<K>, k: K)
    requires k in m && k !in s
    ensures Sum(Restrict(m, s + {k})) == Sum(Restrict(m, s)) + m[k]
  {
    SumRemove(Restrict(m, s + {k}), k);
    assert Restrict(m, s + {k}) - {k} == Restrict(m, s);
  }

  /** A running total over no keys, and over all of them. */
  lemma RestrictEnds<K>(m: map<K, int>, s: set<K>)
    ensures Sum(Restrict(m, {})) == 0
    ensures m.Keys <= s ==> Restrict(m, s) == m
  {
    assert Restrict(m, {}) == map[];
  }

  /** A subset has at most as many elements. */
  lemma {:induction false} SubsetCard<T>(a: set<T>, b: set<T>)
    requires a <= b
    ensures |a| <= |b|
    decreases |b|
  {
    if b != {} {
      var x :| x in b;
      SubsetCard(a - {x}, b - {x});
    }
  }
}
