/** Finite sums over map values, the arithmetic behind every conservation claim. */
module MapSums {

  ghost function Sum<K(!new)>(m: map<K, nat>): nat
    decreases |m|
  {
    if m == map[] then 0
    else
      var k :| k in m;
      m[k] + Sum(m - {k})
  }

  /** The order in which `Sum` picks keys does not matter. */
  lemma {:induction false} SumPick<K(!new)>(m: map<K, nat>, k: K)
    requires k in m
    ensures Sum(m) == m[k] + Sum(m - {k})
    decreases |m|
  {
    var j :| j in m && Sum(m) == m[j] + Sum(m - {j});
    if j != k {
      SumPick(m - {j}, k);
      SumPick(m - {k}, j);
      assert m - {j} - {k} == m - {k} - {j};
    }
  }

  lemma SumInsert<K(!new)>(m: map<K, nat>, k: K, v: nat)
    requires k !in m
    ensures Sum(m[k := v]) == Sum(m) + v
  {
    SumPick(m[k := v], k);
    assert m[k := v] - {k} == m;
  }

  lemma SumReplace<K(!new)>(m: map<K, nat>, k: K, v: nat)
    requires k in m
    ensures Sum(m[k := v]) == Sum(m) - m[k] + v
  {
    SumPick(m, k);
    SumPick(m[k := v], k);
    assert m[k := v] - {k} == m - {k};
  }

  /** A map whose entries are all covered by another's has the smaller sum. */
  lemma {:induction false} SumBelow<K(!new)>(a: map<K, nat>, b: map<K, nat>)
    requires forall k :: k in a ==> a[k] == 0 || (k in b && a[k] <= b[k])
    ensures Sum(a) <= Sum(b)
    decreases |a|
  {
    if a != map[] {
      var k :| k in a;
      SumPick(a, k);
      if k in b {
        SumPick(b, k);
        SumBelow(a - {k}, b - {k});
      } else {
        SumBelow(a - {k}, b);
      }
    }
  }

  /** Removing a set of keys removes exactly what they hold. */
  lemma {:induction false} SumSplit<K(!new)>(m: map<K, nat>, gone: set<K>)
    ensures Sum(m) == Sum(m - gone) + Sum(map k | k in m && k in gone :: m[k])
    decreases |m|
  {
    if m != map[] {
      var k :| k in m;
      var kept := map j | j in m && j in gone :: m[j];
      var kept' := map j | j in m - {k} && j in gone :: m[j];
      SumPick(m, k);
      SumSplit(m - {k}, gone);
      assert kept' == map j | j in m - {k} && j in gone :: (m - {k})[j];
      if k in gone {
        SumPick(kept, k);
        assert kept - {k} == kept';
        assert m - {k} - gone == m - gone;
      } else {
        SumPick(m - gone, k);
        assert kept == kept';
        assert m - {k} - gone == m - gone - {k};
      }
    }
  }
}
