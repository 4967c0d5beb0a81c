/** Cardinalities of finite sets. */
module FiniteSets {
  lemma UnionRegroups<T>(a: set<T>, b: set<T>, c: set<T>)
    ensures a + (b + c) == a + b + c
  {
  }

  lemma Smaller<T>(a: set<T>, b: set<T>)
    requires a <= b
    ensures |a| <= |b|
  {
    assert b == a + (b - a);
  }

  /** One more element, or the same set: what a comprehension over one more key gives. */
  lemma OneMore<T>(before: set<T>, after: set<T>, x: T, added: bool)
    requires x !in before
    requires forall y :: y in after <==> y in before || (y == x && added)
    ensures |after| == |before| + (if added then 1 else 0)
  {
    if added {
      assert after == before + {x};
    } else {
      assert after == before;
    }
  }
}
