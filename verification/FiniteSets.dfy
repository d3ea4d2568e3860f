/** Cardinality facts about finite sets of thread numbers. */
module FiniteSets {

  /** The numbers below n. */
  function Below(n: nat): (r: set<nat>)
    ensures forall i: nat :: i in r <==> i < n
  {
    if n == 0 then {} else Below(n - 1) + {n - 1}
  }

  lemma {:induction false} BelowSize(n: nat)
    ensures |Below(n)| == n
  {
    if n > 0 {
      BelowSize(n - 1);
    }
  }

  lemma SubsetSize<T>(a: set<T>, b: set<T>)
    requires a <= b
    ensures |a| <= |b|
    ensures |a| == |b| ==> a == b
  {
    assert |b| == |a| + |b - a| by { assert b == a + (b - a); }
    if |a| == |b| {
      assert b - a == {};
    }
  }

  lemma DisjointUnionSize<T>(a: set<T>, b: set<T>)
    requires a !! b
    ensures |a + b| == |a| + |b|
  {
  }

  /** If all but one of the n numbers are in `a`, nothing but that one is missing. */
  lemma AllButOne(a: set<nat>, n: nat, i: nat)
    requires a <= Below(n) && i < n && i !in a && |a| == n - 1
    ensures a == Below(n) - {i}
  {
    BelowSize(n);
    SubsetSize(a, Below(n) - {i});
  }
}
