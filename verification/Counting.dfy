/** Sizes of finite sets and of sequences without repetition. */
module Counting {

  ghost predicate NoRepeats<T>(xs: seq<T>)
  {
    forall i, j | 0 <= i < j < |xs| :: xs[i] != xs[j]
  }

  ghost function Elements<T>(xs: seq<T>): set<T> { set x | x in xs }

  lemma {:induction false} NoRepeatsSize<T>(xs: seq<T>)
    requires NoRepeats(xs)
    ensures |Elements(xs)| == |xs|
  {
    if xs != [] {
      var last := |xs| - 1;
      NoRepeatsSize(xs[..last]);
      assert Elements(xs) == Elements(xs[..last]) + {xs[last]};
    } else {
      assert Elements(xs) == {};
    }
  }

  lemma SubsetSize<T>(a: set<T>, b: set<T>)
    requires a <= b
    ensures |a| <= |b|
  {
    assert b == a + (b - a);
  }

  /** Distinct members of a set of at most `n` elements that misses one of them. */
  lemma Pigeons<T>(xs: seq<T>, all: set<T>, gap: T)
    requires NoRepeats(xs) && gap in all && gap !in xs
    requires forall x <- xs :: x in all
    ensures |xs| < |all|
  {
    NoRepeatsSize(xs);
    SubsetSize(Elements(xs), all - {gap});
  }
}
