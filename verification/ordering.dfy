/** Order predicates on sequences of reals, shared by the altitude and sample-point code. */
module Ordering {

  /** Every element is strictly smaller than every later one. */
  ghost predicate Increasing(xs: seq<real>) {
    forall i, j :: 0 <= i < j < |xs| ==> xs[i] < xs[j]
  }

  lemma IncreasingHeadLeast(xs: seq<real>, i: int)
    requires Increasing(xs) && 0 <= i < |xs|
    ensures xs[0] <= xs[i]
  {
  }

  /** In an increasing sequence, a smaller value sits at an earlier position. */
  lemma IncreasingIndexOrder(xs: seq<real>, i: int, j: int)
    requires Increasing(xs) && 0 <= i < |xs| && 0 <= j < |xs|
    requires xs[i] < xs[j]
    ensures i < j
  {
  }

  /** Putting a value below the head in front keeps a sequence increasing. */
  lemma IncreasingCons(h: real, t: seq<real>)
    requires Increasing(t)
    requires |t| > 0 ==> h < t[0]
    ensures Increasing([h] + t)
  {
    var r := [h] + t;
    forall i, j | 0 <= i < j < |r| ensures r[i] < r[j] {
      assert r[j] == t[j - 1];
      if i == 0 {
        IncreasingHeadLeast(t, j - 1);
      } else {
        assert r[i] == t[i - 1];
      }
    }
  }
}
