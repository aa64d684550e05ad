/** Sums and means of scores, as the tools compute `sum(...) / len(...)`
    with an explicit `0` for an empty list. */
module Stats {

  /** Python's `sum(xs)`. */
  function Sum(xs: seq<real>): real
  {
    if xs == [] then 0.0 else Sum(xs[..|xs| - 1]) + xs[|xs| - 1]
  }

  /** `sum(xs) / len(xs) if xs else 0`. */
  function Mean(xs: seq<real>): real
  {
    if xs == [] then 0.0 else Sum(xs) / |xs| as real
  }

  /** Every element lies in `[lo, hi]`. */
  ghost predicate Within(xs: seq<real>, lo: real, hi: real) {
    forall k :: 0 <= k < |xs| ==> lo <= xs[k] <= hi
  }

  /** A sum of values in `[lo, hi]` lies between `|xs| * lo` and `|xs| * hi`. */
  lemma {:induction false} SumWithin(xs: seq<real>, lo: real, hi: real)
    requires Within(xs, lo, hi)
    ensures |xs| as real * lo <= Sum(xs) <= |xs| as real * hi
  {
    if xs != [] {
      var init := xs[..|xs| - 1];
      assert Within(init, lo, hi) by {
        forall k | 0 <= k < |init| ensures lo <= init[k] <= hi {
          assert init[k] == xs[k];
        }
      }
      SumWithin(init, lo, hi);
    }
  }

  /** The mean of values in `[lo, hi]` lies in `[lo, hi]`; the mean of nothing is `0`. */
  lemma MeanWithin(xs: seq<real>, lo: real, hi: real)
    requires Within(xs, lo, hi)
    ensures xs == [] ==> Mean(xs) == 0.0
    ensures xs != [] ==> lo <= Mean(xs) <= hi
  {
    if xs != [] {
      SumWithin(xs, lo, hi);
      var n := |xs| as real;
      assert Mean(xs) * n == Sum(xs);
    }
  }

  /** A part of a set is no larger than the set: a count of matches never
      exceeds the number of candidates. */
  lemma SubsetCardinality<T>(a: set<T>, b: set<T>)
    requires a <= b
    ensures |a| <= |b|
  {
    assert b == a + (b - a);
  }

  /** A ratio of a count to a larger positive count lies in [0, 1]. */
  lemma RatioWithin(x: real, n: real)
    requires 0.0 <= x <= n && n > 0.0
    ensures 0.0 <= x / n <= 1.0
  {
    assert x / n * n == x;
  }

  /** The number of `true` entries. */
  function CountTrue(bs: seq<bool>): (n: nat)
    ensures n <= |bs|
  {
    if bs == [] then 0 else CountTrue(bs[..|bs| - 1]) + (if bs[|bs| - 1] then 1 else 0)
  }

  /** `[f(x, i + 1) for i, x in enumerate(xs)]`: each item with its position,
      counted from 1. */
  function Numbered<T, U>(xs: seq<T>, f: (T, nat) -> U): (r: seq<U>)
    ensures |r| == |xs|
  {
    if xs == [] then [] else Numbered(xs[..|xs| - 1], f) + [f(xs[|xs| - 1], |xs|)]
  }

  lemma {:induction false} NumberedAt<T, U>(xs: seq<T>, f: (T, nat) -> U, k: nat)
    requires k < |xs|
    ensures Numbered(xs, f)[k] == f(xs[k], k + 1)
    decreases |xs|
  {
    if k < |xs| - 1 {
      NumberedAt(xs[..|xs| - 1], f, k);
    }
  }

  lemma NumberedStep<T, U>(xs: seq<T>, f: (T, nat) -> U, i: nat)
    requires i < |xs|
    ensures Numbered(xs[..i + 1], f) == Numbered(xs[..i], f) + [f(xs[i], i + 1)]
  {
    assert xs[..i + 1][..i] == xs[..i];
  }
}
