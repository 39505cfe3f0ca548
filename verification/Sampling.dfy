/** The heights a composite-score series is sampled at (`getCompositeScoreSeries` in
    apps/dashboard/lib/ledger-client.ts), in exact arithmetic. */
module Sampling {
  import opened Sequences
  import opened Sorting

  /** `Math.round`. */
  function Round(x: real): int {
    (x + 0.5).Floor
  }

  function Step(lo: int, hi: int, want: int): real
    requires want >= 2
  {
    (hi - lo) as real / (want - 1) as real
  }

  /** The `i`-th stride. */
  function Height(lo: int, hi: int, want: int, i: int): int
    requires want >= 2
  {
    Round(lo as real + i as real * Step(lo, hi, want))
  }

  /** `h` is the whole number nearest to the `i`-th of `want` equal strides, the greater of two equally
      near ones. */
  ghost predicate StrideAt(lo: int, hi: int, want: int, i: int, h: int) {
    0 <= i < want && 0 - (want - 1) < 2 * ((h - lo) * (want - 1) - i * (hi - lo)) <= want - 1
  }

  ghost predicate Sampled(lo: int, hi: int, want: int, h: int) {
    if lo == hi then h == lo else exists i :: StrideAt(lo, hi, want, i, h)
  }

  lemma Widen(d: real, n: real, x: real)
    requires n > 0.0 && -0.5 < d <= 0.5 && x == d * n
    ensures -0.5 * n < x <= 0.5 * n
  {
  }

  lemma Products(a: int, n: int, i: int, s: real, d: int)
    requires s * n as real == d as real
    ensures (a as real - i as real * s) * n as real == (a * n) as real - (i * d) as real
  {
    assert i as real * s * n as real == i as real * d as real;
  }

  lemma DoubledBounds(a: int, b: int, n: int, x: real)
    requires x == a as real - b as real && -0.5 * n as real < x <= 0.5 * n as real
    ensures 0 - n < 2 * (a - b) <= n
  {
  }

  /** A height within half of a stride's exact place is at that stride, in whole numbers too. */
  lemma WholeStride(a: int, n: int, i: int, s: real, d: int)
    requires n > 0 && s * n as real == d as real && -0.5 < a as real - i as real * s <= 0.5
    ensures 0 - n < 2 * (a * n - i * d) <= n
  {
    Products(a, n, i, s, d);
    var b, c := a * n, i * d;
    Widen(a as real - i as real * s, n as real, b as real - c as real);
    DoubledBounds(b, c, n, b as real - c as real);
  }

  lemma HeightIsNear(lo: int, hi: int, want: int, i: int)
    requires want >= 2
    ensures -0.5 < (Height(lo, hi, want, i) - lo) as real - i as real * Step(lo, hi, want) <= 0.5
  {
  }

  lemma HeightIsStride(lo: int, hi: int, want: int, i: int)
    requires want >= 2 && lo <= hi && 0 <= i < want
    ensures StrideAt(lo, hi, want, i, Height(lo, hi, want, i))
  {
    StepTimes(lo, hi, want);
    HeightIsNear(lo, hi, want, i);
    WholeStride(Height(lo, hi, want, i) - lo, want - 1, i, Step(lo, hi, want), hi - lo);
  }

  ghost predicate Ascending(xs: seq<int>) {
    forall i, j :: 0 <= i < j < |xs| ==> xs[i] < xs[j]
  }

  lemma StepTimes(lo: int, hi: int, want: int)
    requires want >= 2 && lo <= hi
    ensures (want - 1) as real * Step(lo, hi, want) == (hi - lo) as real
    ensures Step(lo, hi, want) >= 0.0
    ensures hi - lo >= want - 1 ==> Step(lo, hi, want) >= 1.0
    ensures hi - lo <= want - 1 ==> Step(lo, hi, want) <= 1.0
  {
    var d, w := (hi - lo) as real, (want - 1) as real;
    var s := d / w;
    assert s * w == d;
  }

  /** Rounding keeps steps of at least one apart, and steps of at most one adjacent. */
  lemma Stride(lo: int, hi: int, want: int, i: int)
    requires want >= 2 && lo <= hi
    ensures Height(lo, hi, want, i) <= Height(lo, hi, want, i + 1)
    ensures hi - lo >= want - 1 ==> Height(lo, hi, want, i) < Height(lo, hi, want, i + 1)
    ensures hi - lo <= want - 1 ==> Height(lo, hi, want, i + 1) <= Height(lo, hi, want, i) + 1
  {
    StepTimes(lo, hi, want);
    var s := Step(lo, hi, want);
    assert (i + 1) as real * s == i as real * s + s;
  }

  lemma Ends(lo: int, hi: int, want: int)
    requires want >= 2 && lo <= hi
    ensures Height(lo, hi, want, 0) == lo && Height(lo, hi, want, want - 1) == hi
  {
    StepTimes(lo, hi, want);
    assert 0 as real * Step(lo, hi, want) == 0.0;
  }

  /** The distinct strides: as many as asked for if they fit, and otherwise every height. */
  method Strides(lo: int, hi: int, want: int) returns (heights: seq<int>)
    requires want >= 2 && lo < hi
    ensures Ascending(heights) && heights != [] && heights[0] == lo && heights[|heights|-1] == hi
    ensures |heights| == Min(want, hi - lo + 1)
    ensures |heights| < want ==> forall s :: lo <= s <= hi ==> s in heights
    ensures forall h :: h in heights ==> exists i :: 0 <= i < want && h == Height(lo, hi, want, i)
  {
    Ends(lo, hi, want);
    heights := [];
    for i := 0 to want
      invariant Ascending(heights)
      invariant i == 0 ==> heights == []
      invariant i > 0 ==> heights != [] && heights[0] == lo && heights[|heights|-1] == Height(lo, hi, want, i - 1)
      invariant hi - lo >= want - 1 ==> |heights| == i
      invariant hi - lo <= want - 1 && i > 0 ==> |heights| == heights[|heights|-1] - lo + 1
      invariant forall h :: h in heights ==> exists j :: 0 <= j < want && h == Height(lo, hi, want, j)
    {
      if i > 0 { Stride(lo, hi, want, i - 1); }
      var h := Height(lo, hi, want, i);
      if h !in heights {
        heights := heights + [h];
      }
    }
    if |heights| < want {
      AscendingIsDense(heights);
      forall s | lo <= s <= hi ensures s in heights {
        assert heights[s - lo] == s;
      }
    }
  }

  /** Ascending heights that are as many as the integers they span are those integers. */
  lemma AscendingIsDense(xs: seq<int>)
    requires Ascending(xs) && xs != [] && |xs| == xs[|xs|-1] - xs[0] + 1
    ensures forall k :: 0 <= k < |xs| ==> xs[k] == xs[0] + k
  {
    forall k | 0 <= k < |xs| ensures xs[k] == xs[0] + k {
      Spread(xs, 0, k);
      Spread(xs, k, |xs| - 1);
    }
  }

  lemma {:induction false} Spread(xs: seq<int>, i: int, j: int)
    requires Ascending(xs) && 0 <= i <= j < |xs|
    ensures xs[j] - xs[i] >= j - i
    decreases j
  {
    if i < j {
      Spread(xs, i, j - 1);
    }
  }

  /** The sampled heights, padding loop included. */
  method SampleHeights(lo: int, hi: int, pointCount: int) returns (sampled: seq<int>)
    requires lo <= hi
    ensures Ascending(sampled) && |sampled| == Min(Max(2, pointCount), hi - lo + 1)
    ensures sampled[0] == lo && sampled[|sampled|-1] == hi
    ensures forall h :: h in sampled ==> lo <= h <= hi
    ensures forall h :: h in sampled ==> Sampled(lo, hi, Max(2, pointCount), h)
  {
    var want := Max(2, pointCount);
    if hi == lo {
      return [hi];
    }
    sampled := Strides(lo, hi, want);
    ghost var strides := sampled;
    if |sampled| < want {
      var s := hi;
      while s >= lo
        invariant sampled == strides  // the padding never finds a height to add
      {
        if s !in sampled {
          sampled := sampled + [s];
          if |sampled| >= want { break; }
        }
        s := s - 1;
      }
    }
    sampled := Sort(sampled, (x: int) => Key(x, 0));
    SortOfSorted(strides, (x: int) => Key(x, 0));
    forall h | h in sampled ensures Sampled(lo, hi, want, h) {
      var i :| 0 <= i < want && h == Height(lo, hi, want, i);
      HeightIsStride(lo, hi, want, i);
    }
  }
}
