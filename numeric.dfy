/** Numeric building blocks shared by every analysis script: sums and means
    (numpy's sum/mean), extrema and their first positions (max/min, argmax/argmin,
    pandas idxmax/idxmin), and numpy's half-to-even rounding of a sample count
    divided by the sampling rate. NaN results are modelled by Option. */
module Numeric {

  datatype Option<T> = None | Some(value: T)

  function Sum(xs: seq<real>): real
  {
    if xs == [] then 0.0 else Sum(xs[..|xs| - 1]) + xs[|xs| - 1]
  }

  function SumNat(xs: seq<nat>): nat
  {
    if xs == [] then 0 else SumNat(xs[..|xs| - 1]) + xs[|xs| - 1]
  }

  lemma {:induction false} SumAppend(xs: seq<real>, ys: seq<real>)
    ensures Sum(xs + ys) == Sum(xs) + Sum(ys)
  {
    if ys != [] {
      assert (xs + ys)[..|xs + ys| - 1] == xs + ys[..|ys| - 1];
      SumAppend(xs, ys[..|ys| - 1]);
    } else {
      assert xs + ys == xs;
    }
  }

  lemma {:induction false} SumNatAppend(xs: seq<nat>, ys: seq<nat>)
    ensures SumNat(xs + ys) == SumNat(xs) + SumNat(ys)
  {
    if ys != [] {
      assert (xs + ys)[..|xs + ys| - 1] == xs + ys[..|ys| - 1];
      SumNatAppend(xs, ys[..|ys| - 1]);
    } else {
      assert xs + ys == xs;
    }
  }

  /** A sum of strictly positive terms is strictly positive. */
  lemma {:induction false} SumPositive(xs: seq<real>)
    requires |xs| > 0
    requires forall i :: 0 <= i < |xs| ==> xs[i] > 0.0
    ensures Sum(xs) > 0.0
  {
    if |xs| > 1 {
      SumPositive(xs[..|xs| - 1]);
    }
  }

  /** np.mean of a non-empty array. */
  function Mean(xs: seq<real>): real
    requires |xs| > 0
  {
    Sum(xs) / (|xs| as real)
  }

  /** Samples between lo and hi bound the sum by |xs|·lo and |xs|·hi. */
  lemma {:induction false} SumBounds(xs: seq<real>, lo: real, hi: real)
    requires forall i :: 0 <= i < |xs| ==> lo <= xs[i] <= hi
    ensures (|xs| as real) * lo <= Sum(xs) <= (|xs| as real) * hi
  {
    if xs != [] {
      SumBounds(xs[..|xs| - 1], lo, hi);
    }
  }

  /** The mean lies between any lower and upper bound of the samples. */
  lemma MeanBounds(xs: seq<real>, lo: real, hi: real)
    requires |xs| > 0
    requires forall i :: 0 <= i < |xs| ==> lo <= xs[i] <= hi
    ensures lo <= Mean(xs) <= hi
  {
    SumBounds(xs, lo, hi);
    assert Mean(xs) * (|xs| as real) == Sum(xs);
  }

  /** np.mean(trace[0:k]): Python clips the slice at the end of the trace, so
      the baseline lies between the smallest and the largest of the first k
      samples, or of all samples when the trace is shorter; a flat stretch is
      its own baseline. */
  function HeadMean(trace: seq<real>, k: nat): (m: real)
    requires |trace| > 0 && k > 0
    ensures var p := if k < |trace| then k else |trace|;
            MinOf(trace[..p]) <= m <= MaxOf(trace[..p])
    ensures (forall i :: 0 <= i < |trace| && i < k ==> trace[i] == trace[0]) ==> m == trace[0]
  {
    var p := if k < |trace| then k else |trace|;
    MeanBounds(trace[..p], MinOf(trace[..p]), MaxOf(trace[..p]));
    Mean(trace[..p])
  }

  /** trace - baseline, sample by sample. */
  function Subtract(trace: seq<real>, baseline: real): (r: seq<real>)
    ensures |r| == |trace|
    ensures forall i :: 0 <= i < |r| ==> r[i] == trace[i] - baseline
  {
    seq(|trace|, i requires 0 <= i < |trace| => trace[i] - baseline)
  }

  /** First position of the largest element: numpy argmax, pandas idxmax. */
  function ArgMax(xs: seq<real>): (k: nat)
    requires |xs| > 0
    ensures k < |xs|
    ensures forall i :: 0 <= i < |xs| ==> xs[i] <= xs[k]
    ensures forall i :: 0 <= i < k ==> xs[i] < xs[k]
  {
    if |xs| == 1 then 0
    else
      var k := ArgMax(xs[..|xs| - 1]);
      if xs[|xs| - 1] > xs[k] then |xs| - 1 else k
  }

  /** First position of the smallest element: numpy argmin, pandas idxmin. */
  function ArgMin(xs: seq<real>): (k: nat)
    requires |xs| > 0
    ensures k < |xs|
    ensures forall i :: 0 <= i < |xs| ==> xs[k] <= xs[i]
    ensures forall i :: 0 <= i < k ==> xs[k] < xs[i]
  {
    if |xs| == 1 then 0
    else
      var k := ArgMin(xs[..|xs| - 1]);
      if xs[|xs| - 1] < xs[k] then |xs| - 1 else k
  }

  /** Python max over a non-empty sequence. */
  function MaxOf(xs: seq<real>): (m: real)
    requires |xs| > 0
    ensures m in xs
    ensures forall i :: 0 <= i < |xs| ==> xs[i] <= m
  {
    xs[ArgMax(xs)]
  }

  /** Python min over a non-empty sequence. */
  function MinOf(xs: seq<real>): (m: real)
    requires |xs| > 0
    ensures m in xs
    ensures forall i :: 0 <= i < |xs| ==> m <= xs[i]
  {
    xs[ArgMin(xs)]
  }

  function Abs(x: real): (r: real)
    ensures r >= 0.0 && (r == x || r == -x)
  {
    if x < 0.0 then -x else x
  }

  /** round(num / den) as numpy rounds: to the nearest integer, ties to even. */
  function RoundHalfEven(num: int, den: int): (r: int)
    requires den > 0
  {
    var q, rem := num / den, num % den;
    if 2 * rem < den then q
    else if 2 * rem > den then q + 1
    else if q % 2 == 0 then q
    else q + 1
  }

  /** RoundHalfEven lands within half a unit of num/den, and on a tie it picks
      the even neighbour. */
  lemma RoundHalfEvenNearest(num: int, den: int)
    requires den > 0
    ensures var r := RoundHalfEven(num, den);
            2 * (num - r * den) <= den && 2 * (r * den - num) <= den
    ensures var r := RoundHalfEven(num, den);
            (2 * (num - r * den) == den || 2 * (r * den - num) == den) ==> r % 2 == 0
  {
    var q, rem := num / den, num % den;
    assert num == q * den + rem;
    assert (q + 1) * den == q * den + den;
  }

  /** Nothing else is as near: any integer within half a unit of num/den that is
      not a tie is the rounded value. */
  lemma RoundHalfEvenUnique(num: int, den: int, z: int)
    requires den > 0
    requires 2 * (num - z * den) < den && 2 * (z * den - num) < den
    ensures z == RoundHalfEven(num, den)
  {
    var r := RoundHalfEven(num, den);
    RoundHalfEvenNearest(num, den);
    MulSub(z, r, den);
    OnlyZeroBelowFactor(z - r, den);
  }

  lemma MulSub(z: int, r: int, den: int)
    ensures (z - r) * den == z * den - r * den
  {
  }

  /** The only multiple of den strictly between -den and den is 0. */
  lemma OnlyZeroBelowFactor(d: int, den: int)
    requires den > 0 && -den < d * den < den
    ensures d == 0
  {
    if d > 0 {
      MulAtLeastFactor(d, den);
    } else if d < 0 {
      assert (-d) * den == -(d * den);
      MulAtLeastFactor(-d, den);
    }
  }

  lemma MulAtLeastFactor(d: int, den: int)
    requires d >= 1 && den > 0
    ensures d * den >= den
  {
    assert (d - 1) * den >= 0;
  }
}
