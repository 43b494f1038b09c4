/** Index arithmetic on sampled channels: thresholding a channel into the sorted
    list of sample positions where it exceeds a level (np.where(trace > level)),
    gathering the samples at a list of positions (numpy fancy indexing
    trace[idx]), and Python's clipped slices. */
module Indexing {
  import opened Numeric

  ghost predicate StrictlyIncreasing(s: seq<int>)
  {
    forall i, j :: 0 <= i < j < |s| ==> s[i] < s[j]
  }

  /** Every position lies inside a channel of n samples. */
  ghost predicate AllIn(idx: seq<int>, n: nat)
  {
    forall k :: 0 <= k < |idx| ==> 0 <= idx[k] < n
  }

  function Last(s: seq<int>): int
    requires |s| > 0
  {
    s[|s| - 1]
  }

  /** np.where(trace > level)[0]: the positions of the samples above the level,
      in increasing order. */
  function Where(trace: seq<real>, level: real): (idx: seq<int>)
    ensures StrictlyIncreasing(idx)
    ensures AllIn(idx, |trace|)
    ensures forall k :: 0 <= k < |idx| ==> trace[idx[k]] > level
    ensures forall i :: 0 <= i < |trace| && trace[i] > level ==> i in idx
  {
    if trace == [] then []
    else
      var n := |trace| - 1;
      var front := Where(trace[..n], level);
      assert forall i :: 0 <= i < n && trace[i] > level ==> i in front by {
        forall i | 0 <= i < n && trace[i] > level ensures i in front {
          assert trace[..n][i] == trace[i];
        }
      }
      if trace[n] > level then front + [n] else front
  }

  /** The first position whose sample is above the level, as np.where(...)[0][0]. */
  function FirstAbove(xs: seq<real>, level: real): (r: Option<nat>)
    ensures r.Some? <==> exists i :: 0 <= i < |xs| && xs[i] > level
    ensures r.Some? ==> r.value < |xs| && xs[r.value] > level
    ensures r.Some? ==> forall i :: 0 <= i < r.value ==> xs[i] <= level
  {
    if xs == [] then None
    else if xs[0] > level then Some(0)
    else match FirstAbove(xs[1..], level)
      case None => None
      case Some(k) => Some(k + 1)
  }

  /** The last position whose sample is above the level, as np.where(...)[0][-1]. */
  function LastAbove(xs: seq<real>, level: real): (r: Option<nat>)
    ensures r.Some? <==> exists i :: 0 <= i < |xs| && xs[i] > level
    ensures r.Some? ==> r.value < |xs| && xs[r.value] > level
    ensures r.Some? ==> forall i :: r.value < i < |xs| ==> xs[i] <= level
  {
    if xs == [] then None
    else if xs[|xs| - 1] > level then Some(|xs| - 1)
    else
      var front := LastAbove(xs[..|xs| - 1], level);
      assert forall i :: 0 <= i < |xs| - 1 ==> xs[..|xs| - 1][i] == xs[i];
      front
  }

  /** The first position whose sample is below the level (a response onset in
      voltage clamp, where an inward current is negative). */
  function FirstBelow(xs: seq<real>, level: real): (r: Option<nat>)
    ensures r.Some? <==> exists i :: 0 <= i < |xs| && xs[i] < level
    ensures r.Some? ==> r.value < |xs| && xs[r.value] < level
    ensures r.Some? ==> forall i :: 0 <= i < r.value ==> xs[i] >= level
  {
    if xs == [] then None
    else if xs[0] < level then Some(0)
    else match FirstBelow(xs[1..], level)
      case None => None
      case Some(k) => Some(k + 1)
  }

  /** trace[idx] for an integer index array; callers guarantee every index is in
      range (numpy would wrap a negative one). */
  function Take(trace: seq<real>, idx: seq<int>): (r: seq<real>)
    requires AllIn(idx, |trace|)
    ensures |r| == |idx|
    ensures forall k :: 0 <= k < |r| ==> r[k] == trace[idx[k]]
  {
    seq(|idx|, k requires 0 <= k < |idx| => trace[idx[k]])
  }

  /** s[lo:hi] for non-negative bounds: Python clips both bounds to the length and
      yields nothing when lo >= hi. */
  function PySlice<T>(s: seq<T>, lo: nat, hi: nat): (r: seq<T>)
    ensures lo <= hi <= |s| ==> r == s[lo..hi]
    ensures lo <= |s| < hi ==> r == s[lo..]
    ensures forall k :: 0 <= k < |r| ==> lo + k < |s| && r[k] == s[lo + k]
    ensures |r| == if lo >= hi || lo >= |s| then 0
                   else (if hi < |s| then hi else |s|) - lo
  {
    var a := if lo < |s| then lo else |s|;
    var b := if hi < |s| then hi else |s|;
    if a < b then s[a..b] else []
  }

  /** The position a slice bound i stands for in a sequence of length n: a
      negative bound counts from the end and is clipped at the start. */
  function PyIndex(i: int, n: nat): (r: nat)
    ensures 0 <= i ==> r == i
    ensures i < 0 ==> r <= n && (r == 0 || r - n == i)
    ensures i < 0 && 0 <= n + i ==> r == n + i
    ensures n + i < 0 ==> r == 0
  {
    if 0 <= i then i else if 0 <= n + i then n + i else 0
  }

  /** A slice keeps its positions inside the channel. */
  lemma PySliceAllIn(s: seq<int>, lo: nat, hi: nat, n: nat)
    requires AllIn(s, n)
    ensures AllIn(PySlice(s, lo, hi), n)
  {
    var a := if lo < |s| then lo else |s|;
    var b := if hi < |s| then hi else |s|;
    if a < b {
      var p := s[a..b];
      assert PySlice(s, lo, hi) == p;
      forall i | 0 <= i < |p| ensures 0 <= p[i] < n {
        assert p[i] == s[a + i];
      }
    }
  }
}
