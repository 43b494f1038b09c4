/** Window expansion. Every script widens a pulse run x into the index list
      [x[0]-i-1 for i in reversed(range(pre))] + x + [x[-1]+i+1 for i in range(post)]
    and then gathers the samples of a channel at those indices. The (pre, post)
    margins used are 39/39 around current pulses, 1999/19999 around LED pulses,
    999/999 in the short-pulse protocol and 0/500 in the frequency protocol.
    Nothing is clipped: numpy would wrap an index below 0 and raise on one past
    the end, so a window that leaves the recording is a precondition here. */
module Windows {
  import opened Numeric
  import opened Indexing
  import opened Segmentation

  /** The contiguous integer range lo, lo+1, ..., hi-1. */
  function Range(lo: int, hi: int): (r: seq<int>)
    requires lo <= hi
    ensures |r| == hi - lo
    ensures forall i :: 0 <= i < |r| ==> r[i] == lo + i
  {
    seq(hi - lo, i requires 0 <= i < hi - lo => lo + i)
  }

  /** Gathering a channel at a contiguous range inside it is the plain slice. */
  lemma TakeRange(trace: seq<real>, lo: int, hi: int)
    requires 0 <= lo <= hi <= |trace|
    ensures AllIn(Range(lo, hi), |trace|)
    ensures Take(trace, Range(lo, hi)) == trace[lo..hi]
  {
  }

  /** The widened index list of one run, built exactly as the comprehension does:
      the reversed pre-margin, the run itself, then the post-margin. */
  function Expand(x: seq<int>, pre: nat, post: nat): (w: seq<int>)
    requires |x| > 0
    ensures |w| == pre + |x| + post
    ensures w[pre..pre + |x|] == x
  {
    var before := seq(pre, j requires 0 <= j < pre => x[0] - (pre - 1 - j) - 1);
    var after := seq(post, i requires 0 <= i < post => Last(x) + i + 1);
    assert (before + x + after)[pre..pre + |x|] == x;
    before + x + after
  }

  /** A run of step 1 covers the range from its first to its last element. */
  lemma {:induction false} RunIsRange(x: seq<int>)
    requires |x| > 0 && StepsWithin(x, 1)
    ensures Last(x) == x[0] + |x| - 1
    ensures x == Range(x[0], x[0] + |x|)
  {
    var i := 1;
    while i < |x|
      invariant 1 <= i <= |x|
      invariant forall j :: 0 <= j < i ==> x[j] == x[0] + j
    {
      assert x[i] - x[i - 1] == 1;
      i := i + 1;
    }
  }

  /** An expanded run is the contiguous range x[0]-pre .. x[-1]+post, of length
      len(x)+pre+post. */
  lemma ExpandIsRange(x: seq<int>, pre: nat, post: nat)
    requires |x| > 0 && StepsWithin(x, 1)
    ensures Last(x) == x[0] + |x| - 1
    ensures Expand(x, pre, post) == Range(x[0] - pre, Last(x) + post + 1)
    ensures |Expand(x, pre, post)| == |x| + pre + post
  {
    RunIsRange(x);
    var w, r := Expand(x, pre, post), Range(x[0] - pre, Last(x) + post + 1);
    forall i | 0 <= i < |w| ensures w[i] == r[i] {
      if i >= pre && i < pre + |x| {
        assert w[i] == w[pre..pre + |x|][i - pre];
      }
    }
  }

  /** The window of a run fits in a recording of n samples. */
  ghost predicate Fits(x: seq<int>, pre: nat, post: nat, n: nat)
  {
    |x| > 0 && x[0] >= pre && Last(x) + post < n
  }

  /** np.vstack and np.asarray(...).T need every run (hence every window) to
      have the same length. */
  ghost predicate EqualLengths(runs: seq<seq<int>>)
  {
    forall k :: 0 <= k < |runs| ==> |runs[k]| == |runs[0]|
  }

  /** Every window of a list of runs fits in a recording of n samples. */
  ghost predicate AllFit(runs: seq<seq<int>>, pre: nat, post: nat, n: nat)
  {
    forall k :: 0 <= k < |runs| ==> Fits(runs[k], pre, post, n)
  }

  /** A fitting window of a step-1 run only holds indices of the recording, so
      gathering samples at it never wraps or fails. */
  lemma ExpandInRecording(x: seq<int>, pre: nat, post: nat, n: nat)
    requires StepsWithin(x, 1) && Fits(x, pre, post, n)
    ensures AllIn(Expand(x, pre, post), n)
  {
    ExpandIsRange(x, pre, post);
  }

  /** The samples of one channel inside the window of a run. */
  function WindowData(trace: seq<real>, x: seq<int>, pre: nat, post: nat): (d: seq<real>)
    requires StepsWithin(x, 1) && Fits(x, pre, post, |trace|)
    ensures |d| == pre + |x| + post
    ensures forall i :: 0 <= i < |d| ==> 0 <= x[0] - pre + i < |trace| && d[i] == trace[x[0] - pre + i]
  {
    ExpandInRecording(x, pre, post, |trace|);
    ExpandIsRange(x, pre, post);
    Take(trace, Expand(x, pre, post))
  }

  /** Every run of a list steps by one. */
  ghost predicate AllSteps(runs: seq<seq<int>>)
  {
    forall k :: 0 <= k < |runs| ==> StepsWithin(runs[k], 1)
  }

  /** [trace[i] for i in windows] over the windows of every run. */
  function WindowsData(trace: seq<real>, runs: seq<seq<int>>, pre: nat, post: nat): (ds: seq<seq<real>>)
    requires AllSteps(runs) && AllFit(runs, pre, post, |trace|)
    ensures |ds| == |runs|
    ensures forall k :: 0 <= k < |ds| ==> ds[k] == WindowData(trace, runs[k], pre, post)
  {
    seq(|runs|, k requires 0 <= k < |runs| => WindowData(trace, runs[k], pre, post))
  }

  /** The windows of a list of runs as index lists (the *_expand_idx lists). */
  function ExpandAll(runs: seq<seq<int>>, pre: nat, post: nat): (ws: seq<seq<int>>)
    requires forall k :: 0 <= k < |runs| ==> |runs[k]| > 0
    ensures |ws| == |runs|
    ensures forall k :: 0 <= k < |ws| ==> ws[k] == Expand(runs[k], pre, post)
  {
    seq(|runs|, k requires 0 <= k < |runs| => Expand(runs[k], pre, post))
  }

  /** Where the columns iloc[19899:19999] of a run end (exclusive): at 19999,
      or at the run's own end when the run is shorter. */
  function SteadyEnd(x: seq<int>): nat
  {
    if |x| < 19999 then |x| else 19999
  }

  /** The inhibitory steady-state window: the run's positions 19899 up to
      SteadyEnd (the iloc[19899:19999] columns, fewer than 100 when the run is
      shorter than 19999) followed by the 19999 indices after the last of them. */
  function SteadyWindow(x: seq<int>): (w: seq<int>)
    requires |x| > 19899
    ensures 0 < SteadyEnd(x) - 19899 <= 100
    ensures |w| == SteadyEnd(x) - 19899 + 19999
    ensures w[..SteadyEnd(x) - 19899] == x[19899..SteadyEnd(x)]
  {
    var tail := x[19899..SteadyEnd(x)];
    Expand(tail, 0, 19999)
  }

  /** For a step-1 pulse run the steady window is the contiguous range from the
      pulse's 19900th sample to 19999 samples past the last kept column. */
  lemma SteadyWindowIsRange(x: seq<int>)
    requires |x| > 19899 && StepsWithin(x, 1)
    ensures x[SteadyEnd(x) - 1] == x[19899] + SteadyEnd(x) - 19900
    ensures SteadyWindow(x) == Range(x[19899], x[SteadyEnd(x) - 1] + 20000)
  {
    var tail := x[19899..SteadyEnd(x)];
    assert StepsWithin(tail, 1) by {
      forall j | 0 < j < |tail| ensures tail[j] - tail[j - 1] == 1 {
        assert tail[j] == x[19899 + j] && tail[j - 1] == x[19899 + j - 1];
      }
    }
    ExpandIsRange(tail, 0, 19999);
    assert Last(tail) == x[SteadyEnd(x) - 1];
  }

  /** Every run that consecutive(…, 1) returns steps by one. */
  lemma ConsecutiveSteps(data: seq<int>)
    requires |data| > 0
    ensures AllSteps(Consecutive(data, 1))
    ensures forall k :: 0 <= k < |Consecutive(data, 1)| ==> |Consecutive(data, 1)[k]| > 0
  {
    ConsecutiveMaximal(data, 1);
  }

  /** Every index of every run lies inside a channel of n samples. */
  ghost predicate RunsIn(runs: seq<seq<int>>, n: nat)
  {
    forall k :: 0 <= k < |runs| ==> AllIn(runs[k], n)
  }

  /** [trace[i] for i in runs]: the samples of a channel over each run, with no
      widening. */
  function RunsData(trace: seq<real>, runs: seq<seq<int>>): (ds: seq<seq<real>>)
    requires RunsIn(runs, |trace|)
    ensures |ds| == |runs|
    ensures forall k :: 0 <= k < |ds| ==> ds[k] == Take(trace, runs[k])
  {
    seq(|runs|, k requires 0 <= k < |runs| => Take(trace, runs[k]))
  }

  /** The runs of an in-range index list are in range. */
  lemma ConsecutiveIn(data: seq<int>, n: nat)
    requires AllIn(data, n)
    ensures RunsIn(Consecutive(data, 1), n)
  {
    ConsecutiveMembers(data, 1);
  }
}
