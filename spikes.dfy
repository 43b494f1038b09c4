/** Spike detection and the spike-frequency rule.

    scipy.signal.find_peaks is outside the model: a PeakFinder stands for
    `find_peaks(segment, height=h)[0]`, and ValidFinder says what every caller
    relies on — the peak positions are strictly increasing, inside the segment,
    and no lower than the height threshold. */
module Spikes {
  import opened Numeric
  import opened Indexing

  type PeakFinder = (seq<real>, real) -> seq<nat>

  /** p is a list of peak positions of seg at threshold h. */
  ghost predicate IsPeakList(seg: seq<real>, h: real, p: seq<nat>)
  {
    && (forall i, j :: 0 <= i < j < |p| ==> p[i] < p[j])
    && (forall k :: 0 <= k < |p| ==> p[k] < |seg| && seg[p[k]] >= h)
  }

  ghost predicate ValidFinder(fp: PeakFinder)
  {
    forall seg, h :: IsPeakList(seg, h, fp(seg, h))
  }

  /** np.diff(peaks) / sampling_rate: the inter-spike intervals in ms. */
  function Intervals(peaks: seq<nat>, rate: nat): (iv: seq<real>)
    requires rate > 0
    requires forall i, j :: 0 <= i < j < |peaks| ==> peaks[i] < peaks[j]
    ensures |iv| == if |peaks| == 0 then 0 else |peaks| - 1
    ensures forall k :: 0 <= k < |iv| ==> iv[k] > 0.0
  {
    if |peaks| < 2 then []
    else seq(|peaks| - 1, k requires 0 <= k < |peaks| - 1 =>
           (peaks[k + 1] - peaks[k]) as real / rate as real)
  }

  /** get_spike_frequency: NaN (None) when there is no interval, 1000 over the
      one interval when there are two spikes, 1000 over the mean interval when
      there are more. The result is in Hz. */
  function SpikeFrequency(peaks: seq<nat>, rate: nat): (f: Option<real>)
    requires rate > 0
    requires forall i, j :: 0 <= i < j < |peaks| ==> peaks[i] < peaks[j]
    ensures f.Some? <==> |peaks| >= 2
    ensures f.Some? ==> f.value > 0.0
  {
    if |peaks| == 0 then None
    else
      var iv := Intervals(peaks, rate);
      if |iv| == 0 then None
      else if |iv| == 1 then Some(1.0 / iv[0] * 1000.0)
      else
        SumPositive(iv);
        Some(1.0 / Mean(iv) * 1000.0)
  }

  /** The intervals between the first k+1 peaks add up to the span from the first
      to the k-th peak, in ms. */
  lemma {:induction false} IntervalsTelescope(peaks: seq<nat>, rate: nat, k: nat)
    requires rate > 0
    requires forall i, j :: 0 <= i < j < |peaks| ==> peaks[i] < peaks[j]
    requires 1 <= k < |peaks|
    ensures Sum(Intervals(peaks, rate)[..k]) == (peaks[k] - peaks[0]) as real / rate as real
  {
    var iv := Intervals(peaks, rate);
    var r := rate as real;
    assert iv[..k][..k - 1] == iv[..k - 1];
    if k > 1 {
      IntervalsTelescope(peaks, rate, k - 1);
    }
    assert iv[k - 1] == (peaks[k] - peaks[k - 1]) as real / r;
    assert Sum(iv[..k]) == Sum(iv[..k - 1]) + iv[k - 1];
    DivAdd((peaks[k - 1] - peaks[0]) as real, (peaks[k] - peaks[k - 1]) as real, r);
  }

  lemma DivAdd(a: real, b: real, r: real)
    requires r > 0.0
    ensures a / r + b / r == (a + b) / r
  {
  }

  /** With two spikes the frequency is 1000 * rate / (p1 - p0). */
  lemma SpikeFrequencyTwo(peaks: seq<nat>, rate: nat)
    requires rate > 0 && |peaks| == 2 && peaks[0] < peaks[1]
    ensures SpikeFrequency(peaks, rate) == Some(1000.0 * rate as real / (peaks[1] - peaks[0]) as real)
  {
    var d := (peaks[1] - peaks[0]) as real;
    var r := rate as real;
    assert Intervals(peaks, rate)[0] == d / r;
    assert 1.0 / (d / r) * 1000.0 == 1000.0 * r / d;
  }

  /** Whatever the number n >= 2 of spikes, the frequency is the mean rate over
      the span of the train: 1000 * rate * (n - 1) / (last - first). Averaging
      the intervals first, as the script does, changes nothing. */
  lemma SpikeFrequencyMean(peaks: seq<nat>, rate: nat)
    requires rate > 0 && |peaks| >= 2
    requires forall i, j :: 0 <= i < j < |peaks| ==> peaks[i] < peaks[j]
    ensures SpikeFrequency(peaks, rate)
         == Some(1000.0 * rate as real * (|peaks| - 1) as real / (Last(peaks) - peaks[0]) as real)
  {
    if |peaks| == 2 {
      SpikeFrequencyTwo(peaks, rate);
    } else {
      SpikeFrequencyMany(peaks, rate);
    }
  }

  /** More than two spikes: the mean interval is the span over n - 1. */
  lemma SpikeFrequencyMany(peaks: seq<nat>, rate: nat)
    requires rate > 0 && |peaks| > 2
    requires forall i, j :: 0 <= i < j < |peaks| ==> peaks[i] < peaks[j]
    ensures SpikeFrequency(peaks, rate)
         == Some(1000.0 * rate as real * (|peaks| - 1) as real / (Last(peaks) - peaks[0]) as real)
  {
    var span, m := (Last(peaks) - peaks[0]) as real, (|peaks| - 1) as real;
    assert peaks[0] < Last(peaks);
    ReciprocalOfMeanInterval(span, rate as real, m);
    MeanInterval(peaks, rate);
    SpikeFrequencyOfMean(peaks, rate);
  }

  /** With more than two spikes the frequency is 1000 over the mean interval. */
  lemma SpikeFrequencyOfMean(peaks: seq<nat>, rate: nat)
    requires rate > 0 && |peaks| > 2
    requires forall i, j :: 0 <= i < j < |peaks| ==> peaks[i] < peaks[j]
    ensures Sum(Intervals(peaks, rate)) > 0.0
    ensures SpikeFrequency(peaks, rate) == Some(1.0 / Mean(Intervals(peaks, rate)) * 1000.0)
  {
    SumPositive(Intervals(peaks, rate));
  }

  /** The mean inter-spike interval is the span of the train over n - 1, in ms. */
  lemma MeanInterval(peaks: seq<nat>, rate: nat)
    requires rate > 0 && |peaks| > 2
    requires forall i, j :: 0 <= i < j < |peaks| ==> peaks[i] < peaks[j]
    ensures Mean(Intervals(peaks, rate))
         == ((Last(peaks) - peaks[0]) as real / rate as real) / (|peaks| - 1) as real
  {
    var iv := Intervals(peaks, rate);
    IntervalsTelescope(peaks, rate, |peaks| - 1);
    assert iv[..|peaks| - 1] == iv;
  }

  lemma ReciprocalOfMeanInterval(span: real, r: real, m: real)
    requires span > 0.0 && r > 0.0 && m > 0.0
    ensures 1.0 / ((span / r) / m) * 1000.0 == 1000.0 * r * m / span
  {
    assert (span / r) / m == span / (r * m);
    assert 1.0 / (span / (r * m)) == (r * m) / span;
  }

  /** One peak list per segment, built by the scripts' append loops:
      for pulse in segments: lists.append(find_peaks(pulse, height=h)[0]). */
  method PeakLists(fp: PeakFinder, segs: seq<seq<real>>, h: real) returns (lists: seq<seq<nat>>)
    ensures |lists| == |segs|
    ensures forall k :: 0 <= k < |segs| ==> lists[k] == fp(segs[k], h)
    ensures Counts(lists) == PeakCounts(fp, segs, h)
  {
    lists := [];
    for k := 0 to |segs|
      invariant |lists| == k
      invariant forall j :: 0 <= j < k ==> lists[j] == fp(segs[j], h)
    {
      lists := lists + [fp(segs[k], h)];
    }
  }

  /** The number of peaks in each list. */
  function Counts(lists: seq<seq<nat>>): (c: seq<nat>)
    ensures |c| == |lists|
    ensures forall k :: 0 <= k < |c| ==> c[k] == |lists[k]|
  {
    seq(|lists|, k requires 0 <= k < |lists| => |lists[k]|)
  }

  /** The number of peaks above h in each segment. */
  function PeakCounts(fp: PeakFinder, segs: seq<seq<real>>, h: real): (c: seq<nat>)
    ensures |c| == |segs|
    ensures forall k :: 0 <= k < |segs| ==> c[k] == |fp(segs[k], h)|
  {
    seq(|segs|, k requires 0 <= k < |segs| => |fp(segs[k], h)|)
  }

  /** The per-list count loop: for lst in lists: counts.append(len(lst)). */
  method CountPeaks(lists: seq<seq<nat>>) returns (counts: seq<nat>)
    ensures counts == Counts(lists)
  {
    counts := [];
    for k := 0 to |lists|
      invariant counts == Counts(lists[..k])
    {
      assert lists[..k + 1][..k] == lists[..k];
      counts := counts + [|lists[k]|];
    }
    assert lists[..|lists|] == lists;
  }

  /** The nested counter loop of the short-pulse protocol:
      for lst in lists: for spike in lst: total = total + 1. */
  method TotalSpikes(lists: seq<seq<nat>>) returns (total: nat)
    ensures total == SumNat(Counts(lists))
  {
    total := 0;
    for k := 0 to |lists|
      invariant total == SumNat(Counts(lists[..k]))
    {
      assert Counts(lists[..k + 1]) == Counts(lists[..k]) + [|lists[k]|];
      SumNatAppend(Counts(lists[..k]), [|lists[k]|]);
      assert SumNat([|lists[k]|]) == |lists[k]| by {
        assert [|lists[k]|][..0] == [];
      }
      var before := total;
      for j := 0 to |lists[k]|
        invariant total == before + j
      {
        total := total + 1;
      }
    }
    assert lists[..|lists|] == lists;
  }

  /** A total of counts is at least each of them and is zero exactly when every
      count is. */
  lemma {:induction false} SumNatBounds(xs: seq<nat>)
    ensures forall k :: 0 <= k < |xs| ==> xs[k] <= SumNat(xs)
    ensures SumNat(xs) == 0 <==> forall k :: 0 <= k < |xs| ==> xs[k] == 0
  {
    if xs != [] {
      SumNatBounds(xs[..|xs| - 1]);
      assert forall k :: 0 <= k < |xs| - 1 ==> xs[..|xs| - 1][k] == xs[k];
    }
  }
}
