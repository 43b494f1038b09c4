/** The current-injection part of the current-clamp scripts, as
    Excitatory_Opsin_Current_Clamp.py writes it with a 39-sample margin.
    Inhibitory_Opsin_CC_Short_AP_Inhibit.py repeats it with a 999-sample
    margin and without the spike frequency of the spiking branch. It runs
    only when the raw current channel goes above 40 pA. The pulses are the runs
    of the baseline-subtracted current above 10 pA; each is widened by the
    margin on both sides, and find_peaks at 0 mV on the voltage of the first
    window decides between a spiking and a subthreshold response. */
module CurrentPulse {
  import opened Numeric
  import opened Indexing
  import opened Segmentation
  import opened Windows
  import opened Spikes
  import opened Response

  /** The samples averaged for the voltage and current baselines, voltage_trace[0:1999]. */
  const BaselineSamples: nat := 1999

  /** current_trace_baseline_substracted */
  function BaselineSubtracted(trace: seq<real>): (r: seq<real>)
    requires |trace| > 0
    ensures |r| == |trace|
    ensures forall i :: 0 <= i < |r| ==> r[i] + HeadMean(trace, BaselineSamples) == trace[i]
  {
    Subtract(trace, HeadMean(trace, BaselineSamples))
  }

  /** consecutive(np.where(current_trace_baseline_substracted > 10)[0]) */
  function PulseRuns(current: seq<real>): (runs: seq<seq<int>>)
    requires |current| > 0
  {
    Consecutive(Where(BaselineSubtracted(current), 10.0), 1)
  }

  /** The current pulses exist and every widened pulse lies inside the
      recording, so building the windows neither fails nor wraps. */
  ghost predicate PulsesFit(current: seq<real>, margin: nat)
    requires |current| > 0
  {
    && |Where(BaselineSubtracted(current), 10.0)| > 0
    && AllFit(PulseRuns(current), margin, margin, |current|)
  }

  /** The position of the first occurrence of v in s. */
  ghost function FirstIndex(s: seq<int>, v: int): (i: nat)
    requires v in s
    ensures i < |s| && s[i] == v
    ensures forall j :: 0 <= j < i ==> s[j] != v
  {
    if s[0] == v then 0 else 1 + FirstIndex(s[1..], v)
  }

  /** A value already present in s[..n] first occurs at the same place in s. */
  lemma FirstIndexPrefix(s: seq<int>, n: nat, v: int)
    requires n <= |s| && v in s[..n]
    ensures v in s && FirstIndex(s, v) == FirstIndex(s[..n], v)
  {
    var a, b := FirstIndex(s, v), FirstIndex(s[..n], v);
    assert s[b] == v;
    assert a <= b;
  }

  /** Order by first occurrence in s[..n] carries over to s, and the last
      sample, when it is new, occurs after every earlier value. */
  lemma FirstOccurrenceExtends(s: seq<int>, front: seq<int>)
    requires |s| > 0
    requires forall i :: 0 <= i < |front| ==> front[i] in s[..|s| - 1]
    requires forall i, j :: 0 <= i < j < |front| ==>
               FirstIndex(s[..|s| - 1], front[i]) < FirstIndex(s[..|s| - 1], front[j])
    ensures forall i :: 0 <= i < |front| ==> front[i] in s
    ensures forall i, j :: 0 <= i < j < |front| ==> FirstIndex(s, front[i]) < FirstIndex(s, front[j])
    ensures s[|s| - 1] !in s[..|s| - 1] ==>
              forall i :: 0 <= i < |front| ==> FirstIndex(s, front[i]) < FirstIndex(s, s[|s| - 1])
  {
    var n := |s| - 1;
    forall i | 0 <= i < |front|
      ensures front[i] in s && FirstIndex(s, front[i]) == FirstIndex(s[..n], front[i]) < n
    {
      FirstIndexPrefix(s, n, front[i]);
    }
  }

  /** No value occurs twice in s. */
  ghost predicate NoRepeats(s: seq<int>)
  {
    forall i, j :: 0 <= i < j < |s| ==> s[i] != s[j]
  }

  /** r lists values of s in the order in which they first occur in s. */
  ghost predicate InFirstOccurrenceOrder(s: seq<int>, r: seq<int>)
  {
    && (forall i :: 0 <= i < |r| ==> r[i] in s)
    && forall i, j :: 0 <= i < j < |r| ==> FirstIndex(s, r[i]) < FirstIndex(s, r[j])
  }

  /** Series.drop_duplicates(): the first occurrence of each value, in the
      order of those first occurrences. */
  function DropDuplicates(s: seq<int>): (r: seq<int>)
    ensures forall v :: v in r <==> v in s
    ensures NoRepeats(r)
    ensures InFirstOccurrenceOrder(s, r)
    ensures |r| <= |s|
  {
    if s == [] then []
    else
      var n := |s| - 1;
      var front := DropDuplicates(s[..n]);
      assert s == s[..n] + [s[n]];
      FirstOccurrenceExtends(s, front);
      if s[n] in front then front else front + [s[n]]
  }

  /** A list with no repeated value is left as it is. */
  lemma {:induction false} DropDuplicatesDistinct(s: seq<int>)
    requires NoRepeats(s)
    ensures DropDuplicates(s) == s
  {
    if s != [] {
      var n := |s| - 1;
      var front := s[..n];
      assert NoRepeats(front);
      DropDuplicatesDistinct(front);
      assert s[n] !in front;
      calc {
        DropDuplicates(s);
        { DropDuplicatesNew(s); }
        DropDuplicates(front) + [s[n]];
        front + [s[n]];
        s;
      }
    }
  }

  /** A last value not seen before is kept, after the earlier ones. */
  lemma DropDuplicatesNew(s: seq<int>)
    requires |s| > 0 && s[|s| - 1] !in s[..|s| - 1]
    ensures DropDuplicates(s) == DropDuplicates(s[..|s| - 1]) + [s[|s| - 1]]
  {
  }

  /** round(run length / sampling_rate) for every run: the pulse durations in ms. */
  function RoundedLengths(runs: seq<seq<int>>, rate: nat): (ms: seq<int>)
    requires rate > 0
    ensures |ms| == |runs|
    ensures forall k :: 0 <= k < |runs| ==> ms[k] == RoundHalfEven(|runs[k]|, rate)
  {
    seq(|runs|, k requires 0 <= k < |runs| => RoundHalfEven(|runs[k]|, rate))
  }

  /** Every rounded duration is within half a millisecond of the exact one. */
  lemma RoundedLengthsNearest(runs: seq<seq<int>>, rate: nat)
    requires rate > 0
    ensures var ms := RoundedLengths(runs, rate);
            forall k :: 0 <= k < |runs| ==>
              2 * (|runs[k]| - ms[k] * rate) <= rate && 2 * (ms[k] * rate - |runs[k]|) <= rate
  {
    var ms := RoundedLengths(runs, rate);
    forall k | 0 <= k < |runs|
      ensures 2 * (|runs[k]| - ms[k] * rate) <= rate && 2 * (ms[k] * rate - |runs[k]|) <= rate
    {
      RoundHalfEvenNearest(|runs[k]|, rate);
    }
  }

  /** What the spike detection on the first window found. */
  datatype PulseResponse =
    | SubThresholdPulses(windows: seq<Classified>)
    | SpikingPulse(first: Classified)

  /** The current-pulse outcome: no_I_pulse_present (all metrics NaN), or the
      distinct pulse durations in ms, the largest current in the first window,
      the first position of that window above 10 pA, and the response. */
  datatype CurrentPulseResult =
    | NoCurrentPulse
    | CurrentPulse(durationsMs: seq<int>, maxCurrent: real, start: nat, response: PulseResponse)

  /** The first widened pulse crosses 10 pA no later than the margin: the pulse
      itself starts there. */
  lemma FirstWindowCrosses(current: seq<real>, margin: nat)
    requires |current| > 0 && PulsesFit(current, margin)
    ensures var runs := PulseRuns(current);
            |runs| > 0 && StepsWithin(runs[0], 1) &&
            var w := WindowData(BaselineSubtracted(current), runs[0], margin, margin);
            margin < |w| && w[margin] > 10.0
  {
    var sub := BaselineSubtracted(current);
    var idx := Where(sub, 10.0);
    ConsecutiveFirst(idx, 1);
    ConsecutiveSteps(idx);
    var runs := PulseRuns(current);
    var w := WindowData(sub, runs[0], margin, margin);
    assert w[margin] == sub[runs[0][0]];
  }

  /** The baseline-subtracted current over the first widened pulse. */
  function FirstWindowCurrent(current: seq<real>, margin: nat): (cw: seq<real>)
    requires |current| > 0 && PulsesFit(current, margin)
    ensures |cw| > margin && cw[margin] > 10.0
  {
    FirstWindowCrosses(current, margin);
    WindowData(BaselineSubtracted(current), PulseRuns(current)[0], margin, margin)
  }

  /** I_pulse_start_idx: the first position of the first window above 10 pA,
      never later than the margin. */
  function PulseStart(current: seq<real>, margin: nat): (s: nat)
    requires |current| > 0 && PulsesFit(current, margin)
    ensures var cw := FirstWindowCurrent(current, margin);
            && s <= margin && cw[s] > 10.0
            && forall i :: 0 <= i < s ==> cw[i] <= 10.0
  {
    var cw := FirstWindowCurrent(current, margin);
    var start := FirstAbove(cw, 10.0);
    assert start.Some? && start.value <= margin by {
      assert cw[margin] > 10.0;
    }
    start.value
  }

  /** The voltage over every widened pulse. */
  function VoltageWindows(current: seq<real>, voltage: seq<real>, margin: nat): (vw: seq<seq<real>>)
    requires |current| == |voltage| > 0 && PulsesFit(current, margin)
    ensures |vw| == |PulseRuns(current)| && |vw| > 0
    ensures AllSteps(PulseRuns(current))
    ensures vw == WindowsData(voltage, PulseRuns(current), margin, margin)
    ensures forall k :: 0 <= k < |vw| ==> |vw[k]| > 0
  {
    FirstWindowCrosses(current, margin);
    ConsecutiveSteps(Where(BaselineSubtracted(current), 10.0));
    WindowsData(voltage, PulseRuns(current), margin, margin)
  }

  /** The response branch: spiking when find_peaks(height=0) finds anything in
      the first window, and then only the first window is reported; otherwise
      every window is reported as a subthreshold event with latency measured
      from position 39. */
  function ResponseOf(fp: PeakFinder, vw: seq<seq<real>>, vbase: real, start: nat, rate: nat): (resp: PulseResponse)
    requires ValidFinder(fp) && rate > 0 && |vw| > 0
    requires forall k :: 0 <= k < |vw| ==> |vw[k]| > 0
    ensures resp.SpikingPulse? <==> |fp(vw[0], 0.0)| > 0
    ensures resp.SpikingPulse? ==>
              resp.first == SpikeResponse(vw[0], fp(vw[0], 0.0), vbase, start, rate)
              && resp.first.peak >= 0.0
    ensures resp.SubThresholdPulses? ==>
              |resp.windows| == |vw|
              && forall k :: 0 <= k < |vw| ==>
                   resp.windows[k] == SubThresholdResponse(vw[k], vbase, 39, rate, MaxPeak)
  {
    var peaks := fp(vw[0], 0.0);
    assert IsPeakList(vw[0], 0.0, peaks);
    if |peaks| == 0 then
      SubThresholdPulses(seq(|vw|, k requires 0 <= k < |vw| =>
                               SubThresholdResponse(vw[k], vbase, 39, rate, MaxPeak)))
    else SpikingPulse(SpikeResponse(vw[0], peaks, vbase, start, rate))
  }

  /** Part 1 of the current-clamp scripts. */
  function CurrentPulseBranch(fp: PeakFinder, current: seq<real>, voltage: seq<real>, rate: nat, margin: nat)
    : (r: CurrentPulseResult)
    requires ValidFinder(fp) && rate > 0
    requires |current| == |voltage| > 0
    requires MaxOf(current) > 40.0 ==> PulsesFit(current, margin)
    ensures r.NoCurrentPulse? <==> MaxOf(current) <= 40.0
    ensures r.CurrentPulse? ==>
              && NoRepeats(r.durationsMs)
              && (forall v :: v in r.durationsMs <==> v in RoundedLengths(PulseRuns(current), rate))
              && InFirstOccurrenceOrder(RoundedLengths(PulseRuns(current), rate), r.durationsMs)
              && r.maxCurrent == MaxOf(FirstWindowCurrent(current, margin)) && r.maxCurrent > 10.0
              && r.start == PulseStart(current, margin)
              && r.response == ResponseOf(fp, VoltageWindows(current, voltage, margin),
                                          HeadMean(voltage, BaselineSamples), r.start, rate)
  {
    if MaxOf(current) <= 40.0 then NoCurrentPulse
    else
      var cw := FirstWindowCurrent(current, margin);
      var start := PulseStart(current, margin);
      var response := ResponseOf(fp, VoltageWindows(current, voltage, margin),
                                 HeadMean(voltage, BaselineSamples), start, rate);
      CurrentPulse(DropDuplicates(RoundedLengths(PulseRuns(current), rate)), MaxOf(cw), start, response)
  }
}
