/** The light-pulse part shared by the current-clamp scripts: the LED channel
    is thresholded into runs, each run is widened by 1999 samples before and
    19999 after, and up to seven stimuli are classified one block each (a block
    whose stimulus does not exist raises IndexError and reports NaN). The
    aggregated per-stimulus lists are then cut back in place to the number of
    stimuli with `del lst[max_list_index:7]`. */
module LedPulses {
  import opened Numeric
  import opened Indexing
  import opened Segmentation
  import opened Windows
  import opened Spikes
  import opened Response
  import opened PyLists

  /** Samples added before each LED run; position 1999 of a window is the light onset. */
  const LedOn: nat := 1999
  /** Samples added after each LED run. */
  const LedAfter: nat := 19999
  /** The number of per-stimulus blocks written out in the scripts. */
  const Slots: nat := 7
  /** find_peaks height used on every LED window. */
  const LedSpikeHeight: real := -30.0

  /** consecutive(np.where(LED_trace > level)[0]): one run per light pulse. */
  function LedRuns(led: seq<real>, level: real): seq<seq<int>>
  {
    Consecutive(Where(led, level), 1)
  }

  /** LED_time[0]: the duration of the first light pulse rounded to whole ms,
      within half a millisecond of the exact one. */
  function FirstPulseMs(led: seq<real>, level: real, rate: nat): (ms: int)
    requires rate > 0 && |Where(led, level)| > 0
    ensures |LedRuns(led, level)| > 0
    ensures var n := |LedRuns(led, level)[0]|;
            2 * (n - ms * rate) <= rate && 2 * (ms * rate - n) <= rate
  {
    ConsecutiveFirst(Where(led, level), 1);
    var n := |LedRuns(led, level)[0]|;
    RoundHalfEvenNearest(n, rate);
    RoundHalfEven(n, rate)
  }

  /** The light pulses exist and every widened pulse lies inside the recording. */
  ghost predicate LedWindowsFit(led: seq<real>, level: real, pre: nat, post: nat)
  {
    |Where(led, level)| > 0 && AllFit(LedRuns(led, level), pre, post, |led|)
  }

  /** [trace[i] for i in LED_expand_idx]: one channel over every widened pulse. */
  function LedWindows(trace: seq<real>, led: seq<real>, level: real, pre: nat, post: nat): (ws: seq<seq<real>>)
    requires |trace| == |led| && LedWindowsFit(led, level, pre, post)
    ensures |ws| == |LedRuns(led, level)| && |ws| > 0
    ensures AllSteps(LedRuns(led, level))
    ensures ws == WindowsData(trace, LedRuns(led, level), pre, post)
    ensures forall k :: 0 <= k < |ws| ==> |ws[k]| == pre + |LedRuns(led, level)[k]| + post
  {
    ConsecutiveSteps(Where(led, level));
    WindowsData(trace, LedRuns(led, level), pre, post)
  }

  /** list(map(max, …)) or list(map(min, …)) over the windows. */
  function Extrema(ws: seq<seq<real>>, pol: Polarity): (m: seq<real>)
    requires forall k :: 0 <= k < |ws| ==> |ws[k]| > 0
    ensures |m| == |ws|
    ensures forall k :: 0 <= k < |ws| ==> m[k] == Extremum(ws[k], pol)
  {
    seq(|ws|, k requires 0 <= k < |ws| => Extremum(ws[k], pol))
  }

  /** list(map(abs, list(map(max, …)))) */
  function AbsMaxima(ws: seq<seq<real>>): (m: seq<real>)
    requires forall k :: 0 <= k < |ws| ==> |ws[k]| > 0
    ensures |m| == |ws|
    ensures forall k :: 0 <= k < |ws| ==> m[k] == Abs(MaxOf(ws[k])) && m[k] >= 0.0
  {
    seq(|ws|, k requires 0 <= k < |ws| => Abs(MaxOf(ws[k])))
  }

  /** Every extremum minus the baseline. */
  function Deflections(peaks: seq<real>, baseline: real): (d: seq<real>)
    ensures |d| == |peaks|
    ensures forall k :: 0 <= k < |d| ==> d[k] + baseline == peaks[k]
  {
    seq(|peaks|, k requires 0 <= k < |peaks| => peaks[k] - baseline)
  }

  /** (idxmax(window) - 1999) / sampling_rate: the delay from light onset to
      the first position of each window's maximum, in ms. */
  function MaxDelays(ws: seq<seq<real>>, rate: nat): (d: seq<real>)
    requires rate > 0
    requires forall k :: 0 <= k < |ws| ==> |ws[k]| > 0
    ensures |d| == |ws|
    ensures forall k :: 0 <= k < |ws| ==> d[k] == Latency(ArgMax(ws[k]), LedOn, rate)
  {
    seq(|ws|, k requires 0 <= k < |ws| => Latency(ArgMax(ws[k]), LedOn, rate))
  }

  /** The classification of stimulus k, as block k computes it. */
  function StimulusResponse(fp: PeakFinder, w: seq<real>, vbase: real, rate: nat, pol: Polarity): (c: Classified)
    requires ValidFinder(fp) && rate > 0 && |w| > 0
    ensures c.spikeCount == |fp(w, LedSpikeHeight)|
    ensures c.kind == Spike <==> |fp(w, LedSpikeHeight)| > 0
    ensures c.deflection == c.peak - vbase
    ensures c.kind == SubThreshold ==>
              c.peak == Extremum(w, pol) && c.latency == Latency(ArgMax(w), LedOn, rate)
    ensures c.kind == Spike ==> c.peak >= LedSpikeHeight
  {
    ClassifyPeakBounds(fp, w, LedSpikeHeight, vbase, LedOn, rate, pol);
    Classify(w, fp(w, LedSpikeHeight), vbase, LedOn, rate, pol)
  }

  /** The seven blocks LED_stim_1_data … LED_stim_7_data: block k classifies
      stimulus k when it exists and reports NaN (None) otherwise. */
  method StimulusBlocks(fp: PeakFinder, ws: seq<seq<real>>, vbase: real, rate: nat, pol: Polarity)
    returns (slots: seq<Option<Classified>>)
    requires ValidFinder(fp) && rate > 0
    requires forall k :: 0 <= k < |ws| ==> |ws[k]| > 0
    ensures |slots| == Slots
    ensures forall k :: 0 <= k < Slots ==> (slots[k].Some? <==> k < |ws|)
    ensures forall k :: 0 <= k < Slots && k < |ws| ==>
              slots[k].value == StimulusResponse(fp, ws[k], vbase, rate, pol)
  {
    slots := [];
    var k := 0;
    while k < Slots
      invariant 0 <= k <= Slots && |slots| == k
      invariant forall j :: 0 <= j < k ==> (slots[j].Some? <==> j < |ws|)
      invariant forall j :: 0 <= j < k && j < |ws| ==>
                  slots[j].value == StimulusResponse(fp, ws[j], vbase, rate, pol)
    {
      if k < |ws| {
        slots := slots + [Some(StimulusResponse(fp, ws[k], vbase, rate, pol))];
      } else {
        slots := slots + [None];
      }
      k := k + 1;
    }
  }

  /** max_list_index = len(LED_data); del lst[max_list_index:7]: the list
      object is cut back in place to one entry per existing stimulus. */
  method KeepStimulated(slots: seq<Option<Classified>>, n: nat) returns (kept: seq<Option<Classified>>)
    requires |slots| == Slots
    ensures kept == slots[..if n < Slots then n else Slots]
  {
    var lst := new PyList(slots);
    lst.DelSlice(n, Slots);
    kept := lst.items;
  }

  /** spike_count_LED_all, once cut back. */
  function KeptCounts(kept: seq<Option<Classified>>): (c: seq<nat>)
    ensures |c| == |kept|
    ensures forall k :: 0 <= k < |kept| && kept[k].Some? ==> c[k] == kept[k].value.spikeCount
  {
    seq(|kept|, k requires 0 <= k < |kept| => if kept[k].Some? then kept[k].value.spikeCount else 0)
  }

  /** The number of peaks above -30 mV in each of the first n windows. */
  function StimulusCounts(fp: PeakFinder, ws: seq<seq<real>>, n: nat): (c: seq<nat>)
    requires n <= |ws|
    ensures |c| == n
    ensures forall k :: 0 <= k < n ==> c[k] == |fp(ws[k], LedSpikeHeight)|
  {
    seq(n, k requires 0 <= k < n => |fp(ws[k], LedSpikeHeight)|)
  }

  /** The per-stimulus responses of a trace (at most seven) and
      spike_count_total_LED_trace, the sum of their spike counts. */
  method StimulusResponses(fp: PeakFinder, ws: seq<seq<real>>, vbase: real, rate: nat, pol: Polarity)
    returns (kept: seq<Option<Classified>>, total: nat)
    requires ValidFinder(fp) && rate > 0
    requires forall k :: 0 <= k < |ws| ==> |ws[k]| > 0
    ensures |kept| == if |ws| < Slots then |ws| else Slots
    ensures forall k :: 0 <= k < |kept| ==> kept[k] == Some(StimulusResponse(fp, ws[k], vbase, rate, pol))
    ensures total == SumNat(StimulusCounts(fp, ws, |kept|))
  {
    var slots := StimulusBlocks(fp, ws, vbase, rate, pol);
    kept := KeepStimulated(slots, |ws|);
    total := SumNat(KeptCounts(kept));
    assert KeptCounts(kept) == StimulusCounts(fp, ws, |kept|);
  }

  /** The trace total bounds every stimulus's count, and it is zero exactly when
      none of the first n stimuli produced a spike. */
  lemma StimulusTotalBounds(fp: PeakFinder, ws: seq<seq<real>>, vbase: real, rate: nat, pol: Polarity, n: nat)
    requires ValidFinder(fp) && rate > 0 && n <= |ws|
    requires forall k :: 0 <= k < |ws| ==> |ws[k]| > 0
    ensures forall k :: 0 <= k < n ==>
              StimulusResponse(fp, ws[k], vbase, rate, pol).spikeCount <= SumNat(StimulusCounts(fp, ws, n))
    ensures SumNat(StimulusCounts(fp, ws, n)) == 0 <==>
              forall k :: 0 <= k < n ==> StimulusResponse(fp, ws[k], vbase, rate, pol).kind == SubThreshold
  {
    var counts := StimulusCounts(fp, ws, n);
    SumNatBounds(counts);
    forall k | 0 <= k < n
      ensures StimulusResponse(fp, ws[k], vbase, rate, pol).kind == SubThreshold <==> counts[k] == 0
    {
      var c := StimulusResponse(fp, ws[k], vbase, rate, pol);
    }
  }

  /** What the light-pulse part reports for a trace: one entry per light
      pulse for the delays to the voltage maximum (ms), the absolute current
      maxima and the voltage extrema and deflections; one response per
      stimulus for at most seven stimuli, and the trace spike total. */
  datatype LedSummary = LedSummary(maxDelays: seq<real>, currentMax: seq<real>,
                                   voltagePeak: seq<real>, deflections: seq<real>,
                                   responses: seq<Option<Classified>>, spikeTotal: nat)

  /** The per-pulse lists and the seven blocks over the voltage windows vw and
      the baseline-subtracted current windows cw. A subthreshold stimulus
      reports the same peak, delay and deflection as the per-pulse lists (the
      delay to the maximum whatever the polarity), and a spiking one a first
      spike at or above -30 mV. */
  method Summarise(fp: PeakFinder, vw: seq<seq<real>>, cw: seq<seq<real>>, vbase: real, rate: nat, pol: Polarity)
    returns (s: LedSummary)
    requires ValidFinder(fp) && rate > 0
    requires forall k :: 0 <= k < |vw| ==> |vw[k]| > 0
    requires forall k :: 0 <= k < |cw| ==> |cw[k]| > 0
    ensures s.maxDelays == MaxDelays(vw, rate)
    ensures s.currentMax == AbsMaxima(cw)
    ensures s.voltagePeak == Extrema(vw, pol)
    ensures s.deflections == Deflections(s.voltagePeak, vbase)
    ensures |s.responses| == if |vw| < Slots then |vw| else Slots
    ensures forall k :: 0 <= k < |s.responses| ==>
              s.responses[k] == Some(StimulusResponse(fp, vw[k], vbase, rate, pol))
    ensures s.spikeTotal == SumNat(StimulusCounts(fp, vw, |s.responses|))
    ensures s.spikeTotal == 0 <==>
              forall k :: 0 <= k < |s.responses| ==> s.responses[k].value.kind == SubThreshold
    ensures forall k :: 0 <= k < |s.responses| && s.responses[k].value.kind == SubThreshold ==>
              && s.responses[k].value.peak == s.voltagePeak[k]
              && s.responses[k].value.latency == s.maxDelays[k]
              && s.responses[k].value.deflection == s.deflections[k]
    ensures forall k :: 0 <= k < |s.responses| && s.responses[k].value.kind == Spike ==>
              s.responses[k].value.peak >= LedSpikeHeight
  {
    var peaks := Extrema(vw, pol);
    var responses, total := StimulusResponses(fp, vw, vbase, rate, pol);
    var delays, deflections := MaxDelays(vw, rate), Deflections(peaks, vbase);
    forall k | 0 <= k < |responses| && responses[k].value.kind == SubThreshold
      ensures responses[k].value.peak == peaks[k] && responses[k].value.latency == delays[k]
      ensures responses[k].value.deflection == deflections[k]
    {
      var c := StimulusResponse(fp, vw[k], vbase, rate, pol);
      assert responses[k].value == c;
      assert c.peak == peaks[k];
      assert deflections[k] == peaks[k] - vbase;
    }
    StimulusTotalBounds(fp, vw, vbase, rate, pol, |responses|);
    s := LedSummary(delays, AbsMaxima(cw), peaks, deflections, responses, total);
  }
}
