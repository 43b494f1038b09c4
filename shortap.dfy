/** Inhibitory_Opsin_CC_Short_AP_Inhibit.py: trains of short current pulses,
    some of them paired with light. The current-pulse part is the
    excitatory current-clamp one with a 999-sample margin and no spike
    frequency; the light part counts the
    spikes (peaks above -30 mV) of the light windows and of the current-only
    windows, averages them per pulse and reports how much the light inhibited
    spiking. Every window adds 999 samples on each side of its run. */
module ShortApInhibit {
  import opened Numeric
  import opened Indexing
  import opened Segmentation
  import opened Windows
  import opened Spikes
  import opened IndexSets
  import opened CurrentPulse
  import opened LedPulses

  /** Samples added on each side of every run. */
  const Margin: nat := 999
  /** LED_trace > 0.18 marks the light pulses. */
  const LedLevel: real := 0.18
  /** find_peaks height of the spike counts. */
  const SpikeHeight: real := -30.0

  /** Part 1: the current-pulse branch with the 999-sample margin; the
      subthreshold latency still counts from position 39. Unlike the
      excitatory script this one never calls get_spike_frequency, so its
      spiking response carries no frequency. */
  function CurrentPart(fp: PeakFinder, voltage: seq<real>, current: seq<real>, rate: nat): (r: CurrentPulseResult)
    requires ValidFinder(fp) && rate > 0
    requires |voltage| == |current| > 0
    requires MaxOf(current) > 40.0 ==> PulsesFit(current, Margin)
    ensures r.NoCurrentPulse? <==> MaxOf(current) <= 40.0
    ensures r.CurrentPulse? ==> r.start <= Margin && r.maxCurrent > 10.0
    ensures r.CurrentPulse? && r.response.SpikingPulse? ==> r.response.first.freq == None
    ensures var b := CurrentPulseBranch(fp, current, voltage, rate, Margin);
            r.CurrentPulse? ==>
              && b.CurrentPulse?
              && r.durationsMs == b.durationsMs && r.maxCurrent == b.maxCurrent && r.start == b.start
              && (r.response.SpikingPulse? <==> b.response.SpikingPulse?)
              && (r.response.SubThresholdPulses? ==> r.response == b.response)
              && (r.response.SpikingPulse? ==> r.response.first == b.response.first.(freq := None))
  {
    var b := CurrentPulseBranch(fp, current, voltage, rate, Margin);
    if b.CurrentPulse? && b.response.SpikingPulse? then
      b.(response := SpikingPulse(b.response.first.(freq := None)))
    else b
  }

  /** The per-pulse peaks of the light part, one entry per light pulse. */
  datatype LightPeaks = LightPeaks(durationMs: int, currentMax: seq<real>, voltageMax: seq<real>,
                                   deflections: seq<real>)

  /** Part 2, first half: the rounded duration of the first light pulse, the
      absolute maximum of the baseline-subtracted current in each window, and
      the maximum voltage of each window with its deflection from the
      baseline. */
  function LightPart(voltage: seq<real>, current: seq<real>, led: seq<real>, rate: nat): (p: LightPeaks)
    requires |voltage| == |current| == |led| > 0 && rate > 0
    requires LedWindowsFit(led, LedLevel, Margin, Margin)
    ensures var vw := LedWindows(voltage, led, LedLevel, Margin, Margin);
            var cw := LedWindows(BaselineSubtracted(current), led, LedLevel, Margin, Margin);
            && p.durationMs == FirstPulseMs(led, LedLevel, rate)
            && |p.currentMax| == |p.voltageMax| == |p.deflections| == |vw|
            && (forall k :: 0 <= k < |vw| ==>
                  p.currentMax[k] == Abs(MaxOf(cw[k])) && p.voltageMax[k] == MaxOf(vw[k]))
            && (forall k :: 0 <= k < |vw| ==>
                  p.deflections[k] + HeadMean(voltage, BaselineSamples) == p.voltageMax[k])
  {
    var vw := LedWindows(voltage, led, LedLevel, Margin, Margin);
    var cw := LedWindows(BaselineSubtracted(current), led, LedLevel, Margin, Margin);
    var vmax := Extrema(vw, Response.MaxPeak);
    LightPeaks(FirstPulseMs(led, LedLevel, rate), AbsMaxima(cw), vmax, Deflections(vmax, HeadMean(voltage, BaselineSamples)))
  }

  /** The injected positions (baseline-subtracted current above 10 pA) and the
      light positions. */
  function Injected(current: seq<real>): seq<int>
    requires |current| > 0
  {
    Where(BaselineSubtracted(current), 10.0)
  }

  /** I_plus_LED_index_cons: the runs where current and light coincide. */
  function CoincidentRuns(current: seq<real>, led: seq<real>): seq<seq<int>>
    requires |current| > 0
  {
    Consecutive(Intersect(Injected(current), Where(led, LedLevel)), 1)
  }

  /** I_only_idx_cons: the runs of current without light. */
  function CurrentOnlyRuns(current: seq<real>, led: seq<real>): seq<seq<int>>
    requires |current| > 0
  {
    Consecutive(Without(Injected(current), Where(led, LedLevel)), 1)
  }

  /** What the script needs to run to the end: a current pulse (otherwise
      current_injection_idx is never defined), light windows that fit and share
      one length (np.vstack), at least one coincident position (its first run is
      widened) and current-only runs whose windows fit. */
  ghost predicate Runnable(current: seq<real>, led: seq<real>)
    requires |current| == |led| > 0
  {
    && MaxOf(current) > 40.0 && PulsesFit(current, Margin)
    && LedWindowsFit(led, LedLevel, Margin, Margin)
    && EqualLengths(LedRuns(led, LedLevel))
    && |Intersect(Injected(current), Where(led, LedLevel))| > 0
    && CurrentOnlyFit(current, led)
  }

  /** There are current-only positions and every widened current-only run
      lies inside the recording. */
  ghost predicate CurrentOnlyFit(current: seq<real>, led: seq<real>)
    requires |current| == |led| > 0
  {
    |Without(Injected(current), Where(led, LedLevel))| > 0
    && AllFit(CurrentOnlyRuns(current, led), Margin, Margin, |current|)
  }

  /** The voltage over every widened current-only run. */
  function CurrentOnlyWindows(voltage: seq<real>, current: seq<real>, led: seq<real>): (ws: seq<seq<real>>)
    requires |voltage| == |current| == |led| > 0 && CurrentOnlyFit(current, led)
    ensures |ws| == |CurrentOnlyRuns(current, led)| && |ws| > 0
    ensures AllSteps(CurrentOnlyRuns(current, led))
    ensures ws == WindowsData(voltage, CurrentOnlyRuns(current, led), Margin, Margin)
    ensures forall k :: 0 <= k < |ws| ==> |ws[k]| == Margin + |CurrentOnlyRuns(current, led)[k]| + Margin
  {
    var idx := Without(Injected(current), Where(led, LedLevel));
    ConsecutiveSteps(idx);
    ConsecutiveFirst(idx, 1);
    WindowsData(voltage, CurrentOnlyRuns(current, led), Margin, Margin)
  }

  /** spike_dif_on_avg / spike_count_I_avg_per_pulse * 100; Python raises
      ZeroDivisionError (None) when the current-only average is zero. */
  function InhibitionPercent(avgI: real, avgLed: real): (p: Option<real>)
    ensures p.None? <==> avgI == 0.0
    ensures p.Some? ==> p.value * avgI == (avgI - avgLed) * 100.0
  {
    if avgI == 0.0 then None else Some((avgI - avgLed) / avgI * 100.0)
  }

  /** With spiking in the current-only pulses, the inhibition is 100 % exactly
      when the light pulses had no spike, never above 100 %, and not negative
      exactly when the light did not raise the average. */
  lemma InhibitionBounds(avgI: real, avgLed: real)
    requires avgI > 0.0 && avgLed >= 0.0
    ensures InhibitionPercent(avgI, avgLed).Some?
    ensures var p := InhibitionPercent(avgI, avgLed).value;
            && p <= 100.0
            && (p == 100.0 <==> avgLed == 0.0)
            && (p >= 0.0 <==> avgLed <= avgI)
  {
    var p := InhibitionPercent(avgI, avgLed).value;
    assert p * avgI == (avgI - avgLed) * 100.0;
    if p == 100.0 {
      assert avgLed * 100.0 == 0.0;
    }
    if p >= 0.0 {
      assert p * avgI >= 0.0;
    } else {
      assert p * avgI < 0.0;
    }
  }

  /** A spike total averaged over a number of pulses. */
  function PerPulse(total: nat, pulses: nat): (avg: real)
    requires pulses > 0
    ensures avg * pulses as real == total as real
    ensures avg >= 0.0 && (avg == 0.0 <==> total == 0)
  {
    total as real / pulses as real
  }

  /** The spike summary of the light part. */
  datatype SpikeSummary = SpikeSummary(ledTotal: nat, ledAverage: real, coincidentPulses: nat,
                                       currentTotal: nat, currentAverage: real, currentPulses: nat,
                                       inhibitionPercent: Option<real>)

  /** Spike totals over the light windows and over the current-only windows,
      their averages per pulse (the light total over the number of coincident
      runs, not of light pulses), and the inhibition percentage. */
  method SpikeInhibition(fp: PeakFinder, voltage: seq<real>, current: seq<real>, led: seq<real>)
    returns (s: SpikeSummary)
    requires |voltage| == |current| == |led| > 0 && Runnable(current, led)
    ensures var lw := LedWindows(voltage, led, LedLevel, Margin, Margin);
            s.ledTotal == SumNat(PeakCounts(fp, lw, SpikeHeight))
    ensures s.coincidentPulses == |CoincidentRuns(current, led)| > 0
    ensures s.ledAverage == PerPulse(s.ledTotal, s.coincidentPulses)
    ensures s.currentTotal == SumNat(PeakCounts(fp, CurrentOnlyWindows(voltage, current, led), SpikeHeight))
    ensures s.currentPulses == |CurrentOnlyRuns(current, led)| > 0
    ensures s.currentAverage == PerPulse(s.currentTotal, s.currentPulses)
    ensures s.inhibitionPercent == InhibitionPercent(s.currentAverage, s.ledAverage)
    ensures s.inhibitionPercent.None? <==> s.currentTotal == 0
  {
    ConsecutiveFirst(Intersect(Injected(current), Where(led, LedLevel)), 1);
    var lw := LedWindows(voltage, led, LedLevel, Margin, Margin);
    var ledLists := PeakLists(fp, lw, SpikeHeight);
    var ledTotal := TotalSpikes(ledLists);
    var coincident := |CoincidentRuns(current, led)|;
    var ledAverage := PerPulse(ledTotal, coincident);

    var cw := CurrentOnlyWindows(voltage, current, led);
    var currentLists := PeakLists(fp, cw, SpikeHeight);
    var currentTotal := TotalSpikes(currentLists);
    var currentAverage := PerPulse(currentTotal, |currentLists|);

    s := SpikeSummary(ledTotal, ledAverage, coincident, currentTotal, currentAverage, |currentLists|,
                      InhibitionPercent(currentAverage, ledAverage));
  }
}
