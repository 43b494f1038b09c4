/** Excitatory_Opsin_Current_Clamp.py: a current-clamp trace with an optional
    current-injection pulse (part 1) and up to seven light pulses (part 2).
    Voltage, current and LED channels have one sample per position; the
    sampling rate is in points per ms. */
module ExcitatoryCurrentClamp {
  import opened Numeric
  import opened Windows
  import opened Spikes
  import opened Response
  import opened CurrentPulse
  import opened LedPulses

  /** The current-pulse windows add 39 samples on each side. */
  const CurrentMargin: nat := 39
  /** LED_trace > 0.1 marks the light pulses. */
  const LedLevel: real := 0.1

  /** Part 1: the current-pulse branch with the 39-sample margin. */
  function CurrentPart(fp: PeakFinder, voltage: seq<real>, current: seq<real>, rate: nat): (r: CurrentPulseResult)
    requires ValidFinder(fp) && rate > 0
    requires |voltage| == |current| > 0
    requires MaxOf(current) > 40.0 ==> PulsesFit(current, CurrentMargin)
    ensures r.NoCurrentPulse? <==> MaxOf(current) <= 40.0
    ensures r.CurrentPulse? ==> r.start <= CurrentMargin && r.maxCurrent > 10.0
  {
    CurrentPulseBranch(fp, current, voltage, rate, CurrentMargin)
  }

  /** Part 2: the light-pulse durations in ms and the light-pulse summary with
      the maximum as the peak. The trace spike total is zero exactly when every
      kept stimulus was subthreshold. */
  method LedPart(fp: PeakFinder, voltage: seq<real>, current: seq<real>, led: seq<real>, rate: nat)
    returns (durationsMs: seq<int>, light: LedSummary)
    requires ValidFinder(fp) && rate > 0
    requires |voltage| == |current| == |led| > 0
    requires LedWindowsFit(led, LedLevel, LedOn, LedAfter)
    ensures durationsMs == RoundedLengths(LedRuns(led, LedLevel), rate)
    ensures var vw := LedWindows(voltage, led, LedLevel, LedOn, LedAfter);
            && light.voltagePeak == Extrema(vw, MaxPeak)
            && light.currentMax == AbsMaxima(LedWindows(BaselineSubtracted(current), led, LedLevel, LedOn, LedAfter))
            && |light.responses| == (if |vw| < Slots then |vw| else Slots)
            && (forall k :: 0 <= k < |light.responses| ==>
                  light.responses[k] == Some(StimulusResponse(fp, vw[k], HeadMean(voltage, BaselineSamples), rate, MaxPeak)))
    ensures var vw := LedWindows(voltage, led, LedLevel, LedOn, LedAfter);
            && light.maxDelays == MaxDelays(vw, rate)
            && light.deflections == Deflections(light.voltagePeak, HeadMean(voltage, BaselineSamples))
            && light.spikeTotal == SumNat(StimulusCounts(fp, vw, |light.responses|))
    ensures |light.responses| > 0 && |durationsMs| == |light.voltagePeak|
    ensures light.spikeTotal == 0 <==>
              forall k :: 0 <= k < |light.responses| ==> light.responses[k].value.kind == SubThreshold
  {
    durationsMs := RoundedLengths(LedRuns(led, LedLevel), rate);
    var vw := LedWindows(voltage, led, LedLevel, LedOn, LedAfter);
    var cw := LedWindows(BaselineSubtracted(current), led, LedLevel, LedOn, LedAfter);
    var vbase := HeadMean(voltage, BaselineSamples);
    light := Summarise(fp, vw, cw, vbase, rate, MaxPeak);
  }
}
