/** Inhibitory_Opsin_Current_Clamp.py: current-clamp traces with long light
    pulses (more than 19899 samples) driving an inhibitory opsin. The per-stimulus
    analysis is the excitatory one with a cell-type polarity: the
    chloride-conducting GtACR1/GtACR2 depolarise (the maximum is reported),
    every other opsin hyperpolarises (the minimum is reported). The steady
    state at the end of each pulse and its decay after the light goes off
    give a deactivation time constant. */
module InhibitoryCurrentClamp {
  import opened Numeric
  import opened Indexing
  import opened Segmentation
  import opened Windows
  import opened Spikes
  import opened Response
  import opened ExpFit
  import opened CurrentPulse
  import opened LedPulses

  /** LED_trace > 0.2 marks the light pulses. */
  const LedLevel: real := 0.2
  /** nbPointsForFit handed to the tau fit of a steady window. */
  const SteadyFitPoints: nat := 19000

  /** The cell type as far as the analysis cares: GtACR1 or GtACR2, or another opsin. */
  datatype Opsin = GtACR | OtherOpsin

  function PolarityOf(cell: Opsin): Polarity
  {
    if cell == GtACR then MaxPeak else MinPeak
  }

  /** The exponentialFitGetTau module imported for the cell type. */
  function AnchorOf(cell: Opsin): Anchor
  {
    if cell == GtACR then AtMax else AtMin
  }

  /** The reported extremum and the fit anchor always agree: both are the
      maximum for GtACR1/GtACR2 and both the minimum otherwise. */
  lemma PolarityMatchesAnchor(cell: Opsin, w: seq<real>, x: seq<real>)
    requires |w| > 0
    ensures PolarityOf(cell) == MaxPeak <==> cell == GtACR
    ensures Extremum(w, PolarityOf(cell)) == ExponentialPart(x, w, 0, AnchorOf(cell)).y[0]
  {
    ExponentialPartStartsAtExtremum(x, w, 0, AnchorOf(cell));
  }

  /** Every light pulse lasts more than 19899 samples, so iloc[19899:19999]
      keeps at least one column and x[-1] exists. */
  ghost predicate LongPulses(led: seq<real>)
  {
    forall k :: 0 <= k < |LedRuns(led, LedLevel)| ==> |LedRuns(led, LedLevel)[k]| > 19899
  }

  /** [voltage_trace[i] for i in LED_steady_calculation] for one pulse: the
      contiguous stretch from the pulse's 19900th sample to 19999 samples past
      the last column iloc[19899:19999] kept (its 19999th sample, or its last
      one when it is shorter). */
  function SteadyData(trace: seq<real>, run: seq<int>): (d: seq<real>)
    requires SteadyReady(run, |trace|)
    ensures |d| == SteadyEnd(run) - 19899 + LedAfter && 0 <= run[19899] && run[19899] + |d| <= |trace|
    ensures d == trace[run[19899]..run[19899] + |d|]
  {
    SteadyWindowIsRange(run);
    RunIsRange(run);
    assert run[19899] == run[0] + 19899 && run[SteadyEnd(run) - 1] <= Last(run);
    TakeRange(trace, run[19899], run[SteadyEnd(run) - 1] + 20000);
    Take(trace, SteadyWindow(run))
  }

  /** A run whose steady window can be gathered from a recording of n samples. */
  ghost predicate SteadyReady(run: seq<int>, n: nat)
  {
    |run| > 19899 && StepsWithin(run, 1) && run[0] >= 0 && Last(run) + LedAfter < n
  }

  /** What the steady-state part needs of a recording: equally long channels,
      light windows inside the recording, and light pulses all longer than
      19899 samples and of the same length. */
  ghost predicate SteadyInput(trace: seq<real>, led: seq<real>)
  {
    && |trace| == |led| > 0
    && LedWindowsFit(led, LedLevel, LedOn, LedAfter) && LongPulses(led)
    && EqualLengths(LedRuns(led, LedLevel))
  }

  /** voltage_data_steady: one steady window per light pulse. The pulses
      must all have the same length: DataFrame(LED_idx_cons) pads shorter runs
      with NaN, the transpose turns every position into a float, and indexing
      the trace with floats raises IndexError. */
  function SteadyRows(trace: seq<real>, led: seq<real>): (rows: seq<seq<real>>)
    requires SteadyInput(trace, led)
    ensures |rows| == |LedRuns(led, LedLevel)| > 0
    ensures forall k :: 0 <= k < |rows| ==> |rows[k]| == SteadyEnd(LedRuns(led, LedLevel)[k]) - 19899 + LedAfter
    ensures forall k :: 0 <= k < |rows| ==>
              SteadyReady(LedRuns(led, LedLevel)[k], |trace|)
              && rows[k] == SteadyData(trace, LedRuns(led, LedLevel)[k])
  {
    SteadyRunsReady(led);
    SteadyRowsOf(trace, LedRuns(led, LedLevel))
  }

  function SteadyRowsOf(trace: seq<real>, runs: seq<seq<int>>): (rows: seq<seq<real>>)
    requires forall k :: 0 <= k < |runs| ==> SteadyReady(runs[k], |trace|)
    ensures |rows| == |runs|
    ensures forall k :: 0 <= k < |runs| ==> rows[k] == SteadyData(trace, runs[k])
  {
    seq(|runs|, k requires 0 <= k < |runs| => SteadyData(trace, runs[k]))
  }

  /** Every light run is long enough, and its steady window lies in the recording. */
  lemma SteadyRunsReady(led: seq<real>)
    requires LedWindowsFit(led, LedLevel, LedOn, LedAfter) && LongPulses(led)
    ensures |LedRuns(led, LedLevel)| > 0
    ensures forall k :: 0 <= k < |LedRuns(led, LedLevel)| ==> SteadyReady(LedRuns(led, LedLevel)[k], |led|)
  {
    ConsecutiveSteps(Where(led, LedLevel));
    ConsecutiveFirst(Where(led, LedLevel), 1);
  }

  /** The light-pulse lists with the cell type's extremum as the peak. The
      reported voltage_max_LED_all and V_deflection_LED_all cover every pulse,
      not only the seven stimuli. */
  method LedPart(fp: PeakFinder, voltage: seq<real>, current: seq<real>, led: seq<real>, rate: nat, cell: Opsin)
    returns (durationsMs: seq<int>, light: LedSummary)
    requires ValidFinder(fp) && rate > 0
    requires |voltage| == |current| == |led| > 0
    requires LedWindowsFit(led, LedLevel, LedOn, LedAfter)
    ensures durationsMs == RoundedLengths(LedRuns(led, LedLevel), rate)
    ensures var vw := LedWindows(voltage, led, LedLevel, LedOn, LedAfter);
            && |durationsMs| == |vw|
            && light.voltagePeak == Extrema(vw, PolarityOf(cell))
            && |light.responses| == (if |vw| < Slots then |vw| else Slots)
            && (forall k :: 0 <= k < |light.responses| ==>
                  light.responses[k] == Some(StimulusResponse(fp, vw[k], HeadMean(voltage, BaselineSamples), rate, PolarityOf(cell))))
    ensures var vw := LedWindows(voltage, led, LedLevel, LedOn, LedAfter);
            && light.maxDelays == MaxDelays(vw, rate)
            && light.currentMax == AbsMaxima(LedWindows(BaselineSubtracted(current), led, LedLevel, LedOn, LedAfter))
            && light.spikeTotal == SumNat(StimulusCounts(fp, vw, |light.responses|))
    ensures light.deflections == Deflections(light.voltagePeak, HeadMean(voltage, BaselineSamples))
    ensures light.spikeTotal == 0 <==>
              forall k :: 0 <= k < |light.responses| ==> light.responses[k].value.kind == SubThreshold
  {
    durationsMs := RoundedLengths(LedRuns(led, LedLevel), rate);
    var vw := LedWindows(voltage, led, LedLevel, LedOn, LedAfter);
    var cw := LedWindows(BaselineSubtracted(current), led, LedLevel, LedOn, LedAfter);
    var vbase := HeadMean(voltage, BaselineSamples);
    light := Summarise(fp, vw, cw, vbase, rate, PolarityOf(cell));
  }

  /** The steady state and its decay: the steady maximum (the maximum for every
      cell type), its deflection from the baseline, and one deactivation tau
      per pulse fitted over 19000 points from the cell type's anchor. */
  method SteadyPart(fit: Fitter, voltage: seq<real>, led: seq<real>, rate: nat, cell: Opsin)
    returns (steadyMax: seq<real>, steadyDeflection: seq<real>, taus: Option<seq<real>>)
    requires rate > 0
    requires SteadyInput(voltage, led)
    ensures var rows := SteadyRows(voltage, led);
            && |steadyMax| == |steadyDeflection| == |rows|
            && (forall k :: 0 <= k < |rows| ==> steadyMax[k] == MaxOf(rows[k]))
            && (forall k :: 0 <= k < |rows| ==>
                  steadyDeflection[k] == steadyMax[k] - HeadMean(voltage, BaselineSamples))
            && taus == Collect(RowFits(fit, rows, SteadyFitPoints, AnchorOf(cell)), rate)
  {
    steadyMax, steadyDeflection, taus :=
      SteadyOfRows(fit, SteadyRows(voltage, led), HeadMean(voltage, BaselineSamples), rate, cell);
  }

  /** The steady maxima, deflections and taus of given steady rows. */
  method SteadyOfRows(fit: Fitter, rows: seq<seq<real>>, vbase: real, rate: nat, cell: Opsin)
    returns (steadyMax: seq<real>, steadyDeflection: seq<real>, taus: Option<seq<real>>)
    requires rate > 0
    requires forall k :: 0 <= k < |rows| ==> |rows[k]| > 0
    ensures |steadyMax| == |steadyDeflection| == |rows|
    ensures forall k :: 0 <= k < |rows| ==> steadyMax[k] == MaxOf(rows[k])
    ensures forall k :: 0 <= k < |rows| ==> steadyDeflection[k] == steadyMax[k] - vbase
    ensures taus == Collect(RowFits(fit, rows, SteadyFitPoints, AnchorOf(cell)), rate)
  {
    steadyMax := Extrema(rows, MaxPeak);
    steadyDeflection := Deflections(steadyMax, vbase);
    taus := DeactivationTaus(fit, rows, SteadyFitPoints, AnchorOf(cell), rate);
  }
}
