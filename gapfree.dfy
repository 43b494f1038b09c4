/** Gapfree_AP_stim.py: a gap-free recording with current steps of several
    lengths. Every step (raw current above 10 pA) becomes one row holding its
    rounded length, its maximum baseline-subtracted current and its maximum
    voltage over a window 39 samples wider on each side. For each length of
    1, 2 and 5 ms the step with the smallest current among those whose voltage
    went above 0 mV is taken as the spike threshold, with its spike delays
    and spike count. */
module GapfreeApStim {
  import opened Numeric
  import opened Indexing
  import opened Segmentation
  import opened Windows
  import opened Spikes
  import Response

  /** Samples added on each side of a current step. */
  const Margin: nat := 39
  /** current_trace > 10 marks the current steps. */
  const StepLevel: real := 10.0
  /** The current baseline is the mean of the first 20000 samples. */
  const BaselineWindow: nat := 20000
  /** The three step lengths looked for, in ms. */
  const Lengths: seq<int> := [1, 2, 5]

  /** current_injection_idx_cons: one run per current step. */
  function StepRuns(current: seq<real>): seq<seq<int>>
  {
    Consecutive(Where(current, StepLevel), 1)
  }

  /** There is a step (otherwise x[0] of the single empty run raises) and every
      widened step lies inside the recording. */
  ghost predicate StepsFit(current: seq<real>)
  {
    |Where(current, StepLevel)| > 0 && AllFit(StepRuns(current), Margin, Margin, |current|)
  }

  /** current_base_substract: the current minus the mean of its first second. */
  function CurrentBaselineSubtracted(current: seq<real>): (r: seq<real>)
    requires |current| > 0
    ensures |r| == |current|
    ensures forall i :: 0 <= i < |r| ==> r[i] + HeadMean(current, BaselineWindow) == current[i]
  {
    Subtract(current, HeadMean(current, BaselineWindow))
  }

  /** current_data and voltage_data: the two channels over every widened step. */
  function StepWindows(trace: seq<real>, current: seq<real>): (ws: seq<seq<real>>)
    requires |trace| == |current| && StepsFit(current)
    ensures |ws| == |StepRuns(current)| && |ws| > 0
    ensures AllSteps(StepRuns(current))
    ensures ws == WindowsData(trace, StepRuns(current), Margin, Margin)
    ensures forall k :: 0 <= k < |ws| ==> |ws[k]| == Margin + |StepRuns(current)[k]| + Margin
  {
    ConsecutiveSteps(Where(current, StepLevel));
    WindowsData(trace, StepRuns(current), Margin, Margin)
  }

  /** One row of pulse_data. */
  datatype PulseRow = PulseRow(lengthMs: int, current: real, voltage: real)

  /** pulse_data: the rounded length, the maximum current and the maximum
      voltage of every step, in step order. */
  function PulseRows(voltage: seq<real>, current: seq<real>, rate: nat): (rows: seq<PulseRow>)
    requires |voltage| == |current| > 0 && rate > 0 && StepsFit(current)
    ensures var cw := StepWindows(CurrentBaselineSubtracted(current), current);
            var vw := StepWindows(voltage, current);
            && |rows| == |StepRuns(current)| == |cw| == |vw|
            && forall k :: 0 <= k < |rows| ==>
                 && rows[k].lengthMs == RoundHalfEven(|StepRuns(current)[k]|, rate)
                 && rows[k].current in cw[k] && (forall i :: 0 <= i < |cw[k]| ==> cw[k][i] <= rows[k].current)
                 && rows[k].voltage in vw[k] && (forall i :: 0 <= i < |vw[k]| ==> vw[k][i] <= rows[k].voltage)
  {
    var runs := StepRuns(current);
    var cw := StepWindows(CurrentBaselineSubtracted(current), current);
    var vw := StepWindows(voltage, current);
    seq(|runs|, k requires 0 <= k < |runs| =>
          PulseRow(RoundHalfEven(|runs[k]|, rate), MaxOf(cw[k]), MaxOf(vw[k])))
  }

  /** The query 'Pulse_Length == L & Voltage_Value > 0'. */
  predicate Qualifies(row: PulseRow, lengthMs: int)
  {
    row.lengthMs == lengthMs && row.voltage > 0.0
  }

  /** ['Current_Value'].idxmin() over the qualifying rows: the position of the
      smallest current among them, the first one on ties; None when the query
      is empty. */
  function MinCurrentRow(rows: seq<PulseRow>, lengthMs: int): (r: Option<nat>)
    ensures r.None? <==> forall k :: 0 <= k < |rows| ==> !Qualifies(rows[k], lengthMs)
    ensures r.Some? ==> r.value < |rows| && Qualifies(rows[r.value], lengthMs)
    ensures r.Some? ==> forall k :: 0 <= k < |rows| && Qualifies(rows[k], lengthMs) ==>
                          rows[r.value].current <= rows[k].current
    ensures r.Some? ==> forall k :: 0 <= k < r.value && Qualifies(rows[k], lengthMs) ==>
                          rows[r.value].current < rows[k].current
  {
    if |rows| == 0 then None
    else
      var last := |rows| - 1;
      var front := MinCurrentRow(rows[..last], lengthMs);
      assert forall k :: 0 <= k < last ==> rows[..last][k] == rows[k];
      if !Qualifies(rows[last], lengthMs) then front
      else if front.None? || rows[last].current < rows[front.value].current then Some(last)
      else front
  }

  /** The block of one step length. */
  datatype LengthResult =
    | NoSpikingStep(lengthMs: int)
      // the query was empty: current, voltage and delays NaN, no spikes
    | ThresholdStep(lengthMs: int, current: real, voltage: real,
                    startDelay: real, endDelay: real, spikes: nat)

  /** The block for step length L: None when the chosen step's current window
      has no sample above 10 pA, where the script raises IndexError. The start
      delay runs from the first sample above 10 pA to the first position of the
      voltage maximum, the end delay from the last such sample; the spikes are
      the peaks above 0 mV in the chosen voltage window. */
  function LengthBlock(fp: PeakFinder, voltage: seq<real>, current: seq<real>, rate: nat, lengthMs: int)
    : (r: Option<LengthResult>)
    requires ValidFinder(fp) && |voltage| == |current| > 0 && rate > 0 && StepsFit(current)
    ensures var rows := PulseRows(voltage, current, rate);
            var choice := MinCurrentRow(rows, lengthMs);
            var cw := StepWindows(CurrentBaselineSubtracted(current), current);
            && (r == Some(NoSpikingStep(lengthMs)) <==> choice.None?)
            && (r.None? <==> choice.Some? && FirstAbove(cw[choice.value], StepLevel).None?)
    ensures r.Some? && r.value.ThresholdStep? ==>
              var rows := PulseRows(voltage, current, rate);
              var i := MinCurrentRow(rows, lengthMs).value;
              var cw := StepWindows(CurrentBaselineSubtracted(current), current);
              var vw := StepWindows(voltage, current);
              var on := FirstAbove(cw[i], StepLevel).value;
              var off := LastAbove(cw[i], StepLevel).value;
              && r.value.lengthMs == lengthMs && r.value.voltage > 0.0
              && r.value.current == rows[i].current && r.value.voltage == rows[i].voltage
              && on <= off
              && r.value.startDelay == Response.Latency(ArgMax(vw[i]), on, rate)
              && r.value.endDelay == Response.Latency(ArgMax(vw[i]), off, rate)
              && r.value.startDelay >= r.value.endDelay
              && r.value.spikes == |fp(vw[i], 0.0)|
    ensures r.Some? ==> r.value.lengthMs == lengthMs
  {
    var rows := PulseRows(voltage, current, rate);
    match MinCurrentRow(rows, lengthMs)
    case None => Some(NoSpikingStep(lengthMs))
    case Some(i) =>
      var cw := StepWindows(CurrentBaselineSubtracted(current), current);
      var vw := StepWindows(voltage, current);
      match FirstAbove(cw[i], StepLevel)
      case None => None
      case Some(on) =>
        var off := LastAbove(cw[i], StepLevel).value;
        var peak := ArgMax(vw[i]);
        var startDelay := Response.Latency(peak, on, rate);
        var endDelay := Response.Latency(peak, off, rate);
        DelayOrder(peak, on, off, rate);
        Some(ThresholdStep(lengthMs, rows[i].current, rows[i].voltage, startDelay, endDelay,
                           |fp(vw[i], 0.0)|))
  }

  /** A delay measured from an earlier sample is never the shorter one. */
  lemma DelayOrder(peak: int, on: int, off: int, rate: nat)
    requires rate > 0 && on <= off
    ensures Response.Latency(peak, on, rate) >= Response.Latency(peak, off, rate)
  {
    var d := Response.Latency(peak, on, rate) - Response.Latency(peak, off, rate);
    assert d * rate as real == (off - on) as real;
  }

  /** Blocks run one after another: a block that raises IndexError (None) is
      the last one, the script never reaches the blocks after it. */
  function UpToFirstFailure<T>(blocks: seq<Option<T>>): (r: seq<Option<T>>)
    ensures |r| <= |blocks| && r == blocks[..|r|]
    ensures forall j :: 0 <= j < |r| - 1 ==> r[j].Some?
    ensures |r| < |blocks| ==> |r| > 0 && r[|r| - 1].None?
    ensures |blocks| > 0 ==> |r| > 0
  {
    if |blocks| == 0 then []
    else if blocks[0].None? then [blocks[0]]
    else [blocks[0]] + UpToFirstFailure(blocks[1..])
  }

  /** The blocks of all three step lengths, as if none of them failed: block
      j is the one of Lengths[j] and reports that length. */
  function AllBlocks(fp: PeakFinder, voltage: seq<real>, current: seq<real>, rate: nat)
    : (blocks: seq<Option<LengthResult>>)
    requires ValidFinder(fp) && |voltage| == |current| > 0 && rate > 0 && StepsFit(current)
    ensures |blocks| == |Lengths|
    ensures forall j :: 0 <= j < |blocks| ==> blocks[j] == LengthBlock(fp, voltage, current, rate, Lengths[j])
    ensures forall j :: 0 <= j < |blocks| && blocks[j].Some? ==> blocks[j].value.lengthMs == Lengths[j]
  {
    seq(|Lengths|, j requires 0 <= j < |Lengths| => LengthBlock(fp, voltage, current, rate, Lengths[j]))
  }

  /** The three blocks of the script, for 1, 2 and 5 ms, up to and including
      the first one that fails. */
  function ThresholdSummary(fp: PeakFinder, voltage: seq<real>, current: seq<real>, rate: nat)
    : (r: seq<Option<LengthResult>>)
    requires ValidFinder(fp) && |voltage| == |current| > 0 && rate > 0 && StepsFit(current)
    ensures 0 < |r| <= |Lengths|
    ensures r == AllBlocks(fp, voltage, current, rate)[..|r|]
    ensures forall j :: 0 <= j < |r| - 1 ==> r[j].Some?
    ensures |r| < |Lengths| ==> r[|r| - 1].None?
  {
    UpToFirstFailure(AllBlocks(fp, voltage, current, rate))
  }
}
