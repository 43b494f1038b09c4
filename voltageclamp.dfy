/** Excitatory_Opsin_Voltage_Clamp.py: photocurrents recorded in voltage
    clamp. Every light pulse (LED channel above 0) is widened by 1999 samples
    before and 19999 after; in each window of the baseline-subtracted current
    the script measures the peak photocurrent, the delay from light onset to
    the first sample below -10 pA (the response onset), the delay to the
    current minimum (the activation time) and the deactivation time constant
    of the decay after that minimum. */
module VoltageClamp {
  import opened Numeric
  import opened Indexing
  import opened Segmentation
  import opened Windows
  import opened ExpFit
  import opened LedPulses
  import opened CurrentPulse
  import Response

  /** LED_trace > 0 marks the light pulses. */
  const LedLevel: real := 0.0
  /** A photocurrent has started once the current is below -10 pA. */
  const ResponseLevel: real := -10.0
  /** nbPointsForFit of the deactivation fit. */
  const TauFitPoints: nat := 2000

  /** current_max: |min| of every window, the size of the inward
      photocurrent; no sample lies further below zero than it. */
  function Photocurrents(cw: seq<seq<real>>): (m: seq<real>)
    requires forall k :: 0 <= k < |cw| ==> |cw[k]| > 0
    ensures |m| == |cw|
    ensures forall k :: 0 <= k < |cw| ==> m[k] >= 0.0 && m[k] == Abs(MinOf(cw[k]))
    ensures forall k, i :: 0 <= k < |cw| && 0 <= i < |cw[k]| ==> -m[k] <= cw[k][i]
  {
    seq(|cw|, k requires 0 <= k < |cw| => Abs(MinOf(cw[k])))
  }

  /** opsin_resp_start_delay_ms: per window with a sample below -10 pA, the
      delay from light onset (position 1999) to the first such sample, keyed by
      window number; windows that never cross get no entry. */
  function OnsetDelays(cw: seq<seq<real>>, rate: nat): (d: map<nat, real>)
    requires rate > 0
    ensures forall k: nat :: k in d <==> k < |cw| && FirstBelow(cw[k], ResponseLevel).Some?
    ensures forall k :: k in d ==>
              d[k] == Response.Latency(FirstBelow(cw[k], ResponseLevel).value, LedOn, rate)
  {
    map k: nat | k < |cw| && FirstBelow(cw[k], ResponseLevel).Some? ::
      Response.Latency(FirstBelow(cw[k], ResponseLevel).value, LedOn, rate)
  }

  /** opsin_resp_max_delay_ms: the delay from light onset to the first position
      of each window's minimum. */
  function ActivationDelays(cw: seq<seq<real>>, rate: nat): (d: seq<real>)
    requires rate > 0
    requires forall k :: 0 <= k < |cw| ==> |cw[k]| > 0
    ensures |d| == |cw|
    ensures forall k :: 0 <= k < |cw| ==> d[k] == Response.Latency(ArgMin(cw[k]), LedOn, rate)
  {
    seq(|cw|, k requires 0 <= k < |cw| => Response.Latency(ArgMin(cw[k]), LedOn, rate))
  }

  /** A response never starts after its peak: wherever an onset exists, the
      current minimum is below -10 pA too and comes no earlier. */
  lemma OnsetBeforeActivation(cw: seq<seq<real>>, rate: nat)
    requires rate > 0
    requires forall k :: 0 <= k < |cw| ==> |cw[k]| > 0
    ensures forall k :: k in OnsetDelays(cw, rate) ==> OnsetDelays(cw, rate)[k] <= ActivationDelays(cw, rate)[k]
  {
    forall k | k in OnsetDelays(cw, rate)
      ensures OnsetDelays(cw, rate)[k] <= ActivationDelays(cw, rate)[k]
    {
      var w := cw[k];
      var first := FirstBelow(w, ResponseLevel).value;
      var low := ArgMin(w);
      assert w[low] <= w[first];
      assert first <= low;
      Response.LatencyMonotone(first, low, LedOn, rate);
    }
  }

  /** What the script writes for one trace. */
  datatype ClampResult = ClampResult(durationsMs: seq<int>, photocurrent: seq<real>,
                                     onsetMs: map<nat, real>, activationMs: seq<real>,
                                     deactivationTaus: Option<seq<real>>)

  /** The whole analysis. The transpose of the current windows needs them all
      to have one length, so every light pulse must have the same length. */
  method Analyse(fit: Fitter, current: seq<real>, led: seq<real>, rate: nat) returns (r: ClampResult)
    requires |current| == |led| > 0 && rate > 0
    requires LedWindowsFit(led, LedLevel, LedOn, LedAfter) && EqualLengths(LedRuns(led, LedLevel))
    ensures var cw := LedWindows(BaselineSubtracted(current), led, LedLevel, LedOn, LedAfter);
            && r.durationsMs == RoundedLengths(LedRuns(led, LedLevel), rate)
            && r.photocurrent == Photocurrents(cw)
            && r.onsetMs == OnsetDelays(cw, rate)
            && r.activationMs == ActivationDelays(cw, rate)
    ensures forall k :: k in r.onsetMs ==> r.onsetMs[k] <= r.activationMs[k]
    ensures var cw := LedWindows(BaselineSubtracted(current), led, LedLevel, LedOn, LedAfter);
            r.deactivationTaus == Collect(RowFits(fit, cw, TauFitPoints, AtMin), rate)
  {
    var cw := LedWindows(BaselineSubtracted(current), led, LedLevel, LedOn, LedAfter);
    OnsetBeforeActivation(cw, rate);
    var taus := DeactivationTaus(fit, cw, TauFitPoints, AtMin, rate);
    r := ClampResult(RoundedLengths(LedRuns(led, LedLevel), rate), Photocurrents(cw),
                     OnsetDelays(cw, rate), ActivationDelays(cw, rate), taus);
  }
}
