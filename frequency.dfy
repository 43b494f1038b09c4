/** Excitatory_Opsin_Current_Clamp_Frequency.py: a train of light pulses at a
    set frequency. The script counts the light pulses (the spike target),
    the spikes of the whole trace and their frequency, the spikes in each
    light pulse extended by 500 samples, the time of the first spike in each
    pulse that produced one, and the spread (jitter) of those times. */
module CurrentClampFrequency {
  import opened Numeric
  import opened Indexing
  import opened Segmentation
  import opened Spikes
  import opened PyLists
  import opened LedPulses

  /** LED_trace > 0.1 marks the light pulses. */
  const LedLevel: real := 0.1
  /** Samples added after each light pulse (none before). */
  const After: nat := 500
  /** find_peaks height inside the light windows. */
  const WindowSpikeHeight: real := -30.0
  /** find_peaks height over the whole trace. */
  const TraceSpikeHeight: real := -20.0

  /** Per light window, the peak list and its count. find_peaks returns the
      pair (peaks, properties); iterating over that pair appends len(peaks)
      and then len(properties), which is 1 since only 'peak_heights' is
      reported. `del spikes_extracted_clean[1::2]` drops every second entry,
      which leaves one count per window. */
  method WindowSpikes(fp: PeakFinder, ws: seq<seq<real>>) returns (lists: seq<seq<nat>>, counts: seq<nat>)
    ensures |lists| == |ws|
    ensures forall k :: 0 <= k < |ws| ==> lists[k] == fp(ws[k], WindowSpikeHeight)
    ensures counts == PeakCounts(fp, ws, WindowSpikeHeight)
  {
    var extracted := new PyList<nat>([]);
    lists := [];
    for i := 0 to |ws|
      invariant |lists| == i && |extracted.items| == 2 * i
      invariant forall k :: 0 <= k < i ==> lists[k] == fp(ws[k], WindowSpikeHeight)
      invariant forall k :: 0 <= k < i ==>
                  extracted.items[2 * k] == |fp(ws[k], WindowSpikeHeight)| && extracted.items[2 * k + 1] == 1
    {
      var peaks := fp(ws[i], WindowSpikeHeight);
      lists := lists + [peaks];
      extracted.Append(|peaks|);
      extracted.Append(1);
    }
    var pairs := extracted.items;
    extracted.DelStep(1, 2);
    DelOddPositions(pairs);
    counts := extracted.items;
    assert |counts| == |ws|;
  }

  /** The positions of the windows that produced at least one spike, in
      window order, given the spike count of every window. */
  function Responding(counts: seq<nat>): (pos: seq<nat>)
    ensures |pos| <= |counts|
    ensures forall i, j :: 0 <= i < j < |pos| ==> pos[i] < pos[j]
    ensures forall j :: 0 <= j < |pos| ==> pos[j] < |counts| && counts[pos[j]] > 0
    ensures forall k :: 0 <= k < |counts| && counts[k] > 0 ==> k in pos
  {
    if |counts| == 0 then []
    else
      var n := |counts| - 1;
      var front := Responding(counts[..n]);
      assert forall k :: 0 <= k < n ==> counts[..n][k] == counts[k];
      if counts[n] > 0 then front + [n] else front
  }

  /** The lists at the given positions. */
  function Select(lists: seq<seq<nat>>, pos: seq<nat>): (r: seq<seq<nat>>)
    requires forall j :: 0 <= j < |pos| ==> pos[j] < |lists|
    ensures |r| == |pos|
    ensures forall j :: 0 <= j < |pos| ==> r[j] == lists[pos[j]]
  {
    seq(|pos|, j requires 0 <= j < |pos| => lists[pos[j]])
  }

  lemma SelectAppend(lists: seq<seq<nat>>, pos: seq<nat>, i: nat)
    requires i < |lists| && forall j :: 0 <= j < |pos| ==> pos[j] < |lists|
    ensures Select(lists, pos + [i]) == Select(lists, pos) + [lists[i]]
  {
  }

  /** A sample position in ms. */
  function ToMs(idx: nat, rate: nat): (ms: real)
    requires rate > 0
    ensures ms * rate as real == idx as real && ms >= 0.0
  {
    idx as real / rate as real
  }

  /** Extending the counts by one window adds that window's position exactly
      when it has a spike. */
  lemma RespondingStep(counts: seq<nat>, i: nat)
    requires i < |counts|
    ensures Responding(counts[..i + 1]) == Responding(counts[..i]) + (if counts[i] > 0 then [i] else [])
  {
    assert counts[..i + 1][..i] == counts[..i];
  }

  /** [item[0] / sampling_rate for item in …] over lists that are not empty. */
  function FirstTimes(kept: seq<seq<nat>>, rate: nat): (t: seq<real>)
    requires rate > 0
    requires forall j :: 0 <= j < |kept| ==> |kept[j]| > 0
    ensures |t| == |kept|
    ensures forall j :: 0 <= j < |kept| ==> t[j] == ToMs(kept[j][0], rate)
  {
    seq(|kept|, j requires 0 <= j < |kept| => ToMs(kept[j][0], rate))
  }

  /** The lists of the responding windows among the first i. */
  function Kept(lists: seq<seq<nat>>, i: nat): (kept: seq<seq<nat>>)
    requires i <= |lists|
    ensures forall j :: 0 <= j < |kept| ==> |kept[j]| > 0
  {
    var c := Counts(lists);
    var pos := Responding(c[..i]);
    Select(lists, pos)
  }

  /** One more window adds its list exactly when it has a spike. */
  lemma KeptStep(lists: seq<seq<nat>>, i: nat)
    requires i < |lists|
    ensures Kept(lists, i + 1) == Kept(lists, i) + (if |lists[i]| > 0 then [lists[i]] else [])
  {
    var c := Counts(lists);
    RespondingStep(c, i);
    assert c[..i + 1][..i] == c[..i];
    if |lists[i]| > 0 {
      SelectAppend(lists, Responding(c[..i]), i);
    }
  }

  /** spike_time_ms: the first peak of every window with a spike, in ms, in
      window order. The filter is the script's append loop. */
  method FirstSpikeTimes(lists: seq<seq<nat>>, rate: nat) returns (times: seq<real>)
    requires rate > 0
    ensures var pos := Responding(Counts(lists));
            && |times| == |pos|
            && forall j :: 0 <= j < |times| ==> times[j] == ToMs(lists[pos[j]][0], rate)
  {
    var kept: seq<seq<nat>> := [];
    for i := 0 to |lists|
      invariant kept == Kept(lists, i)
    {
      KeptStep(lists, i);
      if |lists[i]| > 0 {
        kept := kept + [lists[i]];
      }
    }
    assert Counts(lists)[..|lists|] == Counts(lists);
    times := FirstTimes(kept, rate);
  }

  /** The sum of squared deviations of xs from m. */
  function SquaredDeviations(xs: seq<real>, m: real): (r: real)
    ensures r >= 0.0
  {
    if |xs| == 0 then 0.0
    else
      var n := |xs| - 1;
      SquaredDeviations(xs[..n], m) + Square(xs[n] - m)
  }

  function Square(x: real): (y: real)
    ensures y >= 0.0
  {
    if x >= 0.0 then x * x else (-x) * (-x)
  }

  /** statistics.stdev(spike_time_ms) squared: the sample variance of the
      first-spike times, or StatisticsError (None) with fewer than two. */
  function JitterVariance(times: seq<real>): (v: Option<real>)
    ensures v.None? <==> |times| < 2
    ensures v.Some? ==> v.value >= 0.0
    ensures v.Some? ==> v.value * (|times| - 1) as real == SquaredDeviations(times, Mean(times))
  {
    if |times| < 2 then None
    else Some(SquaredDeviations(times, Mean(times)) / (|times| - 1) as real)
  }

  /** Identical first-spike times have no jitter. */
  lemma {:induction false} NoJitterWhenAligned(times: seq<real>)
    requires |times| >= 2
    requires forall i :: 0 <= i < |times| ==> times[i] == times[0]
    ensures JitterVariance(times) == Some(0.0)
  {
    ConstantSum(times, times[0]);
    assert Mean(times) == times[0];
    ConstantDeviations(times, times[0]);
  }

  lemma {:induction false} ConstantSum(xs: seq<real>, c: real)
    requires forall i :: 0 <= i < |xs| ==> xs[i] == c
    ensures Sum(xs) == |xs| as real * c
  {
    if |xs| > 0 {
      ConstantSum(xs[..|xs| - 1], c);
    }
  }

  lemma {:induction false} ConstantDeviations(xs: seq<real>, c: real)
    requires forall i :: 0 <= i < |xs| ==> xs[i] == c
    ensures SquaredDeviations(xs, c) == 0.0
  {
    if |xs| > 0 {
      ConstantDeviations(xs[..|xs| - 1], c);
    }
  }

  /** The spikes of the whole trace. */
  datatype TraceSpikes = TraceSpikes(total: nat, amplitudes: seq<real>, freq: Option<real>)

  /** find_peaks(voltage_trace, height=-20): the spike total, the peak heights
      and get_spike_frequency of the peak list. */
  function WholeTrace(fp: PeakFinder, voltage: seq<real>, rate: nat): (t: TraceSpikes)
    requires ValidFinder(fp) && rate > 0
    ensures var peaks := fp(voltage, TraceSpikeHeight);
            && t.total == |peaks| && |t.amplitudes| == t.total
            && (forall k :: 0 <= k < t.total ==>
                  peaks[k] < |voltage| && t.amplitudes[k] == voltage[peaks[k]]
                  && t.amplitudes[k] >= TraceSpikeHeight)
            && t.freq == SpikeFrequency(peaks, rate)
            && (t.freq.Some? <==> t.total >= 2)
  {
    var peaks := fp(voltage, TraceSpikeHeight);
    assert IsPeakList(voltage, TraceSpikeHeight, peaks);
    TraceSpikes(|peaks|, Take(voltage, peaks), SpikeFrequency(peaks, rate))
  }

  /** What the script writes for one trace. */
  datatype FrequencyResult = FrequencyResult(ledTimeMs: int, spikeTarget: nat, trace: TraceSpikes,
                                             perStimulus: seq<nat>, firstSpikeMs: seq<real>,
                                             jitterVariance: Option<real>)

  /** The whole analysis: the spike target is the number of light pulses, one
      spike count per extended light pulse, one first-spike time per pulse that
      produced a spike, and a jitter only when at least two pulses did. */
  method Analyse(fp: PeakFinder, voltage: seq<real>, led: seq<real>, rate: nat) returns (r: FrequencyResult)
    requires ValidFinder(fp) && rate > 0 && |voltage| == |led|
    requires LedWindowsFit(led, LedLevel, 0, After)
    ensures r.ledTimeMs == FirstPulseMs(led, LedLevel, rate)
    ensures r.spikeTarget == |LedRuns(led, LedLevel)| > 0
    ensures r.trace == WholeTrace(fp, voltage, rate)
    ensures var ws := LedWindows(voltage, led, LedLevel, 0, After);
            && r.perStimulus == PeakCounts(fp, ws, WindowSpikeHeight)
            && |r.perStimulus| == r.spikeTarget
    ensures var ws := LedWindows(voltage, led, LedLevel, 0, After);
            var pos := Responding(r.perStimulus);
            && |r.firstSpikeMs| == |pos| <= r.spikeTarget
            && forall j :: 0 <= j < |pos| ==>
                 r.firstSpikeMs[j] == ToMs(fp(ws[pos[j]], WindowSpikeHeight)[0], rate)
    ensures r.jitterVariance == JitterVariance(r.firstSpikeMs)
    ensures r.jitterVariance.None? <==> |Responding(r.perStimulus)| < 2
  {
    var ws := LedWindows(voltage, led, LedLevel, 0, After);
    var lists, counts := WindowSpikes(fp, ws);
    assert Counts(lists) == counts;
    var times := FirstSpikeTimes(lists, rate);
    var pos := Responding(counts);
    forall j | 0 <= j < |pos|
      ensures times[j] == ToMs(fp(ws[pos[j]], WindowSpikeHeight)[0], rate)
    {
      assert lists[pos[j]] == fp(ws[pos[j]], WindowSpikeHeight);
    }
    r := FrequencyResult(FirstPulseMs(led, LedLevel, rate), |LedRuns(led, LedLevel)|,
                         WholeTrace(fp, voltage, rate), counts, times, JitterVariance(times));
  }
}
