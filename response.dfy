/** The per-window response classification repeated in the current-clamp
    scripts (one block per stimulus, and once for the first current pulse). A
    window whose peak list is empty is a subthreshold event: its peak is the
    window's extremum and its latency is measured to the first position of the
    window's maximum. Otherwise it is a spike response: the peak is the height
    of the first spike, the latency is measured to it, and the spike frequency
    follows get_spike_frequency. In both cases the deflection is the peak minus
    the voltage baseline, and latencies count samples from an onset position
    and convert them to ms by dividing by the sampling rate. */
module Response {
  import opened Numeric
  import opened Indexing
  import opened Spikes

  datatype Kind = Spike | SubThreshold

  /** Which extremum a window reports: the maximum for depolarising responses,
      the minimum for the hyperpolarising opsins of the inhibitory script. */
  datatype Polarity = MaxPeak | MinPeak

  /** One classified window: response type, spike count, subthreshold flag
      (1 or 0), peak in mV, latency in ms, deflection in mV, frequency in Hz
      (None for NaN). */
  datatype Classified = Classified(kind: Kind, spikeCount: nat, subthresh: nat, peak: real,
                                   latency: real, deflection: real, freq: Option<real>)

  /** map(max, …) or map(min, …) on one window. */
  function Extremum(seg: seq<real>, pol: Polarity): (m: real)
    requires |seg| > 0
    ensures m in seg
    ensures pol == MaxPeak ==> forall i :: 0 <= i < |seg| ==> seg[i] <= m
    ensures pol == MinPeak ==> forall i :: 0 <= i < |seg| ==> m <= seg[i]
  {
    if pol == MaxPeak then MaxOf(seg) else MinOf(seg)
  }

  /** A position in a window as a delay after the onset position, in ms. */
  function Latency(idx: int, onset: int, rate: nat): (ms: real)
    requires rate > 0
    ensures ms * rate as real == (idx - onset) as real
  {
    (idx - onset) as real / rate as real
  }

  /** A later position is never an earlier delay. */
  lemma LatencyMonotone(a: int, b: int, onset: int, rate: nat)
    requires rate > 0 && a <= b
    ensures Latency(a, onset, rate) <= Latency(b, onset, rate)
  {
    var d := Latency(b, onset, rate) - Latency(a, onset, rate);
    assert d * rate as real == (b - a) as real;
  }

  /** The subthreshold branch: no spike, the polarity's extremum as the peak,
      and a latency to the first position of the maximum whatever the
      polarity. */
  function SubThresholdResponse(seg: seq<real>, baseline: real, onset: int, rate: nat, pol: Polarity): (c: Classified)
    requires |seg| > 0 && rate > 0
    ensures c.kind == SubThreshold && c.spikeCount == 0 && c.subthresh == 1 && c.freq == None
    ensures c.peak in seg
    ensures pol == MaxPeak ==> forall i :: 0 <= i < |seg| ==> seg[i] <= c.peak
    ensures pol == MinPeak ==> forall i :: 0 <= i < |seg| ==> c.peak <= seg[i]
    ensures c.latency == Latency(ArgMax(seg), onset, rate)
    ensures c.deflection == c.peak - baseline
  {
    var peak := Extremum(seg, pol);
    Classified(SubThreshold, 0, 1, peak, Latency(ArgMax(seg), onset, rate), peak - baseline, None)
  }

  /** The spike branch: the count of peaks, the first peak's height and
      position, and the spike frequency of the whole peak list. */
  function SpikeResponse(seg: seq<real>, peaks: seq<nat>, baseline: real, onset: int, rate: nat): (c: Classified)
    requires |peaks| > 0 && rate > 0
    requires forall i, j :: 0 <= i < j < |peaks| ==> peaks[i] < peaks[j]
    requires forall k :: 0 <= k < |peaks| ==> peaks[k] < |seg|
    ensures c.kind == Spike && c.spikeCount == |peaks| && c.subthresh == 0
    ensures c.peak == seg[peaks[0]]
    ensures c.latency == Latency(peaks[0], onset, rate)
    ensures c.deflection == c.peak - baseline
    ensures c.freq == SpikeFrequency(peaks, rate)
  {
    var peak := seg[peaks[0]];
    Classified(Spike, |peaks|, 0, peak, Latency(peaks[0], onset, rate), peak - baseline,
               SpikeFrequency(peaks, rate))
  }

  /** One per-stimulus block: spike when find_peaks found anything in the
      window, subthreshold otherwise. */
  function Classify(seg: seq<real>, peaks: seq<nat>, baseline: real, onset: int, rate: nat, pol: Polarity): (c: Classified)
    requires |seg| > 0 && rate > 0
    requires forall i, j :: 0 <= i < j < |peaks| ==> peaks[i] < peaks[j]
    requires forall k :: 0 <= k < |peaks| ==> peaks[k] < |seg|
    ensures c.kind == Spike <==> |peaks| > 0
    ensures c.subthresh == 1 <==> |peaks| == 0
    ensures c.spikeCount == |peaks|
    ensures c.deflection == c.peak - baseline
    ensures c.freq.Some? <==> |peaks| >= 2
    ensures |peaks| == 0 ==> c == SubThresholdResponse(seg, baseline, onset, rate, pol)
    ensures |peaks| > 0 ==> c == SpikeResponse(seg, peaks, baseline, onset, rate)
  {
    if |peaks| == 0 then SubThresholdResponse(seg, baseline, onset, rate, pol)
    else SpikeResponse(seg, peaks, baseline, onset, rate)
  }

  /** With a valid peak finder at threshold h, a spike window reports a peak at
      least h and at most the window maximum, and a subthreshold window of
      either polarity reports a peak inside the window's range. */
  lemma ClassifyPeakBounds(fp: PeakFinder, seg: seq<real>, h: real, baseline: real, onset: int, rate: nat, pol: Polarity)
    requires ValidFinder(fp) && |seg| > 0 && rate > 0
    ensures var peaks := fp(seg, h);
            IsPeakList(seg, h, peaks) &&
            var c := Classify(seg, peaks, baseline, onset, rate, pol);
            && MinOf(seg) <= c.peak <= MaxOf(seg)
            && (c.kind == Spike ==> h <= c.peak)
  {
    var peaks := fp(seg, h);
    assert IsPeakList(seg, h, peaks);
    var c := Classify(seg, peaks, baseline, onset, rate, pol);
    if |peaks| > 0 {
      assert c.peak == seg[peaks[0]];
    } else {
      assert c.peak in seg;
    }
  }

  /** A spiking window with at least two spikes reports the mean firing rate
      over its spike train: 1000 * rate * (n - 1) / (last - first) Hz. */
  lemma ClassifyFrequency(seg: seq<real>, peaks: seq<nat>, baseline: real, onset: int, rate: nat, pol: Polarity)
    requires |seg| > 0 && rate > 0 && |peaks| >= 2
    requires forall i, j :: 0 <= i < j < |peaks| ==> peaks[i] < peaks[j]
    requires forall k :: 0 <= k < |peaks| ==> peaks[k] < |seg|
    ensures Classify(seg, peaks, baseline, onset, rate, pol).freq
         == Some(1000.0 * rate as real * (|peaks| - 1) as real / (Last(peaks) - peaks[0]) as real)
  {
    SpikeFrequencyMean(peaks, rate);
  }
}
