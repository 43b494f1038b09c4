/** Inhibitory_Opsin_CC_Long_AP_Inhibit.py: long current injections that
    drive action potentials, with light pulses inside some of them. Current
    and light runs are not widened. The current-only positions (injection
    without light) are cut into runs; the first run is split into the parts
    before, during and after the light, and the remaining runs alternate
    between the stretch before a light pulse and the stretch after it. Spikes
    are peaks above -20 mV. Rig 1 and Rig 2 lay the protocol out differently. */
module LongApInhibit {
  import opened Numeric
  import opened Indexing
  import opened Segmentation
  import opened Windows
  import opened Spikes
  import opened IndexSets
  import opened CurrentPulse
  import opened PyLists

  /** current_trace_baseline_substracted > 20 marks the injections. */
  const CurrentLevel: real := 20.0
  /** LED_trace > 0.18 marks the light pulses. */
  const LedLevel: real := 0.18
  /** find_peaks height for every spike count of the script. */
  const SpikeHeight: real := -20.0

  /** The injected positions, the light positions, and the positions with
      current but no light. */
  function InjectedIndices(current: seq<real>): (idx: seq<int>)
    requires |current| > 0
    ensures StrictlyIncreasing(idx) && AllIn(idx, |current|)
  {
    Where(BaselineSubtracted(current), CurrentLevel)
  }

  function LightIndices(led: seq<real>): (idx: seq<int>)
    ensures StrictlyIncreasing(idx) && AllIn(idx, |led|)
  {
    Where(led, LedLevel)
  }

  /** current_injection_idx[np.isin(current_injection_idx, LED_array, invert=True)]:
      exactly the positions where current is injected and the light is off, in
      increasing order. */
  function CurrentOnlyIndices(current: seq<real>, led: seq<real>): (idx: seq<int>)
    requires |current| == |led| > 0
    ensures StrictlyIncreasing(idx) && AllIn(idx, |current|)
    ensures forall i :: 0 <= i < |current| ==>
              (i in idx <==> BaselineSubtracted(current)[i] > CurrentLevel && led[i] <= LedLevel)
  {
    var ci, li := InjectedIndices(current), LightIndices(led);
    IntersectWithoutIn(ci, li, |current|);
    Without(ci, li)
  }

  /** np.intersect1d(current_injection_idx, LED_array): exactly the positions
      where current and light coincide, sorted and without repeats. */
  function CoincidentIndices(current: seq<real>, led: seq<real>): (idx: seq<int>)
    requires |current| == |led| > 0
    ensures StrictlyIncreasing(idx) && AllIn(idx, |current|)
    ensures forall i :: 0 <= i < |current| ==>
              (i in idx <==> BaselineSubtracted(current)[i] > CurrentLevel && led[i] > LedLevel)
    ensures |idx| + |CurrentOnlyIndices(current, led)| == |InjectedIndices(current)|
  {
    var ci, li := InjectedIndices(current), LightIndices(led);
    IntersectWithoutIn(ci, li, |current|);
    IntersectWithoutPartition(ci, li);
    Intersect(ci, li)
  }

  /** I_only_idx_cons: the current-only runs. There is always at least one,
      since consecutive splits an empty array into one empty run. */
  function CurrentOnlyRuns(current: seq<real>, led: seq<real>): (runs: seq<seq<int>>)
    requires |current| == |led| > 0
    ensures RunsIn(runs, |current|) && |runs| > 0
  {
    ConsecutiveIn(CurrentOnlyIndices(current, led), |current|);
    Consecutive(CurrentOnlyIndices(current, led), 1)
  }

  /** The injection part: the distinct pulse durations in ms, the largest
      current of the first run, and where that run first exceeds 10 pA. */
  datatype Injection = Injection(durationsMs: seq<int>, maxCurrent: real, start: nat)

  /** Part 1 on the unwidened runs. Every sample of a run is above 20 pA, so
      the pulse start inside the first run is always its first sample. */
  function InjectionPart(current: seq<real>, rate: nat): (r: Injection)
    requires |current| > 0 && rate > 0
    requires |InjectedIndices(current)| > 0
    ensures var runs := Consecutive(InjectedIndices(current), 1);
            && |runs| > 0 && |runs[0]| > 0 && AllIn(runs[0], |current|)
            && r.maxCurrent == MaxOf(Take(BaselineSubtracted(current), runs[0]))
            && r.maxCurrent > CurrentLevel
    ensures forall v :: v in r.durationsMs <==> v in RoundedLengths(Consecutive(InjectedIndices(current), 1), rate)
    ensures NoRepeats(r.durationsMs)
    ensures InFirstOccurrenceOrder(RoundedLengths(Consecutive(InjectedIndices(current), 1), rate), r.durationsMs)
    ensures r.start == 0
  {
    var runs := Consecutive(InjectedIndices(current), 1);
    FirstInjectedRun(current);
    var data := Take(BaselineSubtracted(current), runs[0]);
    Injection(DropDuplicates(RoundedLengths(runs, rate)), MaxOf(data), FirstAbove(data, 10.0).value)
  }

  /** The first injected run is inside the recording and starts above 20 pA,
      so its data first exceed 10 pA at its first sample. */
  lemma FirstInjectedRun(current: seq<real>)
    requires |current| > 0 && |InjectedIndices(current)| > 0
    ensures var runs := Consecutive(InjectedIndices(current), 1);
            && |runs| > 0 && |runs[0]| > 0 && AllIn(runs[0], |current|)
            && BaselineSubtracted(current)[runs[0][0]] > CurrentLevel
            && FirstAbove(Take(BaselineSubtracted(current), runs[0]), 10.0) == Some(0)
            && MaxOf(Take(BaselineSubtracted(current), runs[0])) > CurrentLevel
  {
    var idx := InjectedIndices(current);
    var runs := Consecutive(idx, 1);
    ConsecutiveFirst(idx, 1);
    ConsecutiveIn(idx, |current|);
    assert runs[0][0] == idx[0];
    var data := Take(BaselineSubtracted(current), runs[0]);
    assert data[0] > CurrentLevel;
  }

  /** np.split(run, [pre, mid, post]) with mid = len(run0) - pre and
      post = pre + mid: four pieces, the last one past post. When the second
      run is longer than the first, mid is negative and numpy's slicing counts
      it from the end of the run. */
  function PrePostSplit(run: seq<int>, pre: nat, len0: nat): (pieces: seq<seq<int>>)
    ensures |pieces| == 4
    ensures var m := PyIndex(len0 - pre, |run|);
            && pieces[0] == PySlice(run, 0, pre) && pieces[1] == PySlice(run, pre, m)
            && pieces[2] == PySlice(run, m, len0) && pieces[3] == PySlice(run, len0, |run|)
  {
    var m := PyIndex(len0 - pre, |run|);
    var cuts := [pre, m, len0];
    var c1, c2, c3 := cuts[1..], cuts[1..][1..], cuts[1..][1..][1..];
    assert c3 == [];
    assert SplitFrom(run, c3, len0) == [PySlice(run, len0, |run|)];
    assert SplitFrom(run, c2, m) == [PySlice(run, m, len0)] + SplitFrom(run, c3, len0);
    assert SplitFrom(run, c1, pre) == [PySlice(run, pre, m)] + SplitFrom(run, c2, m);
    assert SplitFrom(run, cuts, 0) == [PySlice(run, 0, pre)] + SplitFrom(run, c1, pre);
    NpSplit(run, cuts)
  }

  /** Applied to the first current-only run, the split is a partition of it
      exactly when the second run is at most half as long as the first; the
      parts before and after the light are then both as long as the second run. */
  lemma PrePostSplitPartition(run: seq<int>, pre: nat)
    requires pre <= |run|
    ensures var pieces := PrePostSplit(run, pre, |run|);
            && (Flatten(pieces) == run <==> 2 * pre <= |run|)
            && (2 * pre <= |run| ==> |pieces[0]| == |pieces[2]| == pre && |pieces[3]| == 0)
  {
    var pieces := PrePostSplit(run, pre, |run|);
    var n := |run|;
    assert Flatten(pieces) == pieces[0] + pieces[1] + pieces[2] + pieces[3] by {
      var p1, p2, p3 := pieces[1..], pieces[1..][1..], pieces[1..][1..][1..];
      assert p3[1..] == [];
      assert Flatten(p3) == pieces[3] + Flatten([]);
      assert Flatten(p2) == pieces[2] + Flatten(p3);
      assert Flatten(p1) == pieces[1] + Flatten(p2);
      assert Flatten(pieces) == pieces[0] + Flatten(p1);
    }
    if 2 * pre <= n {
      assert pieces[0] == run[..pre] && pieces[1] == run[pre..n - pre] && pieces[2] == run[n - pre..];
      assert run[..pre] + run[pre..n - pre] + run[n - pre..] == run;
    } else {
      assert |Flatten(pieces)| == pre + pre;
    }
  }

  /** Every piece of a split keeps the positions of its run. */
  lemma PrePostSplitIn(run: seq<int>, pre: nat, len0: nat, n: nat)
    requires AllIn(run, n)
    ensures RunsIn(PrePostSplit(run, pre, len0), n)
  {
    var pieces := PrePostSplit(run, pre, len0);
    forall k | 0 <= k < 4 ensures AllIn(pieces[k], n) {
      PySliceIn(run, k, pre, len0, n);
    }
  }

  lemma PySliceIn(run: seq<int>, k: nat, pre: nat, len0: nat, n: nat)
    requires AllIn(run, n) && k < 4
    ensures AllIn(PrePostSplit(run, pre, len0)[k], n)
  {
    if k == 0 {
      PySliceAllIn(run, 0, pre, n);
    } else if k == 1 {
      PySliceAllIn(run, pre, PyIndex(len0 - pre, |run|), n);
    } else if k == 2 {
      PySliceAllIn(run, PyIndex(len0 - pre, |run|), len0, n);
    } else {
      PySliceAllIn(run, len0, |run|, n);
    }
  }

  /** The spike count of piece c of a split run. */
  function PartSpikes(fp: PeakFinder, voltage: seq<real>, run: seq<int>, pre: nat, len0: nat, c: nat): nat
    requires AllIn(run, |voltage|) && c < 4
  {
    PySliceIn(run, c, pre, len0, |voltage|);
    |fp(Take(voltage, PrePostSplit(run, pre, len0)[c]), SpikeHeight)|
  }

  /** The spike count of each segment of voltage: the peak-list loop over the
      segments followed by the len() loop over the lists. */
  method SegmentCounts(fp: PeakFinder, voltage: seq<real>, segs: seq<seq<int>>)
    returns (lists: seq<seq<nat>>, counts: seq<nat>)
    requires RunsIn(segs, |voltage|)
    ensures |lists| == |counts| == |segs|
    ensures forall k :: 0 <= k < |segs| ==> lists[k] == fp(Take(voltage, segs[k]), SpikeHeight)
    ensures forall k :: 0 <= k < |segs| ==> counts[k] == |fp(Take(voltage, segs[k]), SpikeHeight)|
  {
    lists := PeakLists(fp, RunsData(voltage, segs), SpikeHeight);
    counts := CountPeaks(lists);
  }

  /** The first-spike time of a segment in ms from the segment start, NaN
      (None) when the segment has no spike. */
  function FirstSpikeTime(peaks: seq<nat>, rate: nat): (t: Option<real>)
    requires rate > 0
    ensures t.Some? <==> |peaks| > 0
    ensures t.Some? ==> t.value * rate as real == peaks[0] as real && t.value >= 0.0
  {
    if |peaks| > 0 then Some(peaks[0] as real / rate as real) else None
  }

  /** The first_spike_timing loop: one entry per segment. */
  method FirstSpikeTimes(lists: seq<seq<nat>>, rate: nat) returns (times: seq<Option<real>>)
    requires rate > 0
    ensures |times| == |lists|
    ensures forall k :: 0 <= k < |lists| ==> times[k] == FirstSpikeTime(lists[k], rate)
  {
    times := [];
    for k := 0 to |lists|
      invariant |times| == k
      invariant forall j :: 0 <= j < k ==> times[j] == FirstSpikeTime(lists[j], rate)
    {
      if |lists[k]| > 0 {
        times := times + [Some(lists[k][0] as real / rate as real)];
      } else {
        times := times + [None];
      }
    }
  }

  /** The light runs, not widened. */
  function LightRuns(led: seq<real>): (runs: seq<seq<int>>)
    ensures RunsIn(runs, |led|)
  {
    ConsecutiveIn(LightIndices(led), |led|);
    Consecutive(LightIndices(led), 1)
  }

  /** LED_I_spike: one spike count per light pulse. */
  method LightCounts(fp: PeakFinder, voltage: seq<real>, led: seq<real>) returns (counts: seq<nat>)
    requires |voltage| == |led| && EqualLengths(LightRuns(led))
    ensures |counts| == |LightRuns(led)|
    ensures forall k :: 0 <= k < |counts| ==> counts[k] == |fp(Take(voltage, LightRuns(led)[k]), SpikeHeight)|
  {
    var _, c := SegmentCounts(fp, voltage, LightRuns(led));
    counts := c;
  }

  /** The split of the current-only runs is defined: the length of the second
      run, which the split reads, exists. */
  ghost predicate SplitDefined(current: seq<real>, led: seq<real>)
    requires |current| == |led| > 0
  {
    |CurrentOnlyRuns(current, led)| >= 2
  }

  /** Rig 1, the control run: the spike counts of the parts of the first
      current-only run before, during and after the light. */
  method Rig1Control(fp: PeakFinder, voltage: seq<real>, current: seq<real>, led: seq<real>)
    returns (pre: nat, mid: nat, post: nat)
    requires |voltage| == |current| == |led| > 0
    requires SplitDefined(current, led)
    ensures var runs := CurrentOnlyRuns(current, led);
            && pre == PartSpikes(fp, voltage, runs[0], |runs[1]|, |runs[0]|, 0)
            && mid == PartSpikes(fp, voltage, runs[0], |runs[1]|, |runs[0]|, 1)
            && post == PartSpikes(fp, voltage, runs[0], |runs[1]|, |runs[0]|, 2)
  {
    var runs := CurrentOnlyRuns(current, led);
    var pieces := PrePostSplit(runs[0], |runs[1]|, |runs[0]|);
    PrePostSplitIn(runs[0], |runs[1]|, |runs[0]|, |voltage|);
    var _, counts := SegmentCounts(fp, voltage, pieces);
    pre, mid, post := counts[0], counts[1], counts[2];
  }

  /** Rig 1, the light runs: pre_post_LED_idx is the same list object as
      I_only_idx_cons, and del pre_post_LED_idx[0] drops the control run from
      it. The remaining runs alternate before/after a light pulse: the pre
      counts are the even positions, the post counts and first-spike times
      the odd ones. */
  method Rig1PrePost(fp: PeakFinder, voltage: seq<real>, current: seq<real>, led: seq<real>, rate: nat)
    returns (preCounts: seq<nat>, postCounts: seq<nat>, firstSpike: seq<Option<real>>)
    requires |voltage| == |current| == |led| > 0 && rate > 0
    ensures var runs := CurrentOnlyRuns(current, led);
            && RunsIn(runs, |voltage|)
            && |preCounts| == |runs| / 2 && |postCounts| == |firstSpike| == (|runs| - 1) / 2
            && (forall k :: 0 <= k < |preCounts| ==>
                  2 * k + 1 < |runs| && preCounts[k] == |fp(Take(voltage, runs[2 * k + 1]), SpikeHeight)|)
            && (forall k :: 0 <= k < |postCounts| ==>
                  2 * k + 2 < |runs|
                  && postCounts[k] == |fp(Take(voltage, runs[2 * k + 2]), SpikeHeight)|
                  && firstSpike[k] == FirstSpikeTime(fp(Take(voltage, runs[2 * k + 2]), SpikeHeight), rate))
  {
    preCounts, postCounts, firstSpike := AfterControlRun(fp, voltage, CurrentOnlyRuns(current, led), rate);
  }

  /** Rig 1's counting over given runs: drop run 0, then alternate. */
  method AfterControlRun(fp: PeakFinder, voltage: seq<real>, runs: seq<seq<int>>, rate: nat)
    returns (preCounts: seq<nat>, postCounts: seq<nat>, firstSpike: seq<Option<real>>)
    requires rate > 0 && |runs| > 0 && RunsIn(runs, |voltage|)
    ensures |preCounts| == |runs| / 2 && |postCounts| == |firstSpike| == (|runs| - 1) / 2
    ensures forall k :: 0 <= k < |preCounts| ==>
              2 * k + 1 < |runs| && preCounts[k] == |fp(Take(voltage, runs[2 * k + 1]), SpikeHeight)|
    ensures forall k :: 0 <= k < |postCounts| ==>
              && 2 * k + 2 < |runs|
              && postCounts[k] == |fp(Take(voltage, runs[2 * k + 2]), SpikeHeight)|
              && firstSpike[k] == FirstSpikeTime(fp(Take(voltage, runs[2 * k + 2]), SpikeHeight), rate)
  {
    var rest := DropControlRun(runs);
    assert RunsIn(rest, |voltage|);
    preCounts, postCounts, firstSpike := AlternatingCounts(fp, voltage, rest, rate);
    forall k | 0 <= k < |preCounts|
      ensures 2 * k + 1 < |runs| && rest[2 * k] == runs[2 * k + 1]
    {
    }
    forall k | 0 <= k < |postCounts|
      ensures 2 * k + 2 < |runs| && rest[2 * k + 1] == runs[2 * k + 2]
    {
    }
  }

  /** The counting shared by both rigs over runs that alternate before/after a
      light pulse: peak lists and counts per run, then counts[0::2] as the pre
      counts, counts[1::2] as the post counts and the first-spike times of
      lists[1::2]. */
  method AlternatingCounts(fp: PeakFinder, voltage: seq<real>, rest: seq<seq<int>>, rate: nat)
    returns (preCounts: seq<nat>, postCounts: seq<nat>, firstSpike: seq<Option<real>>)
    requires rate > 0 && RunsIn(rest, |voltage|)
    ensures |preCounts| == (|rest| + 1) / 2 && |postCounts| == |firstSpike| == |rest| / 2
    ensures forall k :: 0 <= k < |preCounts| ==>
              preCounts[k] == |fp(Take(voltage, rest[2 * k]), SpikeHeight)|
    ensures forall k :: 0 <= k < |postCounts| ==>
              && postCounts[k] == |fp(Take(voltage, rest[2 * k + 1]), SpikeHeight)|
              && firstSpike[k] == FirstSpikeTime(fp(Take(voltage, rest[2 * k + 1]), SpikeHeight), rate)
  {
    var lists, counts := SegmentCounts(fp, voltage, rest);
    preCounts := StepSliceOf(counts, 0, 2);
    postCounts := StepSliceOf(counts, 1, 2);
    firstSpike := FirstSpikeTimes(StepSliceOf(lists, 1, 2), rate);
    EvenOddSlices(counts);
    EvenOddSlices(lists);
  }

  /** [lst[c] for lst in splits]: one column of the split runs. */
  method Column(splits: seq<seq<seq<int>>>, c: nat) returns (col: seq<seq<int>>)
    requires forall k :: 0 <= k < |splits| ==> c < |splits[k]|
    ensures |col| == |splits|
    ensures forall k :: 0 <= k < |splits| ==> col[k] == splits[k][c]
  {
    col := [];
    for k := 0 to |splits|
      invariant |col| == k
      invariant forall j :: 0 <= j < k ==> col[j] == splits[j][c]
    {
      col := col + [splits[k][c]];
    }
  }

  /** The spike counts of piece c of every split run: the column loop over the
      split runs, then the peak-list and count loops over its pieces. */
  method PartCounts(fp: PeakFinder, voltage: seq<real>, long: seq<seq<int>>, splits: seq<seq<seq<int>>>,
                    pre: nat, len0: nat, c: nat)
    returns (counts: seq<nat>)
    requires c < 4 && RunsIn(long, |voltage|)
    requires |splits| == |long| && forall k :: 0 <= k < |long| ==> splits[k] == PrePostSplit(long[k], pre, len0)
    ensures |counts| == |long|
    ensures forall k :: 0 <= k < |long| ==> counts[k] == PartSpikes(fp, voltage, long[k], pre, len0, c)
  {
    var pieces := Column(splits, c);
    forall k | 0 <= k < |long| ensures AllIn(pieces[k], |voltage|) {
      PySliceIn(long[k], c, pre, len0, |voltage|);
    }
    var _, cs := SegmentCounts(fp, voltage, pieces);
    counts := cs;
  }

  /** Rig 2, the control runs: every third current-only run, from the first
      ([0::3]), is a long control run, and each is split at the positions
      computed from the first two runs. One spike count per long run for each
      of the three parts. */
  method Rig2Control(fp: PeakFinder, voltage: seq<real>, current: seq<real>, led: seq<real>)
    returns (pre: seq<nat>, mid: seq<nat>, post: seq<nat>)
    requires |voltage| == |current| == |led| > 0
    requires SplitDefined(current, led)
    ensures var runs := CurrentOnlyRuns(current, led);
            var long := StepSliceOf(runs, 0, 3);
            && |pre| == |mid| == |post| == |long|
            && forall k :: 0 <= k < |long| ==>
                 && k * 3 < |runs|
                 && pre[k] == PartSpikes(fp, voltage, runs[k * 3], |runs[1]|, |runs[0]|, 0)
                 && mid[k] == PartSpikes(fp, voltage, runs[k * 3], |runs[1]|, |runs[0]|, 1)
                 && post[k] == PartSpikes(fp, voltage, runs[k * 3], |runs[1]|, |runs[0]|, 2)
  {
    var runs := CurrentOnlyRuns(current, led);
    var p, l0 := |runs[1]|, |runs[0]|;
    var long := StepSliceOf(runs, 0, 3);
    LongRuns(runs, |voltage|);
    var splits := SplitAll(long, p, l0);
    pre := PartCounts(fp, voltage, long, splits, p, l0, 0);
    mid := PartCounts(fp, voltage, long, splits, p, l0, 1);
    post := PartCounts(fp, voltage, long, splits, p, l0, 2);
  }

  /** runs[0::3]: runs 0, 3, 6, …, all still in the recording. */
  lemma LongRuns(runs: seq<seq<int>>, n: nat)
    requires RunsIn(runs, n)
    ensures var long := StepSliceOf(runs, 0, 3);
            && RunsIn(long, n)
            && forall k :: 0 <= k < |long| ==> k * 3 < |runs| && long[k] == runs[k * 3]
  {
    var long := StepSliceOf(runs, 0, 3);
    StepSliceAt(runs, 0, 3);
    forall k | 0 <= k < |long| ensures k * 3 < |runs| && long[k] == runs[k * 3] {
      assert long[k] == runs[0 + k * 3];
    }
  }

  /** The split loop: every long run cut at the same positions. */
  method SplitAll(long: seq<seq<int>>, pre: nat, len0: nat) returns (splits: seq<seq<seq<int>>>)
    ensures |splits| == |long|
    ensures forall k :: 0 <= k < |long| ==> splits[k] == PrePostSplit(long[k], pre, len0)
  {
    splits := [];
    for k := 0 to |long|
      invariant |splits| == k
      invariant forall j :: 0 <= j < k ==> splits[j] == PrePostSplit(long[j], pre, len0)
    {
      splits := splits + [PrePostSplit(long[k], pre, len0)];
    }
  }

  /** Rig 2, the light runs: pre_post_LED_idx is the same list object as
      I_only_idx_cons_others, and del pre_post_LED_idx[0::3] drops the control
      runs from it (the long runs were copied out by slicing before, so they
      keep their value). What is left alternates before/after a light pulse:
      the pre counts come from runs 1, 4, 7, … and the post counts and
      first-spike times from runs 2, 5, 8, … of the current-only runs. */
  method Rig2PrePost(fp: PeakFinder, voltage: seq<real>, current: seq<real>, led: seq<real>, rate: nat)
    returns (preCounts: seq<nat>, postCounts: seq<nat>, firstSpike: seq<Option<real>>)
    requires |voltage| == |current| == |led| > 0 && rate > 0
    ensures var runs := CurrentOnlyRuns(current, led);
            var kept := |runs| - (|runs| + 2) / 3;
            && |preCounts| == (kept + 1) / 2 && |postCounts| == |firstSpike| == kept / 2
            && (forall k :: 0 <= k < |preCounts| ==>
                  3 * k + 1 < |runs| && preCounts[k] == |fp(Take(voltage, runs[3 * k + 1]), SpikeHeight)|)
            && (forall k :: 0 <= k < |postCounts| ==>
                  3 * k + 2 < |runs|
                  && postCounts[k] == |fp(Take(voltage, runs[3 * k + 2]), SpikeHeight)|
                  && firstSpike[k] == FirstSpikeTime(fp(Take(voltage, runs[3 * k + 2]), SpikeHeight), rate))
  {
    preCounts, postCounts, firstSpike := WithoutControlRuns(fp, voltage, CurrentOnlyRuns(current, led), rate);
  }

  /** Rig 2's counting over given runs: drop runs 0, 3, 6, ..., then alternate. */
  method WithoutControlRuns(fp: PeakFinder, voltage: seq<real>, runs: seq<seq<int>>, rate: nat)
    returns (preCounts: seq<nat>, postCounts: seq<nat>, firstSpike: seq<Option<real>>)
    requires rate > 0 && RunsIn(runs, |voltage|)
    ensures var kept := |runs| - (|runs| + 2) / 3;
            && |preCounts| == (kept + 1) / 2 && |postCounts| == |firstSpike| == kept / 2
            && (forall k :: 0 <= k < |preCounts| ==>
                  3 * k + 1 < |runs| && preCounts[k] == |fp(Take(voltage, runs[3 * k + 1]), SpikeHeight)|)
            && (forall k :: 0 <= k < |postCounts| ==>
                  3 * k + 2 < |runs|
                  && postCounts[k] == |fp(Take(voltage, runs[3 * k + 2]), SpikeHeight)|
                  && firstSpike[k] == FirstSpikeTime(fp(Take(voltage, runs[3 * k + 2]), SpikeHeight), rate))
  {
    var rest := DropControlRuns(runs);
    OtherRuns(runs, |voltage|);
    preCounts, postCounts, firstSpike := AlternatingCounts(fp, voltage, rest, rate);
    forall k | 0 <= k < |preCounts|
      ensures 3 * k + 1 < |runs| && preCounts[k] == |fp(Take(voltage, runs[3 * k + 1]), SpikeHeight)|
    {
      assert rest[2 * k] == runs[3 * k + 1];
    }
    forall k | 0 <= k < |postCounts|
      ensures 3 * k + 2 < |runs| && rest[2 * k + 1] == runs[3 * k + 2]
    {
    }
  }

  /** del pre_post_LED_idx[0] on the list object holding the current-only runs. */
  method DropControlRun(runs: seq<seq<int>>) returns (rest: seq<seq<int>>)
    requires |runs| > 0
    ensures rest == runs[1..]
  {
    var prePost := new PyList(runs);
    prePost.DelAt(0);
    rest := prePost.items;
  }

  /** del pre_post_LED_idx[0::3] on the list object holding the current-only runs. */
  method DropControlRuns(runs: seq<seq<int>>) returns (rest: seq<seq<int>>)
    ensures rest == DelStepOf(runs, 0, 3)
  {
    var prePost := new PyList(runs);
    prePost.DelStep(0, 3);
    rest := prePost.items;
  }

  /** After del runs[0::3], the even positions hold runs 1, 4, 7, … and the
      odd positions runs 2, 5, 8, …, all still in the recording. */
  lemma OtherRuns(runs: seq<seq<int>>, n: nat)
    requires RunsIn(runs, n)
    ensures var rest := DelStepOf(runs, 0, 3);
            && |rest| == |runs| - (|runs| + 2) / 3
            && RunsIn(rest, n)
            && (forall k :: 0 <= 2 * k < |rest| ==> 3 * k + 1 < |runs| && rest[2 * k] == runs[3 * k + 1])
            && (forall k :: 0 <= 2 * k + 1 < |rest| ==> 3 * k + 2 < |runs| && rest[2 * k + 1] == runs[3 * k + 2])
  {
    OtherRunsIn(runs, n);
    OtherRunsBefore(runs);
    OtherRunsAfter(runs);
  }

  lemma OtherRunsIn(runs: seq<seq<int>>, n: nat)
    requires RunsIn(runs, n)
    ensures |DelStepOf(runs, 0, 3)| == |runs| - (|runs| + 2) / 3
    ensures RunsIn(DelStepOf(runs, 0, 3), n)
  {
    var rest := DelStepOf(runs, 0, 3);
    DelEveryThird(runs);
    forall k | 0 <= k < |rest| ensures AllIn(rest[k], n) {
      assert rest[k] == runs[3 * (k / 2) + 1 + k % 2];
    }
  }

  lemma OtherRunsBefore(runs: seq<seq<int>>)
    ensures var rest := DelStepOf(runs, 0, 3);
            forall k :: 0 <= 2 * k < |rest| ==> 3 * k + 1 < |runs| && rest[2 * k] == runs[3 * k + 1]
  {
    var rest := DelStepOf(runs, 0, 3);
    DelEveryThird(runs);
    forall k | 0 <= 2 * k < |rest| ensures 3 * k + 1 < |runs| && rest[2 * k] == runs[3 * k + 1] {
      var j := 2 * k;
      assert j / 2 == k && j % 2 == 0;
      assert rest[j] == runs[3 * (j / 2) + 1 + j % 2];
    }
  }

  lemma OtherRunsAfter(runs: seq<seq<int>>)
    ensures var rest := DelStepOf(runs, 0, 3);
            forall k :: 0 <= 2 * k + 1 < |rest| ==> 3 * k + 2 < |runs| && rest[2 * k + 1] == runs[3 * k + 2]
  {
    var rest := DelStepOf(runs, 0, 3);
    DelEveryThird(runs);
    forall k | 0 <= 2 * k + 1 < |rest| ensures 3 * k + 2 < |runs| && rest[2 * k + 1] == runs[3 * k + 2] {
      var j := 2 * k + 1;
      assert j / 2 == k && j % 2 == 1;
      assert rest[j] == runs[3 * (j / 2) + 1 + j % 2];
    }
  }

  /** s[::2] and s[1::2]: the even and the odd positions. */
  lemma EvenOddSlices<T>(s: seq<T>)
    ensures |StepSliceOf(s, 0, 2)| == (|s| + 1) / 2 && |StepSliceOf(s, 1, 2)| == |s| / 2
    ensures forall k :: 0 <= k < |StepSliceOf(s, 0, 2)| ==> StepSliceOf(s, 0, 2)[k] == s[2 * k]
    ensures forall k :: 0 <= k < |StepSliceOf(s, 1, 2)| ==> StepSliceOf(s, 1, 2)[k] == s[2 * k + 1]
  {
    StepSliceAt(s, 0, 2);
    StepSliceAt(s, 1, 2);
    var e, o := StepSliceOf(s, 0, 2), StepSliceOf(s, 1, 2);
    if |e| > 0 {
      var i := |e| - 1;
      assert 0 + i * 2 < |s| && e[i] == s[0 + i * 2];
    }
    if |o| > 0 {
      var i := |o| - 1;
      assert 1 + i * 2 < |s| && o[i] == s[1 + i * 2];
    }
  }
}
