/** Run segmentation, the `consecutive` helper that every script defines:
    np.split(data, np.where(np.diff(data) != stepsize)[0] + 1). A thresholded
    channel's sorted index list is cut wherever two neighbours are not exactly
    `stepsize` apart; each piece is one stimulus or current-injection pulse. */
module Segmentation {
  import opened Indexing

  /** np.diff */
  function Diff(s: seq<int>): (d: seq<int>)
    ensures |d| == if |s| == 0 then 0 else |s| - 1
    ensures forall k :: 0 <= k < |d| ==> d[k] == s[k + 1] - s[k]
  {
    if |s| < 2 then [] else [s[1] - s[0]] + Diff(s[1..])
  }

  /** np.where(d != step)[0]: the positions of the differences that are not the step. */
  function WhereNotEqual(d: seq<int>, step: int): (w: seq<nat>)
    ensures forall i, j :: 0 <= i < j < |w| ==> w[i] < w[j]
    ensures forall k :: 0 <= k < |w| ==> w[k] < |d| && d[w[k]] != step
    ensures forall i :: 0 <= i < |d| && d[i] != step ==> i in w
  {
    if d == [] then []
    else
      var n := |d| - 1;
      var front := WhereNotEqual(d[..n], step);
      assert forall i :: 0 <= i < n ==> d[..n][i] == d[i];
      if d[n] != step then front + [n] else front
  }

  /** The cut points handed to np.split: each difference position plus one. */
  function Cuts(data: seq<int>, step: int): (c: seq<nat>)
    ensures forall i, j :: 0 <= i < j < |c| ==> c[i] < c[j]
    ensures forall k :: 0 <= k < |c| ==> 0 < c[k] < |data|
    ensures forall k :: 0 < k < |data| ==> (k in c <==> data[k] - data[k - 1] != step)
  {
    var c := PlusOne(WhereNotEqual(Diff(data), step));
    CutsExact(data, step, c);
    c
  }

  /** Each position plus one. */
  function PlusOne(w: seq<nat>): (c: seq<nat>)
    ensures |c| == |w|
    ensures forall i :: 0 <= i < |w| ==> c[i] == w[i] + 1
  {
    seq(|w|, i requires 0 <= i < |w| => w[i] + 1)
  }

  /** The cuts are increasing, inside the data, and sit exactly after the steps
      that are not stepsize. */
  lemma CutsExact(data: seq<int>, step: int, c: seq<nat>)
    requires c == PlusOne(WhereNotEqual(Diff(data), step))
    ensures forall i, j :: 0 <= i < j < |c| ==> c[i] < c[j]
    ensures forall k :: 0 <= k < |c| ==> 0 < c[k] < |data|
    ensures forall k :: 0 < k < |data| ==> (k in c <==> data[k] - data[k - 1] != step)
  {
    CutsSound(data, step);
    CutsComplete(data, step);
    forall k | 0 < k < |data| && k in c ensures data[k] - data[k - 1] != step {
      var i :| 0 <= i < |c| && c[i] == k;
    }
  }

  /** Every cut follows a step that is not stepsize. */
  lemma CutsSound(data: seq<int>, step: int)
    ensures var c := PlusOne(WhereNotEqual(Diff(data), step));
            && (forall k :: 0 <= k < |c| ==> 0 < c[k] < |data| && data[c[k]] - data[c[k] - 1] != step)
            && (forall i, j :: 0 <= i < j < |c| ==> c[i] < c[j])
  {
    var d := Diff(data);
    var w := WhereNotEqual(d, step);
    var c := PlusOne(w);
    forall k | 0 <= k < |c| ensures 0 < c[k] < |data| && data[c[k]] - data[c[k] - 1] != step {
      assert d[w[k]] != step;
    }
  }

  /** Every step that is not stepsize is followed by a cut. */
  lemma CutsComplete(data: seq<int>, step: int)
    ensures var c := PlusOne(WhereNotEqual(Diff(data), step));
            forall k :: 0 < k < |data| && data[k] - data[k - 1] != step ==> k in c
  {
    var d := Diff(data);
    var w := WhereNotEqual(d, step);
    var c := PlusOne(w);
    forall k | 0 < k < |data| && data[k] - data[k - 1] != step ensures k in c {
      assert d[k - 1] != step;
      var i :| 0 <= i < |w| && w[i] == k - 1;
      assert c[i] == k;
    }
  }

  /** The pieces np.split returns from position lo onwards: every slice runs from
      one cut to the next, the last to the end of the array, with Python's clipped
      slicing so that unordered or out-of-range cuts give empty pieces. */
  function SplitFrom(a: seq<int>, cuts: seq<nat>, lo: nat): seq<seq<int>>
    decreases |cuts|
  {
    if cuts == [] then [PySlice(a, lo, |a|)]
    else [PySlice(a, lo, cuts[0])] + SplitFrom(a, cuts[1..], cuts[0])
  }

  /** np.split(a, cuts) */
  function NpSplit(a: seq<int>, cuts: seq<nat>): (pieces: seq<seq<int>>)
    ensures |pieces| == |cuts| + 1
  {
    SplitLength(a, cuts, 0);
    SplitFrom(a, cuts, 0)
  }

  lemma {:induction false} SplitLength(a: seq<int>, cuts: seq<nat>, lo: nat)
    ensures |SplitFrom(a, cuts, lo)| == |cuts| + 1
    decreases |cuts|
  {
    if cuts != [] {
      SplitLength(a, cuts[1..], cuts[0]);
    }
  }

  /** consecutive(data, stepsize) */
  function Consecutive(data: seq<int>, step: int): (runs: seq<seq<int>>)
  {
    NpSplit(data, Cuts(data, step))
  }

  /** Concatenation of a list of pieces (np.concatenate). */
  function Flatten(runs: seq<seq<int>>): seq<int>
  {
    if runs == [] then [] else runs[0] + Flatten(runs[1..])
  }

  lemma {:induction false} FlattenAppend(xs: seq<seq<int>>, ys: seq<seq<int>>)
    ensures Flatten(xs + ys) == Flatten(xs) + Flatten(ys)
  {
    if xs == [] {
      assert xs + ys == ys;
    } else {
      assert (xs + ys)[1..] == xs[1..] + ys;
      FlattenAppend(xs[1..], ys);
    }
  }

  /** Each run steps by exactly `step` from one element to the next. */
  ghost predicate StepsWithin(r: seq<int>, step: int)
  {
    forall j :: 0 < j < |r| ==> r[j] - r[j - 1] == step
  }

  /** A list of runs is a maximal segmentation: no run is empty, each steps by
      `step` internally, and no two neighbouring runs could be joined. */
  ghost predicate MaximalRuns(runs: seq<seq<int>>, step: int)
  {
    && (forall i :: 0 <= i < |runs| ==> |runs[i]| > 0 && StepsWithin(runs[i], step))
    && (forall i :: 0 < i < |runs| ==> runs[i][0] - Last(runs[i - 1]) != step)
  }

  /** Splitting at increasing in-range cuts loses and duplicates nothing. */
  lemma {:induction false} SplitFromFlatten(a: seq<int>, cuts: seq<nat>, lo: nat)
    requires lo <= |a|
    requires forall i, j :: 0 <= i < j < |cuts| ==> cuts[i] < cuts[j]
    requires forall k :: 0 <= k < |cuts| ==> lo <= cuts[k] <= |a|
    ensures Flatten(SplitFrom(a, cuts, lo)) == a[lo..]
    decreases |cuts|
  {
    if cuts == [] {
      assert PySlice(a, lo, |a|) == a[lo..|a|] == a[lo..];
      assert Flatten([a[lo..]]) == a[lo..] + Flatten([]);
    } else {
      var c := cuts[0];
      assert forall k :: 0 <= k < |cuts[1..]| ==> cuts[1..][k] == cuts[k + 1];
      SplitFromFlatten(a, cuts[1..], c);
      var rest := SplitFrom(a, cuts[1..], c);
      assert PySlice(a, lo, c) == a[lo..c];
      assert SplitFrom(a, cuts, lo) == [a[lo..c]] + rest;
      assert Flatten([a[lo..c]] + rest) == a[lo..c] + Flatten(rest);
      assert a[lo..c] + a[c..] == a[lo..];
    }
  }

  /** Cuts at exactly the positions after lo where the step breaks. */
  ghost predicate ExactCuts(a: seq<int>, cuts: seq<nat>, lo: nat, step: int)
  {
    && (forall i, j :: 0 <= i < j < |cuts| ==> cuts[i] < cuts[j])
    && (forall k :: 0 <= k < |cuts| ==> lo < cuts[k] < |a|)
    && (forall k :: lo < k < |a| ==> (k in cuts <==> a[k] - a[k - 1] != step))
  }

  /** Splitting at exactly the positions where the step breaks yields maximal runs. */
  lemma {:induction false} SplitFromRuns(a: seq<int>, cuts: seq<nat>, lo: nat, step: int)
    requires lo < |a|
    requires ExactCuts(a, cuts, lo, step)
    ensures MaximalRuns(SplitFrom(a, cuts, lo), step)
    ensures SplitFrom(a, cuts, lo)[0][0] == a[lo]
    decreases |cuts|
  {
    var runs := SplitFrom(a, cuts, lo);
    if cuts == [] {
      assert PySlice(a, lo, |a|) == a[lo..];
      assert runs == [a[lo..]];
      StepsBetween(a, lo, |a|, step);
    } else {
      var c := cuts[0];
      var first := a[lo..c];
      var rest := SplitFrom(a, cuts[1..], c);
      ExactCutsTail(a, cuts, lo, step);
      SplitFromRuns(a, cuts[1..], c, step);
      assert PySlice(a, lo, c) == first;
      assert runs == [first] + rest;
      FirstPieceSteps(a, cuts, lo, step);
      assert c in cuts;
      assert rest[0][0] - Last(first) != step;
      MaximalPrepend(first, rest, step);
    }
  }

  /** A run that steps by `step` and breaks from the next run extends a maximal
      segmentation. */
  lemma MaximalPrepend(first: seq<int>, rest: seq<seq<int>>, step: int)
    requires |first| > 0 && StepsWithin(first, step)
    requires MaximalRuns(rest, step) && |rest| > 0 && rest[0][0] - Last(first) != step
    ensures MaximalRuns([first] + rest, step)
  {
    var runs := [first] + rest;
    forall i | 0 < i < |runs| ensures runs[i][0] - Last(runs[i - 1]) != step {
      if i > 1 {
        assert runs[i] == rest[i - 1] && runs[i - 1] == rest[i - 2];
      }
    }
  }

  /** The cuts after the first are exact from the first cut on. */
  lemma ExactCutsTail(a: seq<int>, cuts: seq<nat>, lo: nat, step: int)
    requires ExactCuts(a, cuts, lo, step) && cuts != []
    ensures ExactCuts(a, cuts[1..], cuts[0], step)
  {
    forall k | cuts[0] < k < |a| ensures (k in cuts[1..] <==> a[k] - a[k - 1] != step) {
      assert k in cuts <==> k in cuts[1..];
    }
  }

  /** Between lo and the first cut the data steps by `step`. */
  lemma FirstPieceSteps(a: seq<int>, cuts: seq<nat>, lo: nat, step: int)
    requires ExactCuts(a, cuts, lo, step) && cuts != []
    ensures StepsWithin(a[lo..cuts[0]], step)
  {
    forall k | lo < k < cuts[0] ensures a[k] - a[k - 1] == step {
      assert k !in cuts;
    }
    StepsBetween(a, lo, cuts[0], step);
  }

  /** A stretch whose every neighbouring pair differs by `step` steps by `step`. */
  lemma StepsBetween(a: seq<int>, lo: nat, hi: nat, step: int)
    requires lo <= hi <= |a|
    requires forall k :: lo < k < hi ==> a[k] - a[k - 1] == step
    ensures StepsWithin(a[lo..hi], step)
  {
    forall j | 0 < j < hi - lo ensures a[lo..hi][j] - a[lo..hi][j - 1] == step {
      assert a[lo..hi][j] == a[lo + j];
    }
  }

  /** Concatenating the runs gives back the input exactly. */
  lemma ConsecutiveFlatten(data: seq<int>, step: int)
    ensures Flatten(Consecutive(data, step)) == data
  {
    SplitFromFlatten(data, Cuts(data, step), 0);
  }

  /** On an empty index list consecutive returns one empty run, as np.split does. */
  lemma ConsecutiveEmpty(step: int)
    ensures Consecutive([], step) == [[]]
  {
  }

  /** On a non-empty list every run is non-empty, steps by `step` inside, and the
      step between the end of one run and the start of the next is not `step`. */
  lemma ConsecutiveMaximal(data: seq<int>, step: int)
    requires |data| > 0
    ensures MaximalRuns(Consecutive(data, step), step)
  {
    SplitFromRuns(data, Cuts(data, step), 0, step);
  }

  /** consecutive is the only maximal segmentation: any list of maximal runs that
      concatenates to the data is the one consecutive returns. */
  lemma {:induction false} MaximalRunsUnique(runs: seq<seq<int>>, other: seq<seq<int>>, step: int)
    requires MaximalRuns(runs, step) && MaximalRuns(other, step)
    requires Flatten(runs) == Flatten(other)
    ensures runs == other
    decreases |runs|
  {
    if runs == [] || other == [] {
      // A maximal run is never empty, so an empty concatenation means no runs.
    } else {
      var r, o := runs[0], other[0];
      var f := Flatten(runs);
      assert f == r + Flatten(runs[1..]) && f == o + Flatten(other[1..]);
      // The first run ends where the step first breaks, in both lists.
      FirstRunBreaks(runs, step);
      FirstRunBreaks(other, step);
      if |r| < |o| {
        assert false;
      } else if |o| < |r| {
        assert false;
      }
      assert r == f[..|r|] == o;
      assert Flatten(runs[1..]) == Flatten(other[1..]);
      MaximalRunsUnique(runs[1..], other[1..], step);
      assert runs == [r] + runs[1..] && other == [o] + other[1..];
    }
  }

  /** Inside the first run of a maximal segmentation the concatenation steps by
      `step`; right after it, if anything follows, the step breaks. */
  lemma FirstRunBreaks(runs: seq<seq<int>>, step: int)
    requires MaximalRuns(runs, step) && |runs| > 0
    ensures var f, r := Flatten(runs), runs[0];
            && |r| <= |f|
            && (forall j :: 0 < j < |r| ==> f[j] - f[j - 1] == step)
            && (|f| > |r| ==> f[|r|] - f[|r| - 1] != step)
  {
    var f, r := Flatten(runs), runs[0];
    assert f == r + Flatten(runs[1..]);
    assert forall j :: 0 <= j < |r| ==> f[j] == r[j];
    if |f| > |r| {
      assert |runs| > 1;
      assert runs[1][0] == f[|r|];
    }
  }

  /** Every element of every piece is an element of the concatenation. */
  lemma {:induction false} FlattenMember(runs: seq<seq<int>>, k: nat, j: nat)
    requires k < |runs| && j < |runs[k]|
    ensures runs[k][j] in Flatten(runs)
    decreases k
  {
    assert Flatten(runs) == runs[0] + Flatten(runs[1..]);
    if k > 0 {
      assert runs[1..][k - 1] == runs[k];
      FlattenMember(runs[1..], k - 1, j);
    }
  }

  /** consecutive only regroups its input: every element of every run comes
      from the data. */
  lemma ConsecutiveMembers(data: seq<int>, step: int)
    ensures var runs := Consecutive(data, step);
            forall k, j :: 0 <= k < |runs| && 0 <= j < |runs[k]| ==> runs[k][j] in data
  {
    var runs := Consecutive(data, step);
    ConsecutiveFlatten(data, step);
    forall k, j | 0 <= k < |runs| && 0 <= j < |runs[k]| ensures runs[k][j] in data {
      FlattenMember(runs, k, j);
    }
  }

  /** The first run of a non-empty list starts with its first element. */
  lemma ConsecutiveFirst(data: seq<int>, step: int)
    requires |data| > 0
    ensures |Consecutive(data, step)| > 0
    ensures |Consecutive(data, step)[0]| > 0 && Consecutive(data, step)[0][0] == data[0]
  {
    SplitFromRuns(data, Cuts(data, step), 0, step);
  }
}
