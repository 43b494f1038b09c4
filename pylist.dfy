/** Python lists as the scripts mutate them: `append`, `del l[i]`,
    `del l[lo:hi]` and `del l[start::step]` change the list object in place, and
    every name bound to that object sees the change. PyList is that object; the
    functions below give the value each statement leaves behind. */
module PyLists {
  import opened Indexing

  /** The list left by `del s[lo:hi]` with non-negative bounds: Python clips both
      bounds to the length, and removes nothing when hi <= lo. */
  function DelSliceOf<T>(s: seq<T>, lo: nat, hi: nat): (r: seq<T>)
    ensures lo <= hi <= |s| ==> r == s[..lo] + s[hi..]
    ensures |s| <= hi ==> r == s[..if lo < |s| then lo else |s|]
    ensures hi <= lo ==> r == s
  {
    var a := if lo < |s| then lo else |s|;
    var b := if hi < a then a else if hi < |s| then hi else |s|;
    assert hi <= lo ==> s[..a] + s[a..] == s;
    s[..a] + s[b..]
  }

  /** s[start::step] for a positive step: the elements at start, start+step, …
      that exist. */
  function StepSliceOf<T>(s: seq<T>, start: nat, step: nat): seq<T>
    requires step > 0
    decreases |s| - start
  {
    if start >= |s| then [] else [s[start]] + StepSliceOf(s, start + step, step)
  }

  /** Element i of s[start::step] is s[start + i*step], and the slice stops at
      the first such position past the end. */
  lemma {:induction false} StepSliceAt<T>(s: seq<T>, start: nat, step: nat)
    requires step > 0
    ensures forall i :: 0 <= i < |StepSliceOf(s, start, step)| ==>
              start + i * step < |s| && StepSliceOf(s, start, step)[i] == s[start + i * step]
    ensures start + |StepSliceOf(s, start, step)| * step >= |s|
    decreases |s| - start
  {
    if start < |s| {
      StepSliceAt(s, start + step, step);
      var rest := StepSliceOf(s, start + step, step);
      var r := StepSliceOf(s, start, step);
      assert r == [s[start]] + rest;
      MulSucc(|rest|, step);
      forall i | 1 <= i < |r| ensures start + i * step < |s| && r[i] == s[start + i * step] {
        MulSucc(i - 1, step);
        assert r[i] == rest[i - 1];
      }
    }
  }

  lemma MulSucc(i: nat, step: nat)
    ensures (i + 1) * step == i * step + step
  {
  }

  /** Whether `del s[start::step]` removes position i. */
  predicate StepRemoves(i: nat, start: nat, step: nat)
    requires step > 0
  {
    i >= start && (i - start) % step == 0
  }

  /** The list left by `del s[start::step]`: every position start, start+step, …
      is removed and the others keep their order. */
  function DelStepOf<T>(s: seq<T>, start: nat, step: nat): (r: seq<T>)
    requires step > 0
  {
    if s == [] then []
    else
      var n := |s| - 1;
      DelStepOf(s[..n], start, step) + (if StepRemoves(n, start, step) then [] else [s[n]])
  }

  /** `del s[1::2]` keeps exactly the even positions: it leaves s[0::2]. */
  lemma {:induction false} DelOddPositions<T>(s: seq<T>)
    ensures |DelStepOf(s, 1, 2)| == (|s| + 1) / 2
    ensures forall k :: 0 <= k < |DelStepOf(s, 1, 2)| ==> DelStepOf(s, 1, 2)[k] == s[2 * k]
  {
    if s != [] {
      var n := |s| - 1;
      DelOddPositions(s[..n]);
      var front := DelStepOf(s[..n], 1, 2);
      assert forall k :: 0 <= k < |front| ==> front[k] == s[2 * k] by {
        forall k | 0 <= k < |front| ensures front[k] == s[2 * k] {
          assert s[..n][2 * k] == s[2 * k];
        }
      }
      if n % 2 == 0 {
        assert !StepRemoves(n, 1, 2);
        assert |front| == n / 2;
      } else {
        assert StepRemoves(n, 1, 2);
      }
    }
  }

  /** del s[1::2] leaves the same list as the slice s[0::2]. */
  lemma DelOddIsEvenSlice<T>(s: seq<T>)
    ensures DelStepOf(s, 1, 2) == StepSliceOf(s, 0, 2)
  {
    DelOddPositions(s);
    StepSliceAt(s, 0, 2);
    var d, e := DelStepOf(s, 1, 2), StepSliceOf(s, 0, 2);
    if |e| > 0 {
      assert 0 + (|e| - 1) * 2 < |s|;
    }
    assert |e| == |d|;
    forall k | 0 <= k < |d| ensures d[k] == e[k] {
    }
  }

  /** `del s[0::3]` removes positions 0, 3, 6, …: what is left holds, in order,
      positions 1, 2, 4, 5, 7, 8, …, so element k of the result is
      s[3 * (k / 2) + 1 + k % 2]. */
  lemma {:induction false} DelEveryThird<T>(s: seq<T>)
    ensures |DelStepOf(s, 0, 3)| == |s| - (|s| + 2) / 3
    ensures forall k :: 0 <= k < |DelStepOf(s, 0, 3)| ==>
              3 * (k / 2) + 1 + k % 2 < |s| && DelStepOf(s, 0, 3)[k] == s[3 * (k / 2) + 1 + k % 2]
  {
    if s != [] {
      var n := |s| - 1;
      DelEveryThird(s[..n]);
      var front := DelStepOf(s[..n], 0, 3);
      assert forall k :: 0 <= k < |front| ==> front[k] == s[3 * (k / 2) + 1 + k % 2] by {
        forall k | 0 <= k < |front| ensures front[k] == s[3 * (k / 2) + 1 + k % 2] {
          assert s[..n][3 * (k / 2) + 1 + k % 2] == s[3 * (k / 2) + 1 + k % 2];
        }
      }
      var q := n / 3;
      assert n == 3 * q + n % 3;
      if n % 3 == 0 {
        assert StepRemoves(n, 0, 3);
        assert (n + 3) / 3 == q + 1;
      } else {
        assert !StepRemoves(n, 0, 3);
        var j := |front|;
        assert (n + 2) / 3 == q + 1;
        assert (n + 3) / 3 == q + 1;
        if n % 3 == 1 {
          assert j == 2 * q;
          assert j / 2 == q && j % 2 == 0;
        } else {
          assert j == 2 * q + 1;
          assert j / 2 == q && j % 2 == 1;
        }
      }
    }
  }

  /** A Python list object. Several names may be bound to one PyList; a
      mutation through any of them is seen through all. */
  class PyList<T> {
    var items: seq<T>

    constructor (s: seq<T>)
      ensures items == s
    {
      items := s;
    }

    /** l.append(x) */
    method Append(x: T)
      modifies this
      ensures items == old(items) + [x]
    {
      items := items + [x];
    }

    /** del l[i] for an existing position i. */
    method DelAt(i: nat)
      requires i < |items|
      modifies this
      ensures items == old(items)[..i] + old(items)[i + 1..]
    {
      items := items[..i] + items[i + 1..];
    }

    /** del l[lo:hi] */
    method DelSlice(lo: nat, hi: nat)
      modifies this
      ensures items == DelSliceOf(old(items), lo, hi)
    {
      items := DelSliceOf(items, lo, hi);
    }

    /** del l[start::step] */
    method DelStep(start: nat, step: nat)
      requires step > 0
      modifies this
      ensures items == DelStepOf(old(items), start, step)
    {
      items := DelStepOf(items, start, step);
    }
  }
}
