/** Set operations on sample-position lists used by the current-injection
    protocols with light inhibition: the positions where current is injected
    without light (np.isin(..., invert=True) as a mask) and the positions where
    current and light coincide (np.intersect1d). */
module IndexSets {
  import opened Indexing

  /** xs[np.isin(xs, ys, invert=True)]: the elements of xs that are not in ys,
      in the order of xs. */
  function Without(xs: seq<int>, ys: seq<int>): (r: seq<int>)
    ensures forall v :: v in r <==> v in xs && v !in ys
    ensures |r| <= |xs|
    ensures StrictlyIncreasing(xs) ==> StrictlyIncreasing(r)
  {
    if xs == [] then []
    else
      var n := |xs| - 1;
      var front := Without(xs[..n], ys);
      assert xs == xs[..n] + [xs[n]];
      assert StrictlyIncreasing(xs) ==> forall k :: 0 <= k < |front| ==> front[k] < xs[n] by {
        if StrictlyIncreasing(xs) {
          forall k | 0 <= k < |front| ensures front[k] < xs[n] {
            assert front[k] in front;
            var j :| 0 <= j < n && xs[..n][j] == front[k];
          }
        }
      }
      if xs[n] in ys then front else front + [xs[n]]
  }

  /** np.intersect1d(xs, ys) for a sorted, duplicate-free xs: the elements of
      xs that are also in ys. */
  function Intersect(xs: seq<int>, ys: seq<int>): (r: seq<int>)
    ensures forall v :: v in r <==> v in xs && v in ys
    ensures |r| <= |xs|
    ensures StrictlyIncreasing(xs) ==> StrictlyIncreasing(r)
  {
    if xs == [] then []
    else
      var n := |xs| - 1;
      var front := Intersect(xs[..n], ys);
      assert xs == xs[..n] + [xs[n]];
      assert StrictlyIncreasing(xs) ==> forall k :: 0 <= k < |front| ==> front[k] < xs[n] by {
        if StrictlyIncreasing(xs) {
          forall k | 0 <= k < |front| ensures front[k] < xs[n] {
            assert front[k] in front;
            var j :| 0 <= j < n && xs[..n][j] == front[k];
          }
        }
      }
      if xs[n] in ys then front + [xs[n]] else front
  }

  /** A sorted, duplicate-free list is determined by its elements, so the
      filtered lists above are exactly what sorting and de-duplicating the same
      elements would give. */
  lemma {:induction false} IncreasingUnique(a: seq<int>, b: seq<int>)
    requires StrictlyIncreasing(a) && StrictlyIncreasing(b)
    requires forall v :: v in a <==> v in b
    ensures a == b
    decreases |a|
  {
    SameElementsEmpty(a, b);
    if a == [] || b == [] {
      // Both are empty.
    } else {
      assert a[0] in b && b[0] in a;
      assert a[0] == b[0];
      forall v ensures v in a[1..] <==> v in b[1..] {
        if v in a[1..] {
          TailMember(a, b, v);
        }
        if v in b[1..] {
          TailMember(b, a, v);
        }
      }
      IncreasingUnique(a[1..], b[1..]);
      assert a == [a[0]] + a[1..] && b == [b[0]] + b[1..];
    }
  }

  /** Two increasing lists with the same elements and the same head: an element
      of the first tail lies in the second tail. */
  lemma TailMember(a: seq<int>, b: seq<int>, v: int)
    requires StrictlyIncreasing(a) && StrictlyIncreasing(b)
    requires forall v :: v in a <==> v in b
    requires |a| > 0 && |b| > 0 && a[0] == b[0] && v in a[1..]
    ensures v in b[1..]
  {
    var j :| 0 <= j < |a| - 1 && a[1..][j] == v;
    assert v == a[j + 1] && a[0] < v;
    assert v in b;
    var i :| 0 <= i < |b| && b[i] == v;
    assert i > 0 && b[1..][i - 1] == v;
  }

  lemma SameElementsEmpty(a: seq<int>, b: seq<int>)
    requires forall v :: v in a <==> v in b
    ensures a == [] <==> b == []
  {
    if a != [] {
      var x := a[0];
      assert x in a;
      assert x in a <==> x in b;
    }
    if b != [] {
      var x := b[0];
      assert x in b;
      assert x in a <==> x in b;
    }
  }

  /** The injected positions split into those with light and those without:
      for a duplicate-free list the two parts add up to the whole. */
  lemma {:induction false} IntersectWithoutPartition(xs: seq<int>, ys: seq<int>)
    ensures |Intersect(xs, ys)| + |Without(xs, ys)| == |xs|
  {
    if xs != [] {
      IntersectWithoutPartition(xs[..|xs| - 1], ys);
    }
  }

  /** Both parts keep the range of the injected positions. */
  lemma IntersectWithoutIn(xs: seq<int>, ys: seq<int>, n: nat)
    requires AllIn(xs, n)
    ensures AllIn(Intersect(xs, ys), n) && AllIn(Without(xs, ys), n)
  {
    var i, w := Intersect(xs, ys), Without(xs, ys);
    forall k | 0 <= k < |i| ensures 0 <= i[k] < n {
      assert i[k] in xs;
    }
    forall k | 0 <= k < |w| ensures 0 <= w[k] < n {
      assert w[k] in xs;
    }
  }
}
