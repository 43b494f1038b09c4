/** The deactivation-tau fit of exponentialFitGetTau.py and
    exponentialFitGetTauInhibitory.py. Both pick the fit region the same way
    (getExponentialPart) and differ only in its anchor: the first position of
    the minimum of y for outward currents, of the maximum for the depolarising
    responses of the inhibitory opsins GtACR1/GtACR2. The least-squares fit
    itself (scipy.optimize.curve_fit of a*exp(-x/b)+c) is outside the model: a
    Fitter stands for it and returns the fitted b, or None when curve_fit
    raises. */
module ExpFit {
  import opened Numeric
  import opened Indexing

  datatype Anchor = AtMin | AtMax

  /** The initial parameters p0 = [amplitude, 200, 0] handed to curve_fit. */
  datatype Guess = Guess(amplitude: real, tau: real, offset: real)

  type Fitter = (seq<real>, seq<real>, Guess) -> Option<real>

  /** The [xExpPart, yExpPart] pair getExponentialPart returns. */
  datatype ExpPart = ExpPart(x: seq<real>, y: seq<real>)

  /** y.argmin(axis=0) or y.argmax(axis=0). */
  function AnchorIndex(y: seq<real>, a: Anchor): (k: nat)
    requires |y| > 0
    ensures k < |y|
    ensures a == AtMin ==> forall i :: 0 <= i < |y| ==> y[k] <= y[i]
    ensures a == AtMax ==> forall i :: 0 <= i < |y| ==> y[i] <= y[k]
    ensures a == AtMin ==> forall i :: 0 <= i < k ==> y[k] < y[i]
    ensures a == AtMax ==> forall i :: 0 <= i < k ==> y[i] < y[k]
  {
    if a == AtMin then ArgMin(y) else ArgMax(y)
  }

  /** getExponentialPart(x, y, nbPointsForFit): from the anchor to the end of y
      when nbPointsForFit is 0, otherwise at most nbPointsForFit samples from the
      anchor (Python clips the slice at the end). */
  function ExponentialPart(x: seq<real>, y: seq<real>, n: nat, a: Anchor): (p: ExpPart)
    requires |y| > 0
  {
    var k := AnchorIndex(y, a);
    var stop := if n == 0 then |y| else k + n;
    ExpPart(PySlice(x, k, stop), PySlice(y, k, stop))
  }

  function Min(a: int, b: int): int
  {
    if a < b then a else b
  }

  /** The region starts at the anchor, holds every remaining sample when n is 0
      and min(n, len(y) - anchor) samples otherwise, so it is never empty; with
      x as long as y the x part covers the same positions. */
  lemma ExponentialPartShape(x: seq<real>, y: seq<real>, n: nat, a: Anchor)
    requires |y| > 0
    ensures var k, p := AnchorIndex(y, a), ExponentialPart(x, y, n, a);
            && (n == 0 ==> p.y == y[k..])
            && (n > 0 ==> |p.y| == Min(n, |y| - k) && p.y == y[k..k + |p.y|])
            && |p.y| > 0
            && (|x| == |y| ==> p.x == x[k..k + |p.y|])
  {
    var k := AnchorIndex(y, a);
    if n == 0 {
      assert y[k..|y|] == y[k..];
    }
  }

  /** The region's first sample is the extremum of the whole of y. */
  lemma ExponentialPartStartsAtExtremum(x: seq<real>, y: seq<real>, n: nat, a: Anchor)
    requires |y| > 0
    ensures var p := ExponentialPart(x, y, n, a);
            && |p.y| > 0
            && (a == AtMin ==> p.y[0] == MinOf(y))
            && (a == AtMax ==> p.y[0] == MaxOf(y))
  {
    ExponentialPartShape(x, y, n, a);
    var k := AnchorIndex(y, a);
    assert ExponentialPart(x, y, n, a).y[0] == y[k];
  }

  /** p0 = [np.amin(yExpPart), 200, 0] (np.amax for the AtMax variant). */
  function InitialGuess(part: seq<real>, a: Anchor): (g: Guess)
    requires |part| > 0
    ensures g.tau == 200.0 && g.offset == 0.0
    ensures a == AtMin ==> g.amplitude in part && forall i :: 0 <= i < |part| ==> g.amplitude <= part[i]
    ensures a == AtMax ==> g.amplitude in part && forall i :: 0 <= i < |part| ==> part[i] <= g.amplitude
  {
    Guess(if a == AtMin then MinOf(part) else MaxOf(part), 200.0, 0.0)
  }

  /** The initial amplitude is the first sample of the region, which is the
      extremum of the whole of y. */
  lemma InitialGuessIsAnchorSample(x: seq<real>, y: seq<real>, n: nat, a: Anchor)
    requires |y| > 0
    ensures var p := ExponentialPart(x, y, n, a);
            |p.y| > 0 && InitialGuess(p.y, a).amplitude == p.y[0] == y[AnchorIndex(y, a)]
  {
    ExponentialPartShape(x, y, n, a);
    var k := AnchorIndex(y, a);
    var part := ExponentialPart(x, y, n, a).y;
    assert part == y[k..k + |part|];
    assert part[0] == y[k];
    if a == AtMin {
      assert forall j :: 0 <= j < |part| ==> part[0] <= part[j];
    } else {
      assert forall j :: 0 <= j < |part| ==> part[j] <= part[0];
    }
  }

  /** exponentialFitGetTau(x, y, showPlot, nbPointsForFit): fit the region from
      the initial guess and return the fitted time constant b. */
  function FitGetTau(fit: Fitter, x: seq<real>, y: seq<real>, n: nat, a: Anchor): (tau: Option<real>)
    requires |y| > 0
  {
    var p := ExponentialPart(x, y, n, a);
    ExponentialPartShape(x, y, n, a);
    fit(p.x, p.y, InitialGuess(p.y, a))
  }

  /** np.linspace(1, n, n): the sample numbers 1.0, 2.0, …, n. */
  function LinSpace(n: nat): (xs: seq<real>)
    ensures |xs| == n
    ensures forall i :: 0 <= i < n ==> xs[i] == (i + 1) as real
  {
    seq(n, i requires 0 <= i < n => (i + 1) as real)
  }

  /** The fit result of every row, with x = 1 … len(row). */
  function RowFits(fit: Fitter, rows: seq<seq<real>>, n: nat, a: Anchor): (f: seq<Option<real>>)
    requires forall k :: 0 <= k < |rows| ==> |rows[k]| > 0
    ensures |f| == |rows|
    ensures forall k :: 0 <= k < |rows| ==> f[k] == FitGetTau(fit, LinSpace(|rows[k]|), rows[k], n, a)
  {
    seq(|rows|, k requires 0 <= k < |rows| => FitGetTau(fit, LinSpace(|rows[k]|), rows[k], n, a))
  }

  /** Every fitted tau divided by the sampling rate, once every fit
      succeeded; None as soon as one fails. */
  function Collect(fits: seq<Option<real>>, rate: nat): (t: Option<seq<real>>)
    requires rate > 0
    ensures t.Some? <==> forall k :: 0 <= k < |fits| ==> fits[k].Some?
    ensures t.Some? ==> |t.value| == |fits|
    ensures t.Some? ==> forall k :: 0 <= k < |fits| ==> t.value[k] == fits[k].value / rate as real
  {
    if |fits| == 0 then Some([])
    else
      var last := |fits| - 1;
      var front := Collect(fits[..last], rate);
      assert forall k :: 0 <= k < last ==> fits[..last][k] == fits[k];
      if front.None? || fits[last].None? then None
      else Some(front.value + [fits[last].value / rate as real])
  }

  /** The deactivation-tau loop of the scripts:
        for data_row in rows:
          x = np.linspace(1, len(y), len(y)); tau = exponentialFitGetTau(x, y, 1, n)
          deactivation_tau.append(tau / sampling_rate)
      One tau per row, in ms; a fit that raises ends the script (None). */
  method DeactivationTaus(fit: Fitter, rows: seq<seq<real>>, n: nat, a: Anchor, rate: nat)
    returns (taus: Option<seq<real>>)
    requires rate > 0
    requires forall k :: 0 <= k < |rows| ==> |rows[k]| > 0
    ensures taus == Collect(RowFits(fit, rows, n, a), rate)
  {
    ghost var fits := RowFits(fit, rows, n, a);
    var acc: seq<real> := [];
    for k := 0 to |rows|
      invariant Collect(fits[..k], rate) == Some(acc)
    {
      assert fits[..k + 1][..k] == fits[..k];
      var y := rows[k];
      var x := LinSpace(|y|);
      var tau := FitGetTau(fit, x, y, n, a);
      assert tau == fits[k];
      if tau.None? {
        return None;
      }
      acc := acc + [tau.value / rate as real];
    }
    assert fits[..|rows|] == fits;
    taus := Some(acc);
  }
}
