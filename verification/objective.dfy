/** The objective (`optimization(params, ...)`) the global optimizer
    minimises for one cathode/anode pair, in its three variants:

    - `Unstretched`: the four trim fractions `(e%, f%, g%, h%)` only;
    - `AxisStretch`: two more factors `a, c` that scale each half cell's x
      samples, the curve values staying those at the unscaled samples;
    - `PointStretch`: the x samples stay, and each curve is evaluated at
      the scaled points `a * x`, `c * x`.

    Each half cell is cut to its window, re-interpolated, and sampled on
    1001 points spread evenly over the window; the cathode minus the anode
    is the calculated battery OCV, scored against the measured one by
    weighted RMSD terms. Cubic interpolation, `1 / np.gradient` and `sqrt`
    are foreign numerics and stay uninterpreted. */
module Objective {
  import opened Numbers
  import opened Outcomes
  import opened Windows
  import opened HalfCells

  /** Every resampled curve has this many points. */
  const GridPoints: nat := 1001

  /** The floating-point routines the objective calls, as opaque values:
      `spline(xs, ys, t)` is the cubic `interp1d(xs, ys, fill_value='extrapolate')`
      at `t` (also the interpolant the loaders store with a curve);
      `invGradient(x, y, i)` is entry `i` of `1 / np.gradient(y, x)`;
      `sqrt` is `np.sqrt`. */
  datatype Numerics = Numerics(
    spline: (seq<real>, seq<real>, real) -> real,
    invGradient: (seq<real>, seq<real>, nat) -> real,
    sqrt: real -> real)

  datatype Variant = Unstretched | AxisStretch | PointStretch

  /** The trim fractions `e%, f%` (anode) and `g%, h%` (cathode). */
  datatype Trims = Trims(ePct: real, fPct: real, gPct: real, hPct: real)

  /** A point of the search space: `(e%, f%, g%, h%)` or `(a, c, e%, f%, g%, h%)`. */
  datatype Params =
    | Plain(trims: Trims)
    | Stretched(a: real, c: real, trims: Trims)

  /** The optimizer's box: `[0, 1]` for every trim fraction and `[0, 2]`
      for each stretch factor, with the parameter shape the variant takes. */
  predicate InBox(v: Variant, p: Params) {
    && (v.Unstretched? <==> p.Plain?)
    && IsFraction(p.trims.ePct) && IsFraction(p.trims.fPct)
    && IsFraction(p.trims.gPct) && IsFraction(p.trims.hPct)
    && (p.Stretched? ==> 0.0 <= p.a <= 2.0 && 0.0 <= p.c <= 2.0)
  }

  /** The anode's stretch factor; the four-parameter objective has none. */
  function AnodeStretch(p: Params): real {
    if p.Stretched? then p.a else 1.0
  }

  /** The cathode's stretch factor; the four-parameter objective has none. */
  function CathodeStretch(p: Params): real {
    if p.Stretched? then p.c else 1.0
  }

  /** The weights `battery`, `anode`, `cathode`, `derivative_inverse`; the
      four-parameter objective reads only the first and the last. */
  datatype Weights = Weights(battery: real, anode: real, cathode: real, derivativeInverse: real)

  /** A curve's interpolant evaluated at every point of `ts`. */
  function Eval(num: Numerics, c: Curve, ts: seq<real>): (r: seq<real>)
    ensures |r| == |ts|
    ensures forall i :: 0 <= i < |ts| ==> r[i] == num.spline(c.xs, c.ys, ts[i])
  {
    seq(|ts|, i requires 0 <= i < |ts| => num.spline(c.xs, c.ys, ts[i]))
  }

  /** `(x[lo:hi], interp(x)[lo:hi])`: the unstretched window. */
  function PlainWindow(num: Numerics, c: Curve, b: Bounds): (s: Curve)
    requires 0 <= b.lo <= b.hi <= |c.xs|
    ensures |s.xs| == b.hi - b.lo && |s.ys| == b.hi - b.lo
    ensures forall i :: 0 <= i < b.hi - b.lo ==>
      s.xs[i] == c.xs[b.lo + i] && s.ys[i] == num.spline(c.xs, c.ys, c.xs[b.lo + i])
  {
    var values := Eval(num, c, c.xs);
    Curve(c.xs[b.lo..b.hi], values[b.lo..b.hi])
  }

  /** `((k * x)[lo:hi], interp(x)[lo:hi])`: the x axis stretched by `k`,
      the values those at the unscaled samples. */
  function AxisWindow(num: Numerics, k: real, c: Curve, b: Bounds): (s: Curve)
    requires 0 <= b.lo <= b.hi <= |c.xs|
    ensures |s.xs| == b.hi - b.lo && |s.ys| == b.hi - b.lo
    ensures forall i :: 0 <= i < b.hi - b.lo ==>
      s.xs[i] == k * c.xs[b.lo + i] && s.ys[i] == num.spline(c.xs, c.ys, c.xs[b.lo + i])
  {
    var values := Eval(num, c, c.xs);
    Curve(Scale(k, c.xs)[b.lo..b.hi], values[b.lo..b.hi])
  }

  /** `(x[lo:hi], interp(k * x[lo:hi]))`: the x samples kept, the curve
      evaluated at the points stretched by `k`. */
  function PointWindow(num: Numerics, k: real, c: Curve, b: Bounds): (s: Curve)
    requires 0 <= b.lo <= b.hi <= |c.xs|
    ensures |s.xs| == b.hi - b.lo && |s.ys| == b.hi - b.lo
    ensures forall i :: 0 <= i < b.hi - b.lo ==>
      s.xs[i] == c.xs[b.lo + i] && s.ys[i] == num.spline(c.xs, c.ys, k * c.xs[b.lo + i])
  {
    var xs := c.xs[b.lo..b.hi];
    var points := Scale(k, xs);
    assert forall i :: 0 <= i < |xs| ==> points[i] == k * c.xs[b.lo + i];
    Curve(xs, Eval(num, c, points))
  }

  /** The samples a half cell contributes inside the window `b` with
      stretch factor `k`, by the variant's convention. */
  function Window(num: Numerics, v: Variant, k: real, c: Curve, b: Bounds): (s: Curve)
    requires 0 <= b.lo <= b.hi <= |c.xs|
    ensures |s.xs| == b.hi - b.lo && |s.ys| == b.hi - b.lo
  {
    match v
    case Unstretched => PlainWindow(num, c, b)
    case AxisStretch => AxisWindow(num, k, c, b)
    case PointStretch => PointWindow(num, k, c, b)
  }

  /** A stretch factor of 1 turns either stretch convention into the
      unstretched window. */
  lemma UnitStretch(num: Numerics, c: Curve, b: Bounds)
    requires 0 <= b.lo <= b.hi <= |c.xs|
    ensures Window(num, AxisStretch, 1.0, c, b) == Window(num, Unstretched, 1.0, c, b)
    ensures Window(num, PointStretch, 1.0, c, b) == Window(num, Unstretched, 1.0, c, b)
  {
    var u := PlainWindow(num, c, b);
    var s := AxisWindow(num, 1.0, c, b);
    var t := PointWindow(num, 1.0, c, b);
    assert s.xs == u.xs && s.ys == u.ys;
    assert t.xs == u.xs;
    forall i | 0 <= i < |u.ys|
      ensures t.ys[i] == u.ys[i]
    {
      assert 1.0 * c.xs[b.lo + i] == c.xs[b.lo + i];
    }
  }

  /** The anode's window `[e:f)`, as the objective cuts it (clamped). */
  function AnodeWindow(num: Numerics, v: Variant, p: Params, anode: Curve): (s: Curve)
    requires InBox(v, p)
    ensures |s.xs| == |s.ys|
    ensures |s.xs| > 0 <==> |anode.xs| > 0
  {
    var n := |anode.xs|;
    var b := ObjectiveBounds(p.trims.ePct, p.trims.fPct, n, AnodeTrim);
    StartInRange(p.trims.ePct, n, AnodeTrim);
    EndInRange(p.trims.fPct, n, AnodeTrim);
    if n == 0 then
      Window(num, v, AnodeStretch(p), anode, b)
    else
      AnodeWindowValid(p.trims.ePct, p.trims.fPct, n);
      Window(num, v, AnodeStretch(p), anode, b)
  }

  /** The cathode's window `[g:h)`, as the objective cuts it (clamped). */
  function CathodeWindow(num: Numerics, v: Variant, p: Params, cathode: Curve): (s: Curve)
    requires InBox(v, p)
    ensures |s.xs| == |s.ys|
    ensures |s.xs| > 0 <==> |cathode.xs| > 0
  {
    var n := |cathode.xs|;
    var b := ObjectiveBounds(p.trims.gPct, p.trims.hPct, n, CathodeTrim);
    StartInRange(p.trims.gPct, n, CathodeTrim);
    EndInRange(p.trims.hPct, n, CathodeTrim);
    if n == 0 then
      Window(num, v, CathodeStretch(p), cathode, b)
    else
      CathodeWindowValid(p.trims.gPct, p.trims.hPct, n);
      Window(num, v, CathodeStretch(p), cathode, b)
  }

  /** `np.linspace(s[0], s[-1], 1001)`: the resampling grid over a window. */
  function Grid(s: Curve): (g: seq<real>)
    requires |s.xs| > 0
    ensures |g| == GridPoints
    ensures g[0] == s.xs[0] && g[GridPoints - 1] == s.xs[|s.xs| - 1]
  {
    Linspace(s.xs[0], s.xs[|s.xs| - 1], GridPoints)
  }

  /** `w(x_a)`: the window's own interpolant on its grid. */
  function OnGrid(num: Numerics, s: Curve): (r: seq<real>)
    requires |s.xs| > 0
    ensures |r| == GridPoints
  {
    Eval(num, s, Grid(s))
  }

  /** The grid over a non-empty window whose end samples are `lo` and `hi`. */
  lemma GridBetween(s: Curve, lo: real, hi: real)
    requires |s.xs| > 0 && s.xs[0] == lo && s.xs[|s.xs| - 1] == hi
    ensures Grid(s) == Linspace(lo, hi, GridPoints)
  {
  }

  /** The grid over a non-empty window runs between the window's end
      samples: scaled by `k` under the axis stretch, unscaled otherwise. */
  lemma WindowGrid(num: Numerics, v: Variant, k: real, c: Curve, b: Bounds)
    requires b.ValidIn(|c.xs|)
    ensures v.AxisStretch? ==>
      Grid(Window(num, v, k, c, b)) == Scale(k, Linspace(c.xs[b.lo], c.xs[b.hi - 1], GridPoints))
    ensures !v.AxisStretch? ==>
      Grid(Window(num, v, k, c, b)) == Linspace(c.xs[b.lo], c.xs[b.hi - 1], GridPoints)
  {
    var m := b.hi - b.lo;
    var lo, hi := c.xs[b.lo], c.xs[b.hi - 1];
    match v
    case AxisStretch =>
      var s := AxisWindow(num, k, c, b);
      assert s.xs[0] == k * lo && s.xs[m - 1] == k * hi;
      GridBetween(s, k * lo, k * hi);
      LinspaceScale(k, lo, hi, GridPoints);
    case Unstretched =>
      var s := PlainWindow(num, c, b);
      assert s.xs[0] == lo && s.xs[m - 1] == hi;
      GridBetween(s, lo, hi);
    case PointStretch =>
      var s := PointWindow(num, k, c, b);
      assert s.xs[0] == lo && s.xs[m - 1] == hi;
      GridBetween(s, lo, hi);
  }

  /** The axis stretch scales the anode's grid by `a`; the other variants
      keep it on the unscaled window ends `x[e] .. x[f-1]`. */
  lemma AnodeGridEnds(num: Numerics, v: Variant, p: Params, anode: Curve)
    requires InBox(v, p) && |anode.xs| > 0
    ensures
      var n := |anode.xs|;
      var b := ObjectiveBounds(p.trims.ePct, p.trims.fPct, n, AnodeTrim);
      && b.ValidIn(n)
      && (v.AxisStretch? ==>
            Grid(AnodeWindow(num, v, p, anode)) == Scale(p.a, Linspace(anode.xs[b.lo], anode.xs[b.hi - 1], GridPoints)))
      && (!v.AxisStretch? ==>
            Grid(AnodeWindow(num, v, p, anode)) == Linspace(anode.xs[b.lo], anode.xs[b.hi - 1], GridPoints))
  {
    var n := |anode.xs|;
    var b := ObjectiveBounds(p.trims.ePct, p.trims.fPct, n, AnodeTrim);
    AnodeWindowValid(p.trims.ePct, p.trims.fPct, n);
    assert AnodeWindow(num, v, p, anode) == Window(num, v, AnodeStretch(p), anode, b);
    WindowGrid(num, v, AnodeStretch(p), anode, b);
  }

  /** The axis stretch scales the cathode's grid by `c`; the other variants
      keep it on the unscaled window ends `x[g] .. x[h-1]`. */
  lemma CathodeGridEnds(num: Numerics, v: Variant, p: Params, cathode: Curve)
    requires InBox(v, p) && |cathode.xs| > 0
    ensures
      var n := |cathode.xs|;
      var b := ObjectiveBounds(p.trims.gPct, p.trims.hPct, n, CathodeTrim);
      && b.ValidIn(n)
      && (v.AxisStretch? ==>
            Grid(CathodeWindow(num, v, p, cathode)) == Scale(p.c, Linspace(cathode.xs[b.lo], cathode.xs[b.hi - 1], GridPoints)))
      && (!v.AxisStretch? ==>
            Grid(CathodeWindow(num, v, p, cathode)) == Linspace(cathode.xs[b.lo], cathode.xs[b.hi - 1], GridPoints))
  {
    var n := |cathode.xs|;
    var b := ObjectiveBounds(p.trims.gPct, p.trims.hPct, n, CathodeTrim);
    CathodeWindowValid(p.trims.gPct, p.trims.hPct, n);
    assert CathodeWindow(num, v, p, cathode) == Window(num, v, CathodeStretch(p), cathode, b);
    WindowGrid(num, v, CathodeStretch(p), cathode, b);
  }

  /** `calculated_battery_OCV = r(x_c) - w(x_a)`. */
  function Calculated(num: Numerics, v: Variant, p: Params, anode: Curve, cathode: Curve): (r: seq<real>)
    requires InBox(v, p) && |anode.xs| > 0 && |cathode.xs| > 0
    ensures |r| == GridPoints
  {
    Sub(OnGrid(num, CathodeWindow(num, v, p, cathode)), OnGrid(num, AnodeWindow(num, v, p, anode)))
  }

  /** `np.sqrt(np.mean(u ** 2))`. */
  function Rmsd(num: Numerics, u: seq<real>): real
    requires |u| > 0
  {
    num.sqrt(MeanSq(u))
  }

  /** `1 / np.gradient(y, x)`. */
  function InvDerivative(num: Numerics, x: seq<real>, y: seq<real>): (r: seq<real>)
    ensures |r| == |y|
  {
    seq(|y|, i requires 0 <= i < |y| => num.invGradient(x, y, i))
  }

  /** The RMSD between the inverse derivatives of the calculated and the
      measured OCV, both taken against the measured SOC. */
  function DerivativeTerm(num: Numerics, soc: seq<real>, ocv: seq<real>, calculated: seq<real>): real
    requires |ocv| == |calculated| > 0
  {
    Rmsd(num, Sub(InvDerivative(num, soc, calculated), InvDerivative(num, soc, ocv)))
  }

  /** The weighted score of a calculated OCV `rxc - wxa` against `ocv`.
      The six-parameter objectives add two half-cell terms: the anode
      residual `(r(x_c) - OCV) - w(x_a)` and the cathode residual
      `(w(x_a) + OCV) - r(x_c)`. */
  function Score(num: Numerics, v: Variant, w: Weights, soc: seq<real>, ocv: seq<real>,
                 rxc: seq<real>, wxa: seq<real>): real
    requires |ocv| == |rxc| == |wxa| == GridPoints
  {
    var calculated := Sub(rxc, wxa);
    var batteryTerm := w.battery * Rmsd(num, Sub(calculated, ocv));
    var derivativeTerm := w.derivativeInverse * DerivativeTerm(num, soc, ocv, calculated);
    if v.Unstretched? then batteryTerm + derivativeTerm
    else
      batteryTerm
      + w.anode * Rmsd(num, Sub(Sub(rxc, ocv), wxa))
      + w.cathode * Rmsd(num, Sub(Add(wxa, ocv), rxc))
      + derivativeTerm
  }

  /** The objective's value for in-box parameters, or the exception it
      raises: an empty half-cell curve leaves `interp1d` an empty window, and
      measured arrays of other than 1001 points cannot be differentiated
      along, nor subtracted from, the calculated curve. */
  function Evaluate(num: Numerics, v: Variant, p: Params, anode: Curve, cathode: Curve,
                    soc: seq<real>, ocv: seq<real>, w: Weights): (r: Result<real>)
    requires InBox(v, p)
    ensures r.Ok? <==> |anode.xs| > 0 && |cathode.xs| > 0 && |soc| == GridPoints && |ocv| == GridPoints
    ensures (|anode.xs| == 0 || |cathode.xs| == 0) ==> r == Err(EmptyCurve)
    ensures |anode.xs| > 0 && |cathode.xs| > 0 && r.Err? ==> r == Err(ShapeMismatch)
  {
    var aw := AnodeWindow(num, v, p, anode);
    var cw := CathodeWindow(num, v, p, cathode);
    if |aw.xs| == 0 || |cw.xs| == 0 then Err(EmptyCurve)
    else if |soc| != GridPoints || |ocv| != GridPoints then Err(ShapeMismatch)
    else Ok(Score(num, v, w, soc, ocv, OnGrid(num, cw), OnGrid(num, aw)))
  }

  /** The i-th of the 1001 evenly spaced points from a window's first
      sample to its last, as `np.linspace` places it. */
  function GridPoint(s: Curve, i: nat): real
    requires |s.xs| > 0
  {
    s.xs[0] + (i as real) * ((s.xs[|s.xs| - 1] - s.xs[0]) / 1000.0)
  }

  /** The i-th calculated OCV point: the cathode window's interpolant at the
      cathode window's i-th grid point, minus the anode window's at the
      anode window's i-th grid point. */
  lemma CalculatedAt(num: Numerics, v: Variant, p: Params, anode: Curve, cathode: Curve, i: nat)
    requires InBox(v, p) && |anode.xs| > 0 && |cathode.xs| > 0 && i < GridPoints
    ensures
      var cw, aw := CathodeWindow(num, v, p, cathode), AnodeWindow(num, v, p, anode);
      Calculated(num, v, p, anode, cathode)[i] ==
        num.spline(cw.xs, cw.ys, GridPoint(cw, i)) - num.spline(aw.xs, aw.ys, GridPoint(aw, i))
  {
    var cw, aw := CathodeWindow(num, v, p, cathode), AnodeWindow(num, v, p, anode);
    assert Calculated(num, v, p, anode, cathode) == Sub(OnGrid(num, cw), OnGrid(num, aw));
    GridDifferenceAt(num, cw, aw, i);
  }

  /** Pointwise form of `r(x_c) - w(x_a)` for any two non-empty windows. */
  lemma GridDifferenceAt(num: Numerics, cw: Curve, aw: Curve, i: nat)
    requires |cw.xs| > 0 && |aw.xs| > 0 && i < GridPoints
    ensures Sub(OnGrid(num, cw), OnGrid(num, aw))[i] ==
      num.spline(cw.xs, cw.ys, GridPoint(cw, i)) - num.spline(aw.xs, aw.ys, GridPoint(aw, i))
  {
    var gc, ga := Grid(cw), Grid(aw);
    LinspaceAt(cw.xs[0], cw.xs[|cw.xs| - 1], GridPoints, i);
    LinspaceAt(aw.xs[0], aw.xs[|aw.xs| - 1], GridPoints, i);
    assert ((GridPoints - 1) as real) == 1000.0;
    assert gc[i] == GridPoint(cw, i) && ga[i] == GridPoint(aw, i);
    assert OnGrid(num, cw)[i] == num.spline(cw.xs, cw.ys, gc[i]);
    assert OnGrid(num, aw)[i] == num.spline(aw.xs, aw.ys, ga[i]);
  }

  /** The total weight on the battery RMSD: `battery` in the four-parameter
      objective; `battery + anode + cathode` in the six-parameter ones,
      whose half-cell residuals are the battery residual up to sign. */
  function ResidualWeight(v: Variant, w: Weights): real {
    if v.Unstretched? then w.battery else w.battery + w.anode + w.cathode
  }

  /** The score as a function of the calculated OCV alone: the weighted
      RMSD against the measured OCV plus the weighted inverse-derivative
      term. */
  function ScoreOf(num: Numerics, v: Variant, w: Weights, soc: seq<real>, ocv: seq<real>,
                   calculated: seq<real>): real
    requires |ocv| == |calculated| == GridPoints
  {
    ResidualWeight(v, w) * Rmsd(num, Sub(calculated, ocv))
    + w.derivativeInverse * DerivativeTerm(num, soc, ocv, calculated)
  }

  /** A score depends on the two half-cell curves only through their
      difference, the calculated OCV. */
  lemma ScoreOfCalculated(num: Numerics, v: Variant, w: Weights, soc: seq<real>,
                          ocv: seq<real>, rxc: seq<real>, wxa: seq<real>)
    requires |ocv| == |rxc| == |wxa| == GridPoints
    ensures Score(num, v, w, soc, ocv, rxc, wxa) == ScoreOf(num, v, w, soc, ocv, Sub(rxc, wxa))
  {
    if !v.Unstretched? {
      StretchedScoreCollapses(num, v, w, soc, ocv, rxc, wxa);
    }
  }

  /** A successful evaluation is the score of the calculated OCV. */
  lemma EvaluateValue(num: Numerics, v: Variant, p: Params, anode: Curve, cathode: Curve,
                      soc: seq<real>, ocv: seq<real>, w: Weights)
    requires InBox(v, p) && |anode.xs| > 0 && |cathode.xs| > 0
    requires |soc| == GridPoints && |ocv| == GridPoints
    ensures Evaluate(num, v, p, anode, cathode, soc, ocv, w).Ok?
    ensures Evaluate(num, v, p, anode, cathode, soc, ocv, w).value ==
      ScoreOf(num, v, w, soc, ocv, Calculated(num, v, p, anode, cathode))
  {
    var rxc, wxa := EvaluateOnGrids(num, v, p, anode, cathode, soc, ocv, w);
    ScoreOfCalculated(num, v, w, soc, ocv, rxc, wxa);
  }

  /** Unfolds an evaluation into the score of the two windows on their grids. */
  lemma EvaluateOnGrids(num: Numerics, v: Variant, p: Params, anode: Curve, cathode: Curve,
                        soc: seq<real>, ocv: seq<real>, w: Weights)
    returns (rxc: seq<real>, wxa: seq<real>)
    requires InBox(v, p) && |anode.xs| > 0 && |cathode.xs| > 0
    requires |soc| == GridPoints && |ocv| == GridPoints
    ensures |rxc| == GridPoints && |wxa| == GridPoints
    ensures Calculated(num, v, p, anode, cathode) == Sub(rxc, wxa)
    ensures Evaluate(num, v, p, anode, cathode, soc, ocv, w) == Ok(Score(num, v, w, soc, ocv, rxc, wxa))
  {
    rxc := OnGrid(num, CathodeWindow(num, v, p, cathode));
    wxa := OnGrid(num, AnodeWindow(num, v, p, anode));
  }

  /** The anode residual is the battery residual, and the cathode residual
      its negation. */
  lemma ResidualsCoincide(rxc: seq<real>, wxa: seq<real>, ocv: seq<real>)
    requires |rxc| == |wxa| == |ocv|
    ensures Sub(Sub(rxc, ocv), wxa) == Sub(Sub(rxc, wxa), ocv)
    ensures Sub(Add(wxa, ocv), rxc) == Neg(Sub(Sub(rxc, wxa), ocv))
  {
  }

  /** Hence the three RMSD terms of a six-parameter objective coincide: its
      score is `(battery + anode + cathode)` times the battery RMSD, plus
      the derivative term. */
  lemma StretchedScoreCollapses(num: Numerics, v: Variant, w: Weights, soc: seq<real>,
                                ocv: seq<real>, rxc: seq<real>, wxa: seq<real>)
    requires |ocv| == |rxc| == |wxa| == GridPoints && !v.Unstretched?
    ensures
      var calculated := Sub(rxc, wxa);
      Score(num, v, w, soc, ocv, rxc, wxa) ==
        (w.battery + w.anode + w.cathode) * Rmsd(num, Sub(calculated, ocv))
        + w.derivativeInverse * DerivativeTerm(num, soc, ocv, calculated)
  {
    var residual := Sub(Sub(rxc, wxa), ocv);
    ResidualsCoincide(rxc, wxa, ocv);
    MeanSqNeg(residual);
  }

  /** Without half-cell weights, the six-parameter score is the
      four-parameter score. */
  lemma VariantsAgree(num: Numerics, v: Variant, w: Weights, soc: seq<real>,
                      ocv: seq<real>, rxc: seq<real>, wxa: seq<real>)
    requires |ocv| == |rxc| == |wxa| == GridPoints
    requires w.anode == 0.0 && w.cathode == 0.0
    ensures Score(num, v, w, soc, ocv, rxc, wxa) == Score(num, Unstretched, w, soc, ocv, rxc, wxa)
  {
  }

  /** With `derivative_inverse = 0` the score does not depend on the
      inverse-derivative routine at all. */
  lemma DerivativeUnweighted(num: Numerics, g: (seq<real>, seq<real>, nat) -> real, v: Variant,
                             w: Weights, soc: seq<real>, ocv: seq<real>, rxc: seq<real>, wxa: seq<real>)
    requires |ocv| == |rxc| == |wxa| == GridPoints && w.derivativeInverse == 0.0
    ensures Score(num, v, w, soc, ocv, rxc, wxa) == Score(num.(invGradient := g), v, w, soc, ocv, rxc, wxa)
  {
  }

  /** With weights `(1, 0, 0, 0)` the objective is the RMSD between the
      calculated and the measured battery OCV, in every variant. */
  lemma BatteryOnly(num: Numerics, v: Variant, p: Params, anode: Curve, cathode: Curve,
                    soc: seq<real>, ocv: seq<real>)
    requires InBox(v, p) && |anode.xs| > 0 && |cathode.xs| > 0
    requires |soc| == GridPoints && |ocv| == GridPoints
    ensures Evaluate(num, v, p, anode, cathode, soc, ocv, Weights(1.0, 0.0, 0.0, 0.0)) ==
      Ok(Rmsd(num, Sub(Calculated(num, v, p, anode, cathode), ocv)))
  {
  }

  /** With `derivative_inverse = 0` the four-parameter score is the
      weighted battery RMSD alone. */
  lemma UnstretchedScoreWithoutDerivative(num: Numerics, w: Weights, soc: seq<real>, ocv: seq<real>,
                                          rxc: seq<real>, wxa: seq<real>)
    requires |ocv| == |rxc| == |wxa| == GridPoints && w.derivativeInverse == 0.0
    ensures Score(num, Unstretched, w, soc, ocv, rxc, wxa) == w.battery * Rmsd(num, Sub(Sub(rxc, wxa), ocv))
  {
  }

  /** With `derivative_inverse = 0`, the objective of the four-parameter
      variant is `battery * sqrt(mean((calculated - OCV) ** 2))`, whatever the
      inverse-derivative routine does. */
  lemma UnstretchedWithoutDerivative(num: Numerics, p: Params, anode: Curve, cathode: Curve,
                                     soc: seq<real>, ocv: seq<real>, w: Weights)
    requires InBox(Unstretched, p) && |anode.xs| > 0 && |cathode.xs| > 0
    requires |soc| == GridPoints && |ocv| == GridPoints && w.derivativeInverse == 0.0
    ensures Evaluate(num, Unstretched, p, anode, cathode, soc, ocv, w).Ok?
    ensures Evaluate(num, Unstretched, p, anode, cathode, soc, ocv, w).value ==
      w.battery * Rmsd(num, Sub(Calculated(num, Unstretched, p, anode, cathode), ocv))
  {
    EvaluateValue(num, Unstretched, p, anode, cathode, soc, ocv, w);
  }
}
