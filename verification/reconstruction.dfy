/** What the engine rebuilds for the winning cathode/anode pair once the
    search is over: the integer window bounds it reports, the calculated
    battery OCV, and for each half cell the window grid with the window's
    curve on it. The four-parameter and the axis-stretch engines also
    resample the whole half-cell curve (`x_c1_ns`, over the full x range
    with `1001 + g + (1001 - h)` points) and put both grids on a
    normalised SOC axis: the window grid minus its minimum, divided by its
    spread. The point-stretch engine plots the window curves against the
    measured SOC and builds neither. */
module Reconstruction {
  import opened Numbers
  import opened Outcomes
  import opened Windows
  import opened HalfCells
  import opened Objective

  /** `best_parameters`: the window bounds `e, f, g, h` recomputed from the
      winning fractions, preceded by the stretch factors `a, c` in the
      six-parameter engines. */
  datatype BestParameters =
    | Four(e: int, f: int, g: int, h: int)
    | Six(a: real, c: real, e: int, f: int, g: int, h: int)

  /** The normalised axes of one half cell: `c_SOC`, the full-curve grid
      `x_c1_ns`, `c_SOC_full` and the full curve on its grid `r1_ns(x_c1_ns)`. */
  datatype Axes = Axes(soc: seq<real>, fullGrid: seq<real>, socFull: seq<real>, ocpFull: seq<real>)

  /** One half cell after the search: the window grid `x_c1`, the window's
      curve on it `r1(x_c1)`, and the normalised axes where the engine
      builds them. */
  datatype Side = Side(grid: seq<real>, ocp: seq<real>, axes: Option<Axes>)

  /** Everything the engine reports or plots about the winning pair. */
  datatype Curves = Curves(parameters: BestParameters, calculated: seq<real>, cathode: Side, anode: Side)

  /** The anode bounds `(e_opt, f_opt)` as recomputed after the search. */
  function AnodeBounds(p: Params, anode: Curve): Bounds {
    ReportedBounds(p.trims.ePct, p.trims.fPct, |anode.xs|, AnodeTrim)
  }

  /** The cathode bounds `(g_opt, h_opt)` as recomputed after the search. */
  function CathodeBounds(p: Params, cathode: Curve): Bounds {
    ReportedBounds(p.trims.gPct, p.trims.hPct, |cathode.xs|, CathodeTrim)
  }

  function BestParametersOf(p: Params, anode: Curve, cathode: Curve): BestParameters {
    var ab := AnodeBounds(p, anode);
    var cb := CathodeBounds(p, cathode);
    match p
    case Plain(_) => Four(ab.lo, ab.hi, cb.lo, cb.hi)
    case Stretched(a, c, _) => Six(a, c, ab.lo, ab.hi, cb.lo, cb.hi)
  }

  /** The bounds reported after the search are the windows the objective
      scored, although they are recomputed without its clamp; for curves
      with samples they are non-empty slices of the samples. The reported
      tuple has the shape of the search point, stretch factors first. */
  lemma ReportedBoundsAreScored(v: Variant, p: Params, anode: Curve, cathode: Curve)
    requires InBox(v, p)
    ensures AnodeBounds(p, anode) == ObjectiveBounds(p.trims.ePct, p.trims.fPct, |anode.xs|, AnodeTrim)
    ensures CathodeBounds(p, cathode) == ObjectiveBounds(p.trims.gPct, p.trims.hPct, |cathode.xs|, CathodeTrim)
    ensures |anode.xs| > 0 ==> AnodeBounds(p, anode).ValidIn(|anode.xs|)
    ensures |cathode.xs| > 0 ==> CathodeBounds(p, cathode).ValidIn(|cathode.xs|)
    ensures |anode.xs| == 0 ==> AnodeBounds(p, anode) == Bounds(0, 0)
    ensures |cathode.xs| == 0 ==> CathodeBounds(p, cathode) == Bounds(0, 0)
    ensures var r := BestParametersOf(p, anode, cathode);
      && (r.Four? <==> v.Unstretched?)
      && (r.Six? ==> r.a == p.a && r.c == p.c)
      && r.e == AnodeBounds(p, anode).lo && r.f == AnodeBounds(p, anode).hi
      && r.g == CathodeBounds(p, cathode).lo && r.h == CathodeBounds(p, cathode).hi
  {
    ClampIsIdle(p.trims.ePct, p.trims.fPct, |anode.xs|, AnodeTrim);
    ClampIsIdle(p.trims.gPct, p.trims.hPct, |cathode.xs|, CathodeTrim);
    StartInRange(p.trims.ePct, |anode.xs|, AnodeTrim);
    StartInRange(p.trims.gPct, |cathode.xs|, CathodeTrim);
    EndInRange(p.trims.fPct, |anode.xs|, AnodeTrim);
    EndInRange(p.trims.hPct, |cathode.xs|, CathodeTrim);
    if |anode.xs| > 0 {
      AnodeWindowValid(p.trims.ePct, p.trims.fPct, |anode.xs|);
    }
    if |cathode.xs| > 0 {
      CathodeWindowValid(p.trims.gPct, p.trims.hPct, |cathode.xs|);
    }
  }

  /** `1001 + lo + (1001 - hi)`: the sample count of the full-curve grid. */
  function FullCount(b: Bounds): int {
    GridPoints + b.lo + (GridPoints - b.hi)
  }

  /** The full-curve sample count of an in-box window is never negative for
      curves of at most 2002 samples; with nothing trimmed it is negative
      exactly for longer curves. */
  lemma FullCountSign(pStart: real, pEnd: real, n: nat, trim: real)
    requires IsFraction(pStart) && IsFraction(pEnd) && 0.0 <= trim
    ensures n <= 2 * GridPoints ==> FullCount(ReportedBounds(pStart, pEnd, n, trim)) >= 0
    ensures pStart == 0.0 && pEnd == 0.0 ==>
      (FullCount(ReportedBounds(pStart, pEnd, n, trim)) < 0 <==> n > 2 * GridPoints)
  {
    StartInRange(pStart, n, trim);
    EndInRange(pEnd, n, trim);
  }

  /** `axv_opt`: the half cell's x samples, stretched by `k` under the axis
      stretch. */
  function FullAxis(v: Variant, k: real, c: Curve): (r: seq<real>) {
    if v.AxisStretch? then Scale(k, c.xs) else c.xs
  }

  /** `w1_ns`: the whole half-cell curve, the stored interpolant's values at
      the unscaled samples placed on the (possibly stretched) axis. */
  function FullCurve(num: Numerics, v: Variant, k: real, c: Curve): Curve {
    Curve(FullAxis(v, k, c), Eval(num, c, c.xs))
  }

  /** `(s - origin) / width`: the engine takes the window grid's minimum
      as the origin and its spread `max(grid - min(grid))` as the width. */
  function Normalized(s: seq<real>, origin: real, width: real): seq<real>
    requires width != 0.0
  {
    Divide(Shift(s, origin), width)
  }

  /** A window whose first and last x sample coincide. */
  predicate Flat(w: Curve)
    requires |w.xs| > 0
  {
    w.xs[0] == w.xs[|w.xs| - 1]
  }

  /** The window grid has no spread exactly when the window is flat. */
  lemma FlatSpan(w: Curve)
    requires |w.xs| > 0
    ensures Span(Grid(w)) == 0.0 <==> Flat(w)
  {
    LinspaceSpan(w.xs[0], w.xs[|w.xs| - 1], GridPoints);
  }

  /** `min(x_c1)`: where the normalised SOC axis puts 0. */
  function Origin(w: Curve): real
    requires |w.xs| > 0
  {
    SeqMin(Grid(w))
  }

  /** `max(x_c1 - min(x_c1))`: the length the normalised SOC axis puts at 1. */
  function Width(w: Curve): real
    requires |w.xs| > 0
  {
    Span(Grid(w))
  }

  /** `x_c1_ns`: `count` samples spread evenly over the whole (stretched)
      x range of the half cell. */
  function FullGrid(v: Variant, k: real, c: Curve, count: nat): seq<real>
    requires |c.xs| > 0
  {
    var axis := FullAxis(v, k, c);
    Linspace(axis[0], axis[|axis| - 1], count)
  }

  /** The origin of a non-flat window's SOC axis is its lower end and the
      width the distance between its ends. */
  lemma OriginWidth(w: Curve)
    requires |w.xs| > 0 && !Flat(w)
    ensures var lo, hi := w.xs[0], w.xs[|w.xs| - 1];
      && Origin(w) == (if lo < hi then lo else hi)
      && Width(w) == (if lo < hi then hi - lo else lo - hi)
      && Width(w) != 0.0
  {
    var lo, hi := w.xs[0], w.xs[|w.xs| - 1];
    assert Grid(w) == Linspace(lo, hi, GridPoints);
    LinspaceExtremes(lo, hi, GridPoints);
    LinspaceSpan(lo, hi, GridPoints);
  }

  /** A side without normalised axes (point-stretch engine). */
  function Bare(num: Numerics, w: Curve): Side
    requires |w.xs| > 0
  {
    Side(Grid(w), OnGrid(num, w), None)
  }

  /** A side with its normalised axes: the window grid on `[0, 1]`, the
      full grid of `count` samples over the whole (stretched) x range, and
      the whole curve on that grid. */
  function WithAxes(num: Numerics, v: Variant, k: real, c: Curve, w: Curve, count: nat): Side
    requires |c.xs| > 0 && |w.xs| > 0 && Width(w) != 0.0
  {
    var full := FullGrid(v, k, c, count);
    Side(Grid(w), OnGrid(num, w),
      Some(Axes(Normalized(Grid(w), Origin(w), Width(w)), full, Normalized(full, Origin(w), Width(w)),
                Eval(num, FullCurve(num, v, k, c), full))))
  }

  /** When the reconstruction succeeds: both curves have samples, and for
      the engines that build normalised axes, both full-grid counts are
      non-negative and neither window is flat. */
  predicate Reconstructible(num: Numerics, v: Variant, p: Params, anode: Curve, cathode: Curve)
    requires InBox(v, p)
  {
    && |anode.xs| > 0 && |cathode.xs| > 0
    && (!v.PointStretch? ==>
          && FullCount(AnodeBounds(p, anode)) >= 0
          && FullCount(CathodeBounds(p, cathode)) >= 0
          && !Flat(AnodeWindow(num, v, p, anode))
          && !Flat(CathodeWindow(num, v, p, cathode)))
  }

  /** The reconstruction for the winning pair, failing as the engine does:
      an empty anode, then a negative anode full-grid count, then the same
      two checks on the cathode, then a flat window. */
  function Reconstruct(num: Numerics, v: Variant, p: Params, anode: Curve, cathode: Curve): (r: Result<Curves>)
    requires InBox(v, p)
    ensures r.Ok? <==> Reconstructible(num, v, p, anode, cathode)
    ensures |anode.xs| == 0 ==> r == Err(EmptyCurve)
    ensures |anode.xs| > 0 && !v.PointStretch? && FullCount(AnodeBounds(p, anode)) < 0 ==>
      r == Err(NegativeSampleCount)
    ensures r.Err? ==> r.error == EmptyCurve || r.error == NegativeSampleCount || r.error == ZeroSpan
    ensures r.Err? && r.error == ZeroSpan ==> !v.PointStretch? && |anode.xs| > 0 && |cathode.xs| > 0
    ensures r.Ok? ==>
      && r.value.parameters == BestParametersOf(p, anode, cathode)
      && r.value.calculated == Calculated(num, v, p, anode, cathode)
      && r.value.anode.grid == Grid(AnodeWindow(num, v, p, anode))
      && r.value.anode.ocp == OnGrid(num, AnodeWindow(num, v, p, anode))
      && r.value.cathode.grid == Grid(CathodeWindow(num, v, p, cathode))
      && r.value.cathode.ocp == OnGrid(num, CathodeWindow(num, v, p, cathode))
      && (r.value.anode.axes.Some? <==> !v.PointStretch?)
      && (r.value.cathode.axes.Some? <==> !v.PointStretch?)
  {
    var ab := AnodeBounds(p, anode);
    var cb := CathodeBounds(p, cathode);
    ReportedBoundsAreScored(v, p, anode, cathode);
    if |anode.xs| == 0 then Err(EmptyCurve)
    else if !v.PointStretch? && FullCount(ab) < 0 then Err(NegativeSampleCount)
    else if |cathode.xs| == 0 then Err(EmptyCurve)
    else if !v.PointStretch? && FullCount(cb) < 0 then Err(NegativeSampleCount)
    else
      var aw := Window(num, v, AnodeStretch(p), anode, ab);
      var cw := Window(num, v, CathodeStretch(p), cathode, cb);
      assert aw == AnodeWindow(num, v, p, anode);
      assert cw == CathodeWindow(num, v, p, cathode);
      var calculated := Sub(OnGrid(num, cw), OnGrid(num, aw));
      var parameters := BestParametersOf(p, anode, cathode);
      if v.PointStretch? then
        Ok(Curves(parameters, calculated, Bare(num, cw), Bare(num, aw)))
      else
        FlatSpan(aw);
        FlatSpan(cw);
        if Width(cw) == 0.0 || Width(aw) == 0.0 then Err(ZeroSpan)
        else
          Ok(Curves(parameters, calculated,
            WithAxes(num, v, CathodeStretch(p), cathode, cw, FullCount(cb)),
            WithAxes(num, v, AnodeStretch(p), anode, aw, FullCount(ab))))
  }

  /** Sample `x` of an ascending 1001-point grid, normalised. */
  lemma RiseQuotient(lo: real, hi: real, x: real, value: real)
    requires lo < hi && value == lo + x * ((hi - lo) / 1000.0)
    ensures (value - lo) / (hi - lo) == x / 1000.0
  {
    var d := hi - lo;
    var y := x / 1000.0;
    assert x * (d / 1000.0) == y * d;
    assert value - lo == y * d;
  }

  /** Sample `x` of a descending 1001-point grid, normalised. */
  lemma FallQuotient(lo: real, hi: real, x: real, value: real)
    requires hi < lo && value == lo + x * ((hi - lo) / 1000.0)
    ensures (value - hi) / (lo - hi) == (1000.0 - x) / 1000.0
  {
    var d := lo - hi;
    var y := (1000.0 - x) / 1000.0;
    var n := value - hi;
    assert x * ((hi - lo) / 1000.0) == -(x / 1000.0) * d;
    assert n == d - (x / 1000.0) * d;
    assert n == y * d;
    assert n / d == y;
  }

  /** Sample `i` of a 1001-point grid, written out. */
  lemma GridAt(lo: real, hi: real, i: nat)
    requires i < GridPoints
    ensures Linspace(lo, hi, GridPoints)[i] == lo + (i as real) * ((hi - lo) / 1000.0)
  {
    LinspaceAt(lo, hi, 1001, i);
  }

  /** Sample `i` of a normalised array, given the sample. */
  lemma NormalizedAt(s: seq<real>, origin: real, width: real, i: nat, value: real)
    requires width != 0.0 && i < |s| && s[i] == value
    ensures |Normalized(s, origin, width)| == |s|
    ensures Normalized(s, origin, width)[i] == (value - origin) / width
  {
  }

  /** Normalising sample `i` of an ascending 1001-point grid by its lower
      end and its width gives `i / 1000`. */
  lemma NormalizedRiseAt(g: seq<real>, lo: real, hi: real, i: nat)
    requires lo < hi && i < |g| && g[i] == lo + (i as real) * ((hi - lo) / 1000.0)
    ensures Normalized(g, lo, hi - lo)[i] == (i as real) / 1000.0
  {
    var value := g[i];
    NormalizedAt(g, lo, hi - lo, i, value);
    RiseQuotient(lo, hi, i as real, value);
  }

  /** Normalising sample `i` of a descending 1001-point grid by its lower
      end and its width gives `(1000 - i) / 1000`. */
  lemma NormalizedFallAt(g: seq<real>, lo: real, hi: real, i: nat)
    requires hi < lo && i < |g| && g[i] == lo + (i as real) * ((hi - lo) / 1000.0)
    ensures Normalized(g, hi, lo - hi)[i] == (1000.0 - (i as real)) / 1000.0
  {
    var value := g[i];
    NormalizedAt(g, hi, lo - hi, i, value);
    FallQuotient(lo, hi, i as real, value);
  }

  /** The window grid of a non-flat window lands on the unit interval
      sample by sample: `i / 1000` when it ascends, `(1000 - i) / 1000`
      when it descends. */
  lemma WindowSocIsUnit(w: Curve)
    requires |w.xs| > 0 && !Flat(w)
    ensures Width(w) != 0.0
    ensures var soc := Normalized(Grid(w), Origin(w), Width(w));
      && |soc| == GridPoints
      && forall i :: 0 <= i < GridPoints ==>
           soc[i] == if w.xs[0] < w.xs[|w.xs| - 1] then (i as real) / 1000.0
                     else ((GridPoints - 1 - i) as real) / 1000.0
  {
    var lo, hi := w.xs[0], w.xs[|w.xs| - 1];
    OriginWidth(w);
    assert Grid(w) == Linspace(lo, hi, GridPoints);
    forall i | 0 <= i < GridPoints
      ensures Normalized(Grid(w), Origin(w), Width(w))[i] ==
        if lo < hi then (i as real) / 1000.0 else ((GridPoints - 1 - i) as real) / 1000.0
    {
      GridAt(lo, hi, i);
      if lo < hi {
        NormalizedRiseAt(Grid(w), lo, hi, i);
      } else {
        NormalizedFallAt(Grid(w), lo, hi, i);
        assert ((GridPoints - 1 - i) as real) == 1000.0 - (i as real);
      }
    }
  }

  /** The full grid is offset by the window's lower end and divided by the
      window's width, so a full-grid sample at a window end lands on 0 or
      1 and the full curve continues the window's SOC axis on both sides. */
  lemma FullSocExtendsWindow(v: Variant, k: real, c: Curve, w: Curve, count: nat)
    requires |c.xs| > 0 && |w.xs| > 0 && !Flat(w)
    ensures Width(w) != 0.0
    ensures var full := FullGrid(v, k, c, count);
      var socFull := Normalized(full, Origin(w), Width(w));
      var lo, hi := w.xs[0], w.xs[|w.xs| - 1];
      && |socFull| == count
      && forall j :: 0 <= j < count ==>
           socFull[j] == if lo < hi then (full[j] - lo) / (hi - lo) else (full[j] - hi) / (lo - hi)
  {
    OriginWidth(w);
    var full := FullGrid(v, k, c, count);
    forall j | 0 <= j < count
      ensures Normalized(full, Origin(w), Width(w))[j] == (full[j] - Origin(w)) / Width(w)
    {
      NormalizedAt(full, Origin(w), Width(w), j, full[j]);
    }
  }

  /** What the engine plots for the anode after a successful
      reconstruction: its window grid mapped onto the unit SOC interval,
      and the full anode curve on `1001 + e + (1001 - f)` samples over the
      whole (stretched) x range, placed on the same SOC scale. */
  lemma AnodeAxes(num: Numerics, v: Variant, p: Params, anode: Curve, cathode: Curve)
    requires InBox(v, p) && !v.PointStretch?
    requires Reconstruct(num, v, p, anode, cathode).Ok?
    ensures |anode.xs| > 0 && FullCount(AnodeBounds(p, anode)) >= 0
    ensures var w := AnodeWindow(num, v, p, anode);
      var axes := Reconstruct(num, v, p, anode, cathode).value.anode.axes;
      && |w.xs| > 0 && !Flat(w) && Width(w) != 0.0
      && axes.Some?
      && axes.value.soc == Normalized(Grid(w), Origin(w), Width(w))
      && axes.value.fullGrid == FullGrid(v, AnodeStretch(p), anode, FullCount(AnodeBounds(p, anode)))
      && axes.value.socFull == Normalized(axes.value.fullGrid, Origin(w), Width(w))
  {
    ReportedBoundsAreScored(v, p, anode, cathode);
    var aw := AnodeWindow(num, v, p, anode);
    var cw := CathodeWindow(num, v, p, cathode);
    FlatSpan(aw);
    FlatSpan(cw);
    assert aw == Window(num, v, AnodeStretch(p), anode, AnodeBounds(p, anode));
  }

  /** What the engine plots for the cathode after a successful
      reconstruction, as for the anode with `1001 + g + (1001 - h)`
      full-curve samples. */
  lemma CathodeAxes(num: Numerics, v: Variant, p: Params, anode: Curve, cathode: Curve)
    requires InBox(v, p) && !v.PointStretch?
    requires Reconstruct(num, v, p, anode, cathode).Ok?
    ensures |cathode.xs| > 0 && FullCount(CathodeBounds(p, cathode)) >= 0
    ensures var w := CathodeWindow(num, v, p, cathode);
      var axes := Reconstruct(num, v, p, anode, cathode).value.cathode.axes;
      && |w.xs| > 0 && !Flat(w) && Width(w) != 0.0
      && axes.Some?
      && axes.value.soc == Normalized(Grid(w), Origin(w), Width(w))
      && axes.value.fullGrid == FullGrid(v, CathodeStretch(p), cathode, FullCount(CathodeBounds(p, cathode)))
      && axes.value.socFull == Normalized(axes.value.fullGrid, Origin(w), Width(w))
  {
    ReportedBoundsAreScored(v, p, anode, cathode);
    var aw := AnodeWindow(num, v, p, anode);
    var cw := CathodeWindow(num, v, p, cathode);
    FlatSpan(aw);
    FlatSpan(cw);
    assert cw == Window(num, v, CathodeStretch(p), cathode, CathodeBounds(p, cathode));
  }

  /** Samples of a strictly increasing array increase with their index. */
  lemma {:induction false} IncreasingOrdered(xs: seq<real>, i: nat, j: nat)
    requires StrictlyIncreasing(xs) && i < j < |xs|
    ensures xs[i] < xs[j]
    decreases j - i
  {
    if i + 1 < j {
      IncreasingOrdered(xs, i + 1, j);
    }
  }

  /** The first and last x sample of a non-empty window: the window ends
      of the half cell's samples, scaled by `k` under the axis stretch. */
  lemma WindowEnds(num: Numerics, v: Variant, k: real, c: Curve, b: Bounds)
    requires b.ValidIn(|c.xs|)
    ensures var w := Window(num, v, k, c, b);
      && w.xs[0] == (if v.AxisStretch? then k * c.xs[b.lo] else c.xs[b.lo])
      && w.xs[|w.xs| - 1] == (if v.AxisStretch? then k * c.xs[b.hi - 1] else c.xs[b.hi - 1])
  {
    var m := b.hi - b.lo;
    match v
    case AxisStretch =>
      var s := AxisWindow(num, k, c, b);
      assert s.xs[0] == k * c.xs[b.lo] && s.xs[m - 1] == k * c.xs[b.lo + (m - 1)];
    case Unstretched =>
      var s := PlainWindow(num, c, b);
      assert s.xs[0] == c.xs[b.lo] && s.xs[m - 1] == c.xs[b.lo + (m - 1)];
    case PointStretch =>
      var s := PointWindow(num, k, c, b);
      assert s.xs[0] == c.xs[b.lo] && s.xs[m - 1] == c.xs[b.lo + (m - 1)];
  }

  lemma ScaleStrict(k: real, x: real, y: real)
    requires 0.0 < k && x < y
    ensures k * x < k * y
  {
  }

  /** The anode window is the variant's window over the objective's
      bounds, a non-empty slice of a non-empty curve. */
  lemma AnodeWindowIs(num: Numerics, v: Variant, p: Params, anode: Curve)
    requires InBox(v, p) && |anode.xs| > 0
    ensures var b := ObjectiveBounds(p.trims.ePct, p.trims.fPct, |anode.xs|, AnodeTrim);
      && b.ValidIn(|anode.xs|)
      && AnodeWindow(num, v, p, anode) == Window(num, v, AnodeStretch(p), anode, b)
  {
    AnodeWindowValid(p.trims.ePct, p.trims.fPct, |anode.xs|);
  }

  /** The cathode window is the variant's window over the objective's
      bounds, a non-empty slice of a non-empty curve. */
  lemma CathodeWindowIs(num: Numerics, v: Variant, p: Params, cathode: Curve)
    requires InBox(v, p) && |cathode.xs| > 0
    ensures var b := ObjectiveBounds(p.trims.gPct, p.trims.hPct, |cathode.xs|, CathodeTrim);
      && b.ValidIn(|cathode.xs|)
      && CathodeWindow(num, v, p, cathode) == Window(num, v, CathodeStretch(p), cathode, b)
  {
    CathodeWindowValid(p.trims.gPct, p.trims.hPct, |cathode.xs|);
  }

  /** A window whose two end samples of the curve differ rises when any
      stretch factor is positive. */
  lemma WindowRises(num: Numerics, v: Variant, k: real, c: Curve, b: Bounds)
    requires b.ValidIn(|c.xs|) && c.xs[b.lo] < c.xs[b.hi - 1]
    requires v.AxisStretch? ==> 0.0 < k
    ensures var w := Window(num, v, k, c, b); w.xs[0] < w.xs[|w.xs| - 1]
  {
    var first, last := c.xs[b.lo], c.xs[b.hi - 1];
    var w := Window(num, v, k, c, b);
    WindowEnds(num, v, k, c, b);
    if v.AxisStretch? {
      ScaleStrict(k, first, last);
      assert w.xs[0] < w.xs[|w.xs| - 1];
    } else {
      assert w.xs[0] < w.xs[|w.xs| - 1];
    }
  }

  /** An axis-stretch factor of zero collapses any window onto one point. */
  lemma ZeroStretchFlat(num: Numerics, c: Curve, b: Bounds)
    requires b.ValidIn(|c.xs|)
    ensures Flat(Window(num, AxisStretch, 0.0, c, b))
  {
    WindowEnds(num, AxisStretch, 0.0, c, b);
  }

  /** A strictly increasing curve of two or more samples keeps two distinct
      samples at the ends of any window cut with at most 30 % per side. */
  lemma WindowEndsDiffer(c: Curve, pStart: real, pEnd: real, trim: real)
    requires IsFraction(pStart) && IsFraction(pEnd) && 0.0 <= trim <= AnodeTrim
    requires StrictlyIncreasing(c.xs) && 2 <= |c.xs|
    ensures var b := ObjectiveBounds(pStart, pEnd, |c.xs|, trim);
      b.ValidIn(|c.xs|) && c.xs[b.lo] < c.xs[b.hi - 1]
  {
    var b := ObjectiveBounds(pStart, pEnd, |c.xs|, trim);
    WindowNonEmpty(pStart, pEnd, |c.xs|, trim);
    WindowKeepsTwo(pStart, pEnd, |c.xs|, trim);
    IncreasingOrdered(c.xs, b.lo, b.hi - 1);
  }

  /** The anode window of a strictly increasing anode curve with two or
      more samples rises, unless its axis-stretch factor is zero. */
  lemma AnodeWindowRises(num: Numerics, v: Variant, p: Params, anode: Curve)
    requires InBox(v, p) && StrictlyIncreasing(anode.xs) && 2 <= |anode.xs|
    requires v.AxisStretch? ==> 0.0 < p.a
    ensures |AnodeWindow(num, v, p, anode).xs| > 0
    ensures !Flat(AnodeWindow(num, v, p, anode))
  {
    var b := ObjectiveBounds(p.trims.ePct, p.trims.fPct, |anode.xs|, AnodeTrim);
    assert b.ValidIn(|anode.xs|) && anode.xs[b.lo] < anode.xs[b.hi - 1] by {
      WindowEndsDiffer(anode, p.trims.ePct, p.trims.fPct, AnodeTrim);
    }
    assert AnodeWindow(num, v, p, anode) == Window(num, v, AnodeStretch(p), anode, b) by {
      AnodeWindowIs(num, v, p, anode);
    }
    WindowRises(num, v, AnodeStretch(p), anode, b);
  }

  /** The cathode window of a strictly increasing cathode curve with two or
      more samples rises, unless its axis-stretch factor is zero. */
  lemma CathodeWindowRises(num: Numerics, v: Variant, p: Params, cathode: Curve)
    requires InBox(v, p) && StrictlyIncreasing(cathode.xs) && 2 <= |cathode.xs|
    requires v.AxisStretch? ==> 0.0 < p.c
    ensures |CathodeWindow(num, v, p, cathode).xs| > 0
    ensures !Flat(CathodeWindow(num, v, p, cathode))
  {
    var b := ObjectiveBounds(p.trims.gPct, p.trims.hPct, |cathode.xs|, CathodeTrim);
    assert b.ValidIn(|cathode.xs|) && cathode.xs[b.lo] < cathode.xs[b.hi - 1] by {
      WindowEndsDiffer(cathode, p.trims.gPct, p.trims.hPct, CathodeTrim);
    }
    assert CathodeWindow(num, v, p, cathode) == Window(num, v, CathodeStretch(p), cathode, b) by {
      CathodeWindowIs(num, v, p, cathode);
    }
    WindowRises(num, v, CathodeStretch(p), cathode, b);
  }

  /** Strictly increasing curves of 2 to 2002 samples, with positive
      axis-stretch factors, always reconstruct. */
  lemma ReconstructSucceeds(num: Numerics, v: Variant, p: Params, anode: Curve, cathode: Curve)
    requires InBox(v, p)
    requires StrictlyIncreasing(anode.xs) && 2 <= |anode.xs| <= 2 * GridPoints
    requires StrictlyIncreasing(cathode.xs) && 2 <= |cathode.xs| <= 2 * GridPoints
    requires v.AxisStretch? ==> 0.0 < p.a && 0.0 < p.c
    ensures Reconstruct(num, v, p, anode, cathode).Ok?
  {
    FullCountSign(p.trims.ePct, p.trims.fPct, |anode.xs|, AnodeTrim);
    FullCountSign(p.trims.gPct, p.trims.hPct, |cathode.xs|, CathodeTrim);
    AnodeWindowRises(num, v, p, anode);
    CathodeWindowRises(num, v, p, cathode);
  }

  /** The optimizer's box admits an axis-stretch factor of zero; it
      collapses that half cell's window onto one point, and the
      reconstruction then fails. */
  lemma ZeroStretchFails(num: Numerics, p: Params, anode: Curve, cathode: Curve)
    requires InBox(AxisStretch, p) && |anode.xs| > 0 && |cathode.xs| > 0
    requires p.a == 0.0 || p.c == 0.0
    ensures Reconstruct(num, AxisStretch, p, anode, cathode).Err?
  {
    AnodeWindowIs(num, AxisStretch, p, anode);
    CathodeWindowIs(num, AxisStretch, p, cathode);
    if p.a == 0.0 {
      ZeroStretchFlat(num, anode, ObjectiveBounds(p.trims.ePct, p.trims.fPct, |anode.xs|, AnodeTrim));
    } else {
      ZeroStretchFlat(num, cathode, ObjectiveBounds(p.trims.gPct, p.trims.hPct, |cathode.xs|, CathodeTrim));
    }
  }

  /** An anode curve of more than 2002 samples with nothing trimmed asks
      for a negative number of full-grid samples, so the engines that
      build the normalised axes fail on it. */
  lemma LongAnodeFails(num: Numerics, v: Variant, p: Params, anode: Curve, cathode: Curve)
    requires InBox(v, p) && !v.PointStretch?
    requires p.trims.ePct == 0.0 && p.trims.fPct == 0.0 && |anode.xs| > 2 * GridPoints
    ensures Reconstruct(num, v, p, anode, cathode) == Err(NegativeSampleCount)
  {
    FullCountSign(p.trims.ePct, p.trims.fPct, |anode.xs|, AnodeTrim);
  }
}
