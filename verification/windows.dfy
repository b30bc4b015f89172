/** Window-index arithmetic: how the trim fractions `e%, f%` (anode) and
    `g%, h%` (cathode) become the integer slice bounds `[e:f)` and `[g:h)`
    of a half-cell curve's samples.

    The anode may lose up to 30 % of its samples at each end, the cathode
    up to 15 %. The objective clamps the upper bound to the sample count;
    the reconstruction after the search recomputes the bounds without that
    clamp. */
module Windows {
  import opened Numbers

  /** Largest trimmed share of the anode curve per side. */
  const AnodeTrim: real := 0.3
  /** Largest trimmed share of the cathode curve per side. */
  const CathodeTrim: real := 0.15

  /** A half-open slice `[lo:hi)` of a curve's samples. */
  datatype Bounds = Bounds(lo: int, hi: int) {
    /** The slice is non-empty and lies inside an array of `n` samples. */
    predicate ValidIn(n: int) {
      0 <= lo < hi <= n
    }
  }

  /** A trim fraction inside the optimizer's box `[0, 1]`. */
  predicate IsFraction(p: real) {
    0.0 <= p <= 1.0
  }

  /** `floor(trim * n)`: the most samples one end of the window can lose. */
  function MaxTrim(n: nat, trim: real): int {
    ((n as real) * trim).Floor
  }

  /** `e = int(e% * n * trim)`: the first sample kept. */
  function Start(p: real, n: nat, trim: real): int {
    Trunc(p * (n as real) * trim)
  }

  /** `f = n - int(f% * n * trim)`: one past the last sample kept. */
  function End(p: real, n: nat, trim: real): int {
    n - Trunc(p * (n as real) * trim)
  }

  /** `if f > n: f = n`. */
  function Clamp(hi: int, n: nat): (r: int)
    ensures r <= n
    ensures r == hi || r == n
    ensures hi <= n ==> r == hi
  {
    if hi > n then n else hi
  }

  /** The slice the objective takes, with the upper bound clamped. */
  function ObjectiveBounds(pStart: real, pEnd: real, n: nat, trim: real): (b: Bounds)
    ensures b.hi <= n
    ensures b.lo == Start(pStart, n, trim)
    ensures End(pEnd, n, trim) <= n ==> b.hi == End(pEnd, n, trim)
    ensures n < End(pEnd, n, trim) ==> b.hi == n
  {
    Bounds(Start(pStart, n, trim), Clamp(End(pEnd, n, trim), n))
  }

  /** The slice the reconstruction takes: the same formulas, no clamp. */
  function ReportedBounds(pStart: real, pEnd: real, n: nat, trim: real): Bounds {
    Bounds(Start(pStart, n, trim), End(pEnd, n, trim))
  }

  lemma FractionOf(p: real, x: real)
    requires IsFraction(p) && 0.0 <= x
    ensures 0.0 <= p * x <= x
  {
  }

  /** An in-box start fraction keeps `0 <= e <= floor(trim * n)`. */
  lemma StartInRange(p: real, n: nat, trim: real)
    requires IsFraction(p) && 0.0 <= trim
    ensures 0 <= Start(p, n, trim) <= MaxTrim(n, trim)
  {
    var y := (n as real) * trim;
    var x := p * (n as real) * trim;
    assert x == p * y;
    FractionOf(p, y);
    var t := Trunc(x);
    assert 0 <= t && t as real <= x;
    FloorMono(t, y);
  }

  /** An integer below a real is below that real's floor. */
  lemma FloorMono(t: int, y: real)
    requires t as real <= y
    ensures t <= y.Floor
  {
  }

  /** An in-box end fraction keeps `n - floor(trim * n) <= f <= n`, so the
      clamp never changes it. */
  lemma EndInRange(p: real, n: nat, trim: real)
    requires IsFraction(p) && 0.0 <= trim
    ensures n - MaxTrim(n, trim) <= End(p, n, trim) <= n
    ensures Clamp(End(p, n, trim), n) == End(p, n, trim)
  {
    StartInRange(p, n, trim);
  }

  /** For in-box fractions the clamped and the unclamped slices agree. */
  lemma ClampIsIdle(pStart: real, pEnd: real, n: nat, trim: real)
    requires IsFraction(pEnd) && 0.0 <= trim
    ensures ObjectiveBounds(pStart, pEnd, n, trim) == ReportedBounds(pStart, pEnd, n, trim)
  {
    EndInRange(pEnd, n, trim);
  }

  /** Less than half of the samples can be trimmed from each end, so the
      two trims never meet. */
  lemma TrimsDoNotMeet(n: nat, trim: real)
    requires 1 <= n && 0.0 <= trim < 0.5
    ensures 2 * MaxTrim(n, trim) < n
  {
    MulMono(trim, 0.5, n as real);
  }

  /** For in-box fractions and a curve of at least one sample, the window
      is a non-empty slice of the samples: `0 <= e < f <= n`. */
  lemma WindowNonEmpty(pStart: real, pEnd: real, n: nat, trim: real)
    requires IsFraction(pStart) && IsFraction(pEnd)
    requires 0.0 <= trim < 0.5 && 1 <= n
    ensures ObjectiveBounds(pStart, pEnd, n, trim).ValidIn(n)
  {
    StartInRange(pStart, n, trim);
    EndInRange(pEnd, n, trim);
    TrimsDoNotMeet(n, trim);
  }

  /** The anode window `[e:f)` is a non-empty slice of the anode samples. */
  lemma AnodeWindowValid(ePct: real, fPct: real, n: nat)
    requires IsFraction(ePct) && IsFraction(fPct) && 1 <= n
    ensures 0 <= Start(ePct, n, AnodeTrim) <= MaxTrim(n, AnodeTrim)
    ensures n - MaxTrim(n, AnodeTrim) <= ObjectiveBounds(ePct, fPct, n, AnodeTrim).hi <= n
    ensures ObjectiveBounds(ePct, fPct, n, AnodeTrim).ValidIn(n)
  {
    StartInRange(ePct, n, AnodeTrim);
    EndInRange(fPct, n, AnodeTrim);
    WindowNonEmpty(ePct, fPct, n, AnodeTrim);
  }

  /** The cathode window `[g:h)` is a non-empty slice of the cathode samples. */
  lemma CathodeWindowValid(gPct: real, hPct: real, n: nat)
    requires IsFraction(gPct) && IsFraction(hPct) && 1 <= n
    ensures 0 <= Start(gPct, n, CathodeTrim) <= MaxTrim(n, CathodeTrim)
    ensures n - MaxTrim(n, CathodeTrim) <= ObjectiveBounds(gPct, hPct, n, CathodeTrim).hi <= n
    ensures ObjectiveBounds(gPct, hPct, n, CathodeTrim).ValidIn(n)
  {
    StartInRange(gPct, n, CathodeTrim);
    EndInRange(hPct, n, CathodeTrim);
    WindowNonEmpty(gPct, hPct, n, CathodeTrim);
  }

  /** With at most 30 % trimmed per side, a curve of two or more samples
      keeps at least two of them, so the window has two distinct ends. */
  lemma WindowKeepsTwo(pStart: real, pEnd: real, n: nat, trim: real)
    requires IsFraction(pStart) && IsFraction(pEnd)
    requires 0.0 <= trim <= AnodeTrim && 2 <= n
    ensures ObjectiveBounds(pStart, pEnd, n, trim).hi - ObjectiveBounds(pStart, pEnd, n, trim).lo >= 2
  {
    StartInRange(pStart, n, trim);
    EndInRange(pEnd, n, trim);
    var m := MaxTrim(n, trim);
    MulMono(trim, AnodeTrim, n as real);
    assert 10 * m <= 3 * n;
  }
}
