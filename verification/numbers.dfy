/** Exact-real stand-ins for the Python and numpy primitives the engine
    uses: `int()` truncation, elementwise array arithmetic, the mean of
    squares inside an RMSD, `np.linspace`, and `min`/`max` of an array.
    Floats become reals, so rounding is not modelled. */
module Numbers {

  /** Python's `int()` on a float: truncation toward zero. */
  function Trunc(x: real): (r: int)
    ensures 0.0 <= x ==> 0 <= r && r as real <= x < r as real + 1.0
    ensures x < 0.0 ==> r <= 0 && x <= r as real < x + 1.0
  {
    if 0.0 <= x then x.Floor else -((-x).Floor)
  }

  /** `k * s` for a numpy array `s`. */
  function Scale(k: real, s: seq<real>): (r: seq<real>)
    ensures |r| == |s|
    ensures forall i :: 0 <= i < |s| ==> r[i] == k * s[i]
  {
    seq(|s|, i requires 0 <= i < |s| => k * s[i])
  }

  /** `u - v` for numpy arrays of one shape. */
  function Sub(u: seq<real>, v: seq<real>): (r: seq<real>)
    requires |u| == |v|
    ensures |r| == |u|
    ensures forall i :: 0 <= i < |u| ==> r[i] == u[i] - v[i]
  {
    seq(|u|, i requires 0 <= i < |u| => u[i] - v[i])
  }

  /** `u + v` for numpy arrays of one shape. */
  function Add(u: seq<real>, v: seq<real>): (r: seq<real>)
    requires |u| == |v|
    ensures |r| == |u|
    ensures forall i :: 0 <= i < |u| ==> r[i] == u[i] + v[i]
  {
    seq(|u|, i requires 0 <= i < |u| => u[i] + v[i])
  }

  /** `-u` for a numpy array. */
  function Neg(u: seq<real>): (r: seq<real>)
    ensures |r| == |u|
    ensures forall i :: 0 <= i < |u| ==> r[i] == -u[i]
  {
    seq(|u|, i requires 0 <= i < |u| => -u[i])
  }

  /** Subtracting `origin` from every sample: `s - origin`. */
  function Shift(s: seq<real>, origin: real): (r: seq<real>)
    ensures |r| == |s|
    ensures forall i :: 0 <= i < |s| ==> r[i] == s[i] - origin
  {
    seq(|s|, i requires 0 <= i < |s| => s[i] - origin)
  }

  /** Dividing every sample by `d`: `s / d`. */
  function Divide(s: seq<real>, d: real): (r: seq<real>)
    requires d != 0.0
    ensures |r| == |s|
    ensures forall i :: 0 <= i < |s| ==> r[i] == s[i] / d
  {
    seq(|s|, i requires 0 <= i < |s| => s[i] / d)
  }

  /** The sum of squares `sum(s ** 2)`. */
  function SumSq(s: seq<real>): (r: real)
    ensures 0.0 <= r
  {
    if |s| == 0 then 0.0 else s[0] * s[0] + SumSq(s[1..])
  }

  /** `np.mean(s ** 2)` of a non-empty array. */
  function MeanSq(s: seq<real>): (r: real)
    requires |s| > 0
    ensures 0.0 <= r
  {
    SumSq(s) / (|s| as real)
  }

  /** Negating an array leaves its sum of squares unchanged. */
  lemma {:induction false} SumSqNeg(s: seq<real>)
    ensures SumSq(Neg(s)) == SumSq(s)
  {
    if |s| > 0 {
      assert Neg(s)[1..] == Neg(s[1..]);
      SumSqNeg(s[1..]);
    }
  }

  /** Negating an array leaves its mean square unchanged. */
  lemma MeanSqNeg(s: seq<real>)
    requires |s| > 0
    ensures MeanSq(Neg(s)) == MeanSq(s)
  {
    SumSqNeg(s);
  }

  lemma MulMono(a: real, b: real, c: real)
    requires a <= b && 0.0 <= c
    ensures a * c <= b * c
  {
  }

  /** Dividing by a positive count and multiplying back. */
  lemma DivBack(a: real, d: real)
    requires 0.0 < d
    ensures d * (a / d) == a
    ensures 0.0 <= a ==> 0.0 <= a / d
  {
  }

  /** `num` samples starting at `lo`, `step` apart. */
  function Ramp(lo: real, step: real, num: nat): (s: seq<real>)
    ensures |s| == num
    ensures forall i :: 0 <= i < num ==> s[i] == lo + (i as real) * step
  {
    seq(num, i requires 0 <= i < num => lo + (i as real) * step)
  }

  /** A ramp with a non-negative step never decreases. */
  lemma RampAscending(lo: real, step: real, num: nat)
    requires 0.0 <= step
    ensures forall i, j :: 0 <= i <= j < num ==> lo <= Ramp(lo, step, num)[i] <= Ramp(lo, step, num)[j]
  {
    var s := Ramp(lo, step, num);
    forall i, j | 0 <= i <= j < num
      ensures lo <= s[i] <= s[j]
    {
      MulMono(0.0, i as real, step);
      MulMono(i as real, j as real, step);
    }
  }

  /** A ramp with a non-positive step never increases. */
  lemma RampDescending(lo: real, step: real, num: nat)
    requires step <= 0.0
    ensures forall i, j :: 0 <= i <= j < num ==> Ramp(lo, step, num)[j] <= Ramp(lo, step, num)[i] <= lo
  {
    var s := Ramp(lo, step, num);
    forall i, j | 0 <= i <= j < num
      ensures s[j] <= s[i] <= lo
    {
      MulMono(0.0, i as real, -step);
      MulMono(i as real, j as real, -step);
    }
  }

  /** `np.linspace(lo, hi, num)` with its default `endpoint=True`: `num`
      evenly spaced samples, the first `lo` and the last `hi`. */
  function Linspace(lo: real, hi: real, num: nat): (s: seq<real>)
    ensures |s| == num
    ensures 1 <= num ==> s[0] == lo
    ensures 2 <= num ==> s[num - 1] == hi
    ensures lo <= hi ==> forall i, j :: 0 <= i <= j < num ==> lo <= s[i] <= s[j] <= hi
    ensures hi <= lo ==> forall i, j :: 0 <= i <= j < num ==> hi <= s[j] <= s[i] <= lo
  {
    if num == 0 then []
    else if num == 1 then [lo]
    else
      var d := (num - 1) as real;
      var step := (hi - lo) / d;
      DivBack(hi - lo, d);
      var s := Ramp(lo, step, num);
      assert s[num - 1] == hi;
      if lo <= hi then
        RampAscending(lo, step, num);
        s
      else
        DivBack(lo - hi, d);
        assert step == -((lo - hi) / d);
        RampDescending(lo, step, num);
        s
  }

  /** The i-th sample of a linspace, written out. */
  lemma LinspaceAt(lo: real, hi: real, num: nat, i: nat)
    requires 2 <= num && i < num
    ensures Linspace(lo, hi, num)[i] == lo + (i as real) * ((hi - lo) / ((num - 1) as real))
  {
  }

  lemma ScaleQuotient(k: real, a: real, d: real)
    requires 0.0 < d
    ensures (k * a) / d == k * (a / d)
  {
    DivBack(a, d);
    DivBack(k * a, d);
  }

  lemma LinspaceScaleAt(k: real, lo: real, hi: real, num: nat, i: nat)
    requires 2 <= num && i < num
    ensures Linspace(k * lo, k * hi, num)[i] == k * Linspace(lo, hi, num)[i]
  {
    var d := (num - 1) as real;
    var x := i as real;
    var step := (hi - lo) / d;
    assert k * hi - k * lo == k * (hi - lo);
    ScaleQuotient(k, hi - lo, d);
    var kstep := (k * hi - k * lo) / d;
    assert kstep == k * step;
    LinspaceAt(k * lo, k * hi, num, i);
    LinspaceAt(lo, hi, num, i);
    assert k * lo + x * kstep == k * (lo + x * step);
  }

  /** Stretching both endpoints by `k` stretches every sample by `k`. */
  lemma LinspaceScale(k: real, lo: real, hi: real, num: nat)
    ensures Linspace(k * lo, k * hi, num) == Scale(k, Linspace(lo, hi, num))
  {
    var a := Linspace(k * lo, k * hi, num);
    var b := Scale(k, Linspace(lo, hi, num));
    if 2 <= num {
      forall i | 0 <= i < num
        ensures a[i] == b[i]
      {
        LinspaceScaleAt(k, lo, hi, num, i);
      }
      assert a == b;
    } else if num == 1 {
      assert a[0] == b[0];
      assert a == b;
    }
  }

  /** Python's `min` over a non-empty array. */
  function SeqMin(s: seq<real>): (m: real)
    requires |s| > 0
    ensures exists i :: 0 <= i < |s| && s[i] == m
    ensures forall i :: 0 <= i < |s| ==> m <= s[i]
  {
    if |s| == 1 then s[0]
    else
      var rest := SeqMin(s[1..]);
      if s[0] <= rest then s[0] else rest
  }

  /** Python's `max` over a non-empty array. */
  function SeqMax(s: seq<real>): (m: real)
    requires |s| > 0
    ensures exists i :: 0 <= i < |s| && s[i] == m
    ensures forall i :: 0 <= i < |s| ==> s[i] <= m
  {
    if |s| == 1 then s[0]
    else
      var rest := SeqMax(s[1..]);
      if rest <= s[0] then s[0] else rest
  }

  /** The extremes of a linspace are its two ends: the start and the end
      of an ascending one, the other way round for a descending one. */
  lemma LinspaceExtremes(lo: real, hi: real, num: nat)
    requires 2 <= num
    ensures lo <= hi ==> SeqMin(Linspace(lo, hi, num)) == lo && SeqMax(Linspace(lo, hi, num)) == hi
    ensures hi <= lo ==> SeqMin(Linspace(lo, hi, num)) == hi && SeqMax(Linspace(lo, hi, num)) == lo
  {
    var s := Linspace(lo, hi, num);
    assert s[0] == lo && s[num - 1] == hi;
  }

  /** Shifting every sample moves the maximum by the same amount. */
  lemma {:induction false} SeqMaxShift(s: seq<real>, origin: real)
    requires |s| > 0
    ensures SeqMax(Shift(s, origin)) == SeqMax(s) - origin
  {
    if |s| > 1 {
      assert Shift(s, origin)[1..] == Shift(s[1..], origin);
      SeqMaxShift(s[1..], origin);
    }
  }

  /** `max(s - min(s))`: how far the samples spread. */
  function Span(s: seq<real>): (r: real)
    requires |s| > 0
  {
    SeqMax(Shift(s, SeqMin(s)))
  }

  /** The spread is the distance between the largest and the smallest
      sample; it vanishes exactly when all samples are equal. */
  lemma SpanIsRange(s: seq<real>)
    requires |s| > 0
    ensures Span(s) == SeqMax(s) - SeqMin(s)
    ensures 0.0 <= Span(s)
    ensures Span(s) == 0.0 <==> forall i :: 0 <= i < |s| ==> s[i] == s[0]
  {
    SeqMaxShift(s, SeqMin(s));
    if Span(s) == 0.0 {
      assert SeqMax(s) == SeqMin(s);
    } else {
      var i :| 0 <= i < |s| && s[i] == SeqMax(s);
      var j :| 0 <= j < |s| && s[j] == SeqMin(s);
      assert s[i] != s[0] || s[j] != s[0];
    }
  }

  /** The spread of a linspace of two or more samples is the distance
      between its ends. */
  lemma LinspaceSpan(lo: real, hi: real, num: nat)
    requires 2 <= num
    ensures Span(Linspace(lo, hi, num)) == if lo <= hi then hi - lo else lo - hi
  {
    LinspaceExtremes(lo, hi, num);
    SpanIsRange(Linspace(lo, hi, num));
  }
}
