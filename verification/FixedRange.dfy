/**
 When the fixed-point butterflies stay inside the sample range.  The scaling by the radix bounds each
 part of a sample, but a rotation mixes the two parts, so what matters is the distance from zero.
 */
module FixedRange {
  import opened Bits
  import opened FixedPoint
  import opened Complex

  // ---- the exact condition

  predicate Inside(c: Cpx, f: nat) { InRange(c.r, f) && InRange(c.i, f) }

  /** Adding a rounded part stays in range exactly for these exact products. */
  predicate SumFits(g: int, x: int, f: nat)
    requires f >= 1
  {
    Mul(-SampMax(f) - g, Pow2(f)) - Pow2(f - 1) <= x < Mul(SampMax(f) - g, Pow2(f)) + Pow2(f - 1)
  }

  lemma SumInRangeIff(g: int, x: int, f: nat)
    requires f >= 1
    ensures InRange(g + Round(x, f), f) <==> SumFits(g, x, f)
  {
    RoundAtMostIff(x, SampMax(f) - g, f);
    RoundAtMostIff(x, -SampMax(f) - g, f);
  }

  /** So does subtracting it. */
  predicate DifferenceFits(g: int, x: int, f: nat)
    requires f >= 1
  {
    Mul(g - SampMax(f), Pow2(f)) - Pow2(f - 1) <= x < Mul(g + SampMax(f), Pow2(f)) + Pow2(f - 1)
  }

  lemma DifferenceInRangeIff(g: int, x: int, f: nat)
    requires f >= 1
    ensures InRange(g - Round(x, f), f) <==> DifferenceFits(g, x, f)
  {
    RoundAtMostIff(x, g + SampMax(f), f);
    RoundAtMostIff(x, g - SampMax(f), f);
  }

  // ---- distance from zero

  const SLACK: real := 5.0 / 7.0

  function Exact(c: Cpx): Comp { Comp(c.r as real, c.i as real) }

  /** Marks the proofs that look at the squares in Within; elsewhere they stay out of the solver's way. */
  predicate Squares(x: int) { true }

  ghost predicate Within(c: Comp, r: real) {
    r >= 0.0 && forall x: int {:trigger Squares(x)} :: Squares(x) ==> Power(c) <= r * r
  }

  lemma RealProduct(x: int, y: int)
    ensures (x * y) as real == x as real * y as real
  {
  }

  lemma PowerPositive(c: Comp)
    ensures Power(c) >= 0.0
  {
    SquarePositive(c.re);
    SquarePositive(c.im);
  }

  lemma SquarePositive(x: real)
    ensures x * x >= 0.0
  {
  }

  lemma ProductOrder(a: real, b: real, x: real, y: real)
    requires 0.0 <= a <= x && 0.0 <= b <= y
    ensures a * b <= x * y
  {
    assert a * b <= x * b;
    assert x * b <= x * y;
  }

  lemma SquareOfProduct(r: real, s: real)
    ensures (r * r) * (s * s) == (r * s) * (r * s)
  {
  }

  /** Products multiply distances. */
  lemma WithinProduct(a: Comp, r: real, b: Comp, s: real)
    requires Within(a, r) && Within(b, s)
    ensures Within(CMult(a, b), r * s)
  {
    assert Squares(0);
    PowerMult(a, b);
    PowerPositive(a);
    PowerPositive(b);
    ProductOrder(Power(a), Power(b), r * r, s * s);
    SquareOfProduct(r, s);
  }

  lemma WithinFactor(k: real, a: Comp, r: real)
    requires Within(a, r) && k >= 0.0
    ensures Within(FCMult(k, a), k * r)
  {
    var c := Comp(k, 0.0);
    assert CMult(c, a) == FCMult(k, a);
    assert Power(c) <= k * k;
    WithinProduct(c, k, a, r);
  }

  lemma SquareOrder(x: real, r: real)
    requires x * x <= r * r && r >= 0.0
    ensures -r <= x <= r
  {
    if x > r { Larger(x, r); } else if x < -r { Larger(-x, r); }
  }

  lemma Larger(x: real, r: real)
    requires x > r >= 0.0
    ensures x * x > r * r
  {
    var d, t := x - r, x + r;
    assert d * t > 0.0 && d * t == x * x - r * r;
  }

  lemma WithinConj(b: Comp, s: real)
    requires Within(b, s)
    ensures Within(CConj(b), s)
  {
    assert Squares(0);
    assert (-b.im) * (-b.im) == b.im * b.im;
  }

  /** The inner product of two vectors is no larger than the product of their lengths. */
  lemma InnerProduct(a: Comp, r: real, b: Comp, s: real)
    requires Within(a, r) && Within(b, s)
    ensures a.re * b.re + a.im * b.im <= r * s
  {
    var c := CConj(b);
    WithinConj(b, s);
    WithinProduct(a, r, c, s);
    WithinPart(CMult(a, c), r * s);
  }

  lemma WithinPart(a: Comp, r: real)
    requires Within(a, r)
    ensures -r <= a.re <= r && -r <= a.im <= r
  {
    assert Squares(0);
    SquarePositive(a.re);
    SquarePositive(a.im);
    SquareOrder(a.re, r);
    SquareOrder(a.im, r);
  }

  /** The triangle inequality. */
  lemma WithinSum(a: Comp, r: real, b: Comp, s: real)
    requires Within(a, r) && Within(b, s)
    ensures Within(CAdd(a, b), r + s)
  {
    assert Squares(0);
    InnerProduct(a, r, b, s);
    Square(a.re, b.re);
    Square(a.im, b.im);
    Square(r, s);
  }

  lemma WithinMore(a: Comp, r: real, s: real)
    requires Within(a, r) && r <= s
    ensures Within(a, s)
  {
    assert Squares(0);
    ProductOrder(r, r, s, s);
  }

  lemma WithinTurn(a: Comp, r: real)
    requires Within(a, r)
    ensures Within(CNeg(a), r) && Within(Turned(a), r)
  {
    assert Squares(0);
  }

  /** An error of at most half a unit in both parts. */
  lemma WithinHalf(a: Comp)
    requires -0.5 <= a.re <= 0.5 && -0.5 <= a.im <= 0.5
    ensures Within(a, SLACK)
  {
    assert Squares(0);
    HalfSquare(a.re);
    HalfSquare(a.im);
  }

  lemma HalfSquare(x: real)
    requires -0.5 <= x <= 0.5
    ensures x * x <= 0.25
  {
    if x >= 0.0 { ProductOrder(x, x, 0.5, 0.5); } else { ProductOrder(-x, -x, 0.5, 0.5); assert (-x) * (-x) == x * x; }
  }

  /** Rounding both parts moves a vector by less than 5/7. */
  lemma WithinRounded(a: Comp, r: real, c: Cpx)
    requires Within(a, r)
    requires -0.5 <= c.r as real - a.re <= 0.5 && -0.5 <= c.i as real - a.im <= 0.5
    ensures Within(Exact(c), r + SLACK)
  {
    var e := Comp(c.r as real - a.re, c.i as real - a.im);
    WithinHalf(e);
    WithinSum(a, r, e, SLACK);
    assert CAdd(a, e) == Exact(c);
  }

  // ---- scaled and rotated samples

  /** p is 2^F and u its reciprocal. */
  ghost predicate Scale(f: nat, p: real, u: real) {
    f >= 1 && p == Pow2(f) as real && u > 0.0 && u * p == 1.0
  }

  predicate Near(n: int, x: real) { -0.5 <= n as real - x <= 0.5 }

  /** Every entry of the table: KISS_FFT_COS and KISS_FFT_SIN of some angle. */
  ghost predicate Twiddle(t: Cpx, f: nat) {
    exists c: Comp :: Power(c) == 1.0 && Rounds(t, FCMult(SampMax(f) as real, c))
  }

  predicate Rounds(t: Cpx, c: Comp) { t.r == (0.5 + c.re).Floor && t.i == (0.5 + c.im).Floor }

  lemma UnitWithin(c: Comp)
    requires Power(c) == 1.0
    ensures Within(c, 1.0)
  {
  }

  lemma TwiddleWithin(t: Cpx, f: nat, p: real)
    requires Twiddle(t, f) && p == Pow2(f) as real
    ensures Within(Exact(t), p - 1.0 + SLACK)
  {
    var c: Comp :| Power(c) == 1.0 && Rounds(t, FCMult(SampMax(f) as real, c));
    UnitWithin(c);
    TableEntry(t, c, p - 1.0);
  }

  lemma TableEntry(t: Cpx, c: Comp, s: real)
    requires Within(c, 1.0) && s >= 0.0 && Rounds(t, FCMult(s, c))
    ensures Within(Exact(t), s + SLACK)
  {
    WithinFactor(s, c, 1.0);
    WithinRounded(FCMult(s, c), s, t);
  }

  lemma Regroup(u: real, p: real, x: real)
    ensures u * (p * x) == (u * p) * x
  {
  }

  lemma RoundIsNear(x: int, f: nat, p: real, u: real)
    requires Scale(f, p, u)
    ensures Near(Round(x, f), u * x as real)
  {
    RoundNearest(x, f);
    var r := Round(x, f);
    RealProduct(Pow2(f), r);
    NearQuotient(x as real, r, p, u);
  }

  lemma NearQuotient(x: real, r: int, p: real, u: real)
    requires u > 0.0 && u * p == 1.0 && -(p / 2.0) <= x - p * r as real <= p / 2.0
    ensures Near(r, u * x)
  {
    var e := x - p * r as real;
    Regroup(u, p, r as real);
    Regroup(u, p, 0.5);
    Spread(u, p * r as real, e, p * 0.5);
  }

  lemma Spread(u: real, y: real, e: real, h: real)
    requires u > 0.0 && -h <= e <= h
    ensures u * (y + e) == u * y + u * e && -(u * h) <= u * e <= u * h
  {
  }

  function Scaled(c: Cpx, k: nat, f: nat): Cpx
    requires f >= 1 && k >= 1
  {
    Cpx(DivScalar(c.r, k, f), DivScalar(c.i, k, f))
  }

  lemma PartScaled(x: int, k: nat, f: nat, p: real, u: real, a: real)
    requires Scale(f, p, u) && k >= 1 && a * p == Step(f, k) as real
    ensures Near(DivScalar(x, k, f), a * x as real)
  {
    RoundedTimes(x, Step(f, k), f, p, u, a, DivScalar(x, k, f));
  }

  lemma RoundedTimes(x: int, q: int, f: nat, p: real, u: real, a: real, d: int)
    requires Scale(f, p, u) && a * p == q as real && d == Round(x * q, f)
    ensures Near(d, a * x as real)
  {
    FactorIs(a, p, u, q as real);
    RoundIsNear(x * q, f, p, u);
    RealProduct(x, q);
    Regroup(u, q as real, x as real);
  }

  lemma FactorIs(a: real, p: real, u: real, q: real)
    requires u * p == 1.0 && a * p == q
    ensures a == u * q
  {
    Regroup(u, p, a);
  }

  /** C_FIXDIV shrinks a sample by SAMP_MAX/k over 2^F, and rounds. */
  lemma ScaledWithin(c: Cpx, r: real, k: nat, f: nat, p: real, u: real, a: real)
    requires Scale(f, p, u) && k >= 1 && a * p == Step(f, k) as real && a >= 0.0 && Within(Exact(c), r)
    ensures Within(Exact(Scaled(c, k, f)), a * r + SLACK)
  {
    PartScaled(c.r, k, f, p, u, a);
    PartScaled(c.i, k, f, p, u, a);
    RoundedFactor(c, r, a, Scaled(c, k, f));
  }

  lemma RoundedFactor(c: Cpx, r: real, a: real, d: Cpx)
    requires a >= 0.0 && Within(Exact(c), r) && Near(d.r, a * c.r as real) && Near(d.i, a * c.i as real)
    ensures Within(Exact(d), a * r + SLACK)
  {
    WithinFactor(a, Exact(c), r);
    WithinRounded(FCMult(a, Exact(c)), a * r, d);
  }

  /** The exact product of two samples, before the rounding. */
  function Product(a: Cpx, b: Cpx): Cpx {
    Cpx(Mul(a.r, b.r) - Mul(a.i, b.i), Mul(a.r, b.i) + Mul(a.i, b.r))
  }

  lemma ProductExact(a: Cpx, b: Cpx)
    ensures Exact(Product(a, b)) == CMult(Exact(a), Exact(b))
  {
    RealProduct(a.r, b.r);
    RealProduct(a.i, b.i);
    RealProduct(a.r, b.i);
    RealProduct(a.i, b.r);
  }

  lemma ProductWithin(a: Cpx, r: real, t: Cpx, w: real, x: Cpx, l: real)
    requires Within(Exact(a), r) && Within(Exact(t), w) && Exact(x) == CMult(Exact(a), Exact(t)) && l == r * w
    ensures Within(Exact(x), l)
  {
    WithinProduct(Exact(a), r, Exact(t), w);
  }

  /** A rotation by a twiddle factor never lengthens a sample by more than the rounding. */
  lemma RotatedWithin(a: Cpx, r: real, t: Cpx, w: real, f: nat, p: real, u: real)
    requires Scale(f, p, u) && Within(Exact(a), r) && Within(Exact(t), w) && w <= p
    ensures Within(Exact(CMul(a, t, f)), r + SLACK)
  {
    var x, l := Product(a, t), r * w;
    ProductExact(a, t);
    ProductWithin(a, r, t, w, x, l);
    LengthKept(r, p, u, w, l);
    RoundedUnit(x, l, f, p, u, r, CMul(a, t, f));
  }

  lemma RoundedUnit(x: Cpx, l: real, f: nat, p: real, u: real, r: real, d: Cpx)
    requires Scale(f, p, u) && Within(Exact(x), l) && u * l <= r && d == Cpx(Round(x.r, f), Round(x.i, f))
    ensures Within(Exact(d), r + SLACK)
  {
    RoundIsNear(x.r, f, p, u);
    RoundIsNear(x.i, f, p, u);
    RoundedFactor(x, l, u, d);
    WithinMore(Exact(d), u * l + SLACK, r + SLACK);
  }

  lemma LengthKept(r: real, p: real, u: real, w: real, l: real)
    requires r >= 0.0 && u > 0.0 && u * p == 1.0 && 0.0 <= w <= p && l == r * w
    ensures u * l <= r
  {
    ProductOrder(r, w, r, p);
    Regroup(u, p, r);
    assert r * p == p * r;
    ProductOrder(u, l, u, p * r);
  }

  // ---- one rotated sample

  /** The sample lies in the disc of radius r; integer arithmetic decides it. */
  predicate Disc(c: Cpx, r: nat) { Mul(c.r, c.r) + Mul(c.i, c.i) <= Mul(r, r) }

  lemma DiscWithin(c: Cpx, r: nat)
    ensures Disc(c, r) <==> Within(Exact(c), r as real)
  {
    assert Squares(0);
    RealProduct(c.r, c.r);
    RealProduct(c.i, c.i);
    RealProduct(r, r);
  }

  lemma DiscInside(c: Cpx, r: nat, f: nat)
    requires Disc(c, r) && r <= SampMax(f)
    ensures Inside(c, f)
  {
    DiscWithin(c, r);
    WithinPart(Exact(c), r as real);
  }

  /** Both parts are at most n in size. */
  predicate Bounded(c: Cpx, n: int) { -n <= c.r <= n && -n <= c.i <= n }

  /** A product this short rounds to at most q in both parts. */
  lemma ShortProduct(x: Cpx, l: real, q: int, f: nat, p: real)
    requires f >= 1 && p == Pow2(f) as real && Within(Exact(x), l) && l < q as real * p + p / 2.0
    ensures Bounded(Cpx(Round(x.r, f), Round(x.i, f)), q)
  {
    WithinPart(Exact(x), l);
    ShortPart(x.r, l, q, f, p);
    ShortPart(x.i, l, q, f, p);
  }

  lemma ShortPart(x: int, l: real, q: int, f: nat, p: real)
    requires f >= 1 && p == Pow2(f) as real && -l <= x as real <= l && l < q as real * p + p / 2.0
    ensures -q <= Round(x, f) <= q
  {
    var m := Mul(q, Pow2(f));
    RealProduct(q, Pow2(f));
    assert m as real == q as real * p;
    Opposite(q, Pow2(f));
    assert -(m as real + p / 2.0) < x as real < m as real + p / 2.0;
    assert -m - Pow2(f - 1) <= x < m + Pow2(f - 1);
    RoundAtMostIff(x, q, f);
    RoundAtMostIff(x, -q, f);
  }

  lemma Opposite(q: int, p: int)
    ensures Mul(-q, p) == -Mul(q, p)
  {
  }

  lemma RotatedBounded(h: Cpx, r: real, t: Cpx, w: real, l: real, q: int, f: nat, p: real)
    requires f >= 1 && p == Pow2(f) as real && Within(Exact(h), r) && Within(Exact(t), w)
    requires l == r * w && l < q as real * p + p / 2.0
    ensures Bounded(CMul(h, t, f), q)
  {
    ProductExact(h, t);
    ProductWithin(h, r, t, w, Product(h, t), l);
    ShortProduct(Product(h, t), l, q, f, p);
  }

  /** The length of a scaled and rotated sample of the full disc. */
  lemma FullLength(q: real, p: real, v: real, r: real, w: real, l: real)
    requires 0.0 <= v <= 0.5 && v * p == q && 6.0 * q >= p
    requires 0.0 <= r <= q - v + SLACK && 0.0 <= w <= p - 1.0 + SLACK && l == r * w
    ensures l < q * p + p / 2.0
  {
    var m := q - v + SLACK;
    ProductOrder(r, w, m, p - 1.0 + SLACK);
    assert m * (p - 1.0 + SLACK) == m * p - m * (2.0 / 7.0);
    assert m * p == q * p - v * p + SLACK * p;
  }

  /** In radix 2 to 5 the quotient SAMP_MAX/k is at least a sixth of the scale, or at most 1. */
  lemma RadixQuotient(k: nat, f: nat)
    requires f >= 1 && 2 <= k <= 5
    ensures Step(f, k) <= 1 || 6 * Step(f, k) >= Pow2(f)
  {
    FloorParts(SampMax(f), k);
    if f >= 5 { AtLeast32(f); } else { assert Pow2(1) == 2 && Pow2(2) == 4; assert Pow2(4) == 2 * Pow2(3); }
  }

  lemma {:induction false} AtLeast32(f: nat)
    requires f >= 5
    ensures Pow2(f) >= 32
  {
    if f > 5 { AtLeast32(f - 1); } else { assert Pow2(3) == 8; }
  }

  /**
   A sample of the full disc, scaled for radix 2 to 5 and rotated by any entry of the twiddle table, is
   again no larger than SAMP_MAX/k in either part.
   */
  lemma RotatedBound(b: Cpx, t: Cpx, k: nat, f: nat)
    requires f >= 1 && 2 <= k <= 5 && Disc(b, SampMax(f)) && Twiddle(t, f)
    ensures Bounded(CMul(Scaled(b, k, f), t, f), Step(f, k))
  {
    var p, u := ScaleOf(f);
    TwiddleWithin(t, f, p);
    RadixQuotient(k, f);
    if Step(f, k) <= 1 {
      DiscInside(b, SampMax(f), f);
      DivScalarBound(b.r, k, f);
      DivScalarBound(b.i, k, f);
      SmallRotated(Scaled(b, k, f), t, p - 1.0 + SLACK, Step(f, k), f, p);
    } else {
      DiscWithin(b, SampMax(f));
      LargeRotated(b, SampMax(f) as real, t, p - 1.0 + SLACK, k, f, p, u, Scaled(b, k, f));
    }
  }

  lemma ScaleOf(f: nat) returns (p: real, u: real)
    requires f >= 1
    ensures Scale(f, p, u)
  {
    p := Pow2(f) as real;
    u := 1.0 / p;
  }

  lemma SmallRotated(h: Cpx, t: Cpx, w: real, q: int, f: nat, p: real)
    requires f >= 1 && p == Pow2(f) as real && 0 <= q <= 1 && Bounded(h, q) && Within(Exact(t), w) && w < p
    ensures Bounded(CMul(h, t, f), q)
  {
    SmallWithin(h, q);
    var r := 1.5 * q as real;
    var l := r * w;
    assert q == 0 || q == 1;
    assert if q == 0 then l == 0.0 else l == 1.5 * w;
    RotatedBounded(h, r, t, w, l, q, f, p);
  }

  lemma SmallWithin(h: Cpx, q: int)
    requires 0 <= q <= 1 && Bounded(h, q)
    ensures Within(Exact(h), 1.5 * q as real)
  {
    var x := Exact(h);
    UnitSquare(h.r, q);
    UnitSquare(h.i, q);
    assert 1.5 * q as real * (1.5 * q as real) == 2.25 * q as real;
    assert Power(x) <= 2.0 * q as real;
  }

  lemma UnitSquare(n: int, q: int)
    requires 0 <= q <= 1 && -q <= n <= q
    ensures n as real * n as real <= q as real
  {
    assert n == 0 || n == 1 || n == -1;
  }

  lemma LargeRotated(b: Cpx, s: real, t: Cpx, w: real, k: nat, f: nat, p: real, u: real, h: Cpx)
    requires Scale(f, p, u) && k >= 2 && h == Scaled(b, k, f) && s <= p - 1.0 && Within(Exact(b), s)
    requires w <= p - 1.0 + SLACK && Within(Exact(t), w) && 6 * Step(f, k) >= Pow2(f)
    ensures Bounded(CMul(h, t, f), Step(f, k))
  {
    var q := Step(f, k);
    var v, r := ScaledFull(b, s, k, f, p, u, h);
    var l := r * w;
    FullLength(q as real, p, v, r, w, l);
    RotatedBounded(h, r, t, w, l, q, f, p);
  }

  lemma ScaledFull(b: Cpx, s: real, k: nat, f: nat, p: real, u: real, h: Cpx) returns (v: real, r: real)
    requires Scale(f, p, u) && k >= 2 && h == Scaled(b, k, f) && s <= p - 1.0 && Within(Exact(b), s)
    ensures Within(Exact(h), r) && 0.0 <= v <= 0.5 && v * p == Step(f, k) as real && r <= Step(f, k) as real - v + SLACK
  {
    v := FactorOf(k, f, p, u);
    assert 2.0 * v <= k as real * v by { ProductOrder(2.0, v, k as real, v); }
    ScaledWithin(b, s, k, f, p, u, v);
    r := v * s + SLACK;
    Shrunk(v, s, p, Step(f, k) as real, r);
  }

  lemma Shrunk(v: real, s: real, p: real, q: real, r: real)
    requires v >= 0.0 && 0.0 <= s <= p - 1.0 && v * p == q && r == v * s + SLACK
    ensures r <= q - v + SLACK
  {
    ProductOrder(v, s, v, p - 1.0);
  }

  /** The factor of C_FIXDIV. */
  lemma FactorOf(k: nat, f: nat, p: real, u: real) returns (v: real)
    requires Scale(f, p, u) && k >= 1
    ensures 0.0 <= v && k as real * v <= 1.0 && v * p == Step(f, k) as real
  {
    var q := Step(f, k);
    StepAtMost(SampMax(f), k);
    RealProduct(k, q);
    v := QuotientOf(k as real, q as real, p, u);
  }

  lemma QuotientOf(k: real, q: real, p: real, u: real) returns (v: real)
    requires u > 0.0 && u * p == 1.0 && 0.0 <= q && 0.0 <= k * q <= p
    ensures 0.0 <= v && k * v <= 1.0 && v * p == q
  {
    v := u * q;
    ProductOrder(u, k * q, u, p);
    Regroup(q, u, p);
    Regroup(k, u, q);
    assert u * (k * q) == k * (u * q);
  }
}
