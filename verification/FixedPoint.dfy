/**
 The fixed-point arithmetic of the FFT: samples with F fraction bits, rounded products, and the
 scaling by the radix that precedes every butterfly.
 */
module FixedPoint {
  import opened Bits

  /** SAMP_MAX; F is FRACBITS, 15 or 31 in the source. */
  function SampMax(f: nat): (s: int)
    ensures s >= 0
  {
    Pow2(f) - 1
  }

  predicate InRange(x: int, f: nat) { -SampMax(f) <= x <= SampMax(f) }

  /** sround(), before the conversion to a sample: adds half a unit and shifts the fraction out. */
  function Round(x: int, f: nat): int
    requires f >= 1
  {
    (x + Pow2(f - 1)) / Pow2(f)
  }

  /** C's integer quotient of positive numbers. */
  function Step(f: nat, k: nat): (q: int)
    requires k >= 1
    ensures q >= 0
  {
    FloorParts(SampMax(f), k);
    SampMax(f) / k
  }

  /** DIVSCALAR(x, k) */
  function DivScalar(x: int, k: nat, f: nat): int
    requires f >= 1 && k >= 1
  {
    Round(x * Step(f, k), f)
  }

  datatype Cpx = Cpx(r: int, i: int)

  function Mul(x: int, y: int): int { x * y }

  /** C_MUL before the conversion. */
  function CMul(a: Cpx, b: Cpx, f: nat): Cpx
    requires f >= 1
  {
    Cpx(Round(Mul(a.r, b.r) - Mul(a.i, b.i), f), Round(Mul(a.r, b.i) + Mul(a.i, b.r), f))
  }

  /** C_FIXDIV, in place on both parts. */
  method CFixDiv(c: Cpx, div: nat, f: nat) returns (d: Cpx)
    requires f >= 1 && div >= 1 && InRange(c.r, f) && InRange(c.i, f)
    ensures d == Cpx(DivScalar(c.r, div, f), DivScalar(c.i, div, f))
    ensures -Step(f, div) <= d.r <= Step(f, div) && -Step(f, div) <= d.i <= Step(f, div)
  {
    d := c;
    d := d.(r := Round(d.r * (SampMax(f) / div), f));
    d := d.(i := Round(d.i * (SampMax(f) / div), f));
    DivScalarBound(c.r, div, f);
    DivScalarBound(c.i, div, f);
  }

  /** Rounding is to the nearest: the error is at most half a unit. */
  lemma RoundNearest(x: int, f: nat)
    requires f >= 1
    ensures -(Pow2(f - 1) as int) <= x - Pow2(f) * Round(x, f) < Pow2(f - 1)
  {
    var p, h := Pow2(f), Pow2(f - 1);
    assert p == 2 * h;
    FloorParts(x + h, p);
  }

  lemma FloorParts(y: int, p: nat)
    requires p >= 1
    ensures 0 <= y - p * (y / p) < p
  {
  }

  lemma MulGrows(d: int, p: nat)
    requires d >= 1 && p >= 1
    ensures p * d >= p
  {
  }

  /** Which exact values round to at most n, and to at least n. */
  lemma RoundAtMostIff(x: int, n: int, f: nat)
    requires f >= 1
    ensures Round(x, f) <= n <==> x < Mul(n, Pow2(f)) + Pow2(f - 1)
    ensures Round(x, f) >= n <==> x >= Mul(n, Pow2(f)) - Pow2(f - 1)
  {
    var p, r := Pow2(f), Round(x, f);
    RoundNearest(x, f);
    assert p * r == Mul(r, p) && p * (r - n) == Mul(r, p) - Mul(n, p);
    if r > n { MulGrows(r - n, p); } else if r < n { MulGrows(n - r, p); assert p * (n - r) == -(p * (r - n)); }
  }

  /** A scaled sample is no larger than SAMP_MAX / k, rounded down, on either side. */
  lemma DivScalarBound(x: int, k: nat, f: nat)
    requires f >= 1 && k >= 1 && InRange(x, f)
    ensures -Step(f, k) <= DivScalar(x, k, f) <= Step(f, k)
  {
    var s, q := SampMax(f), Step(f, k);
    ProductBound(x, s, q);
    Complement(Pow2(f), q);
    RoundAtMostIff(x * q, q, f);
    RoundAtMostIff(x * q, -q, f);
  }

  lemma Complement(p: int, q: int)
    ensures (p - 1) * q == Mul(q, p) - q && Mul(-q, p) == -Mul(q, p)
  {
  }

  lemma StepAtMost(s: int, k: nat)
    requires k >= 1 && s >= 0
    ensures s / k <= s && k * (s / k) <= s
  {
    FloorParts(s, k);
    MulAtLeast(s / k, k);
  }

  lemma MulAtLeast(x: int, k: nat)
    requires k >= 1 && x >= 0
    ensures x <= k * x
  {
  }

  lemma ProductBound(x: int, s: int, q: int)
    requires q >= 0 && -s <= x <= s
    ensures -(s * q) <= x * q <= s * q
  {
  }

  function Sum(t: seq<int>): int {
    if t == [] then 0 else Sum(t[..|t| - 1]) + t[|t| - 1]
  }

  lemma {:induction false} SumBound(t: seq<int>, q: int)
    requires forall i :: 0 <= i < |t| ==> -q <= t[i] <= q
    ensures -(|t| * q) <= Sum(t) <= |t| * q
  {
    if t != [] {
      SumBound(t[..|t| - 1], q);
      assert |t| * q == (|t| - 1) * q + q;
    }
  }

  /** The sum of at most k samples, each first scaled by k, never overflows; nor does any partial sum. */
  lemma ScaledSumInRange(x: seq<int>, t: seq<int>, k: nat, f: nat)
    requires f >= 1 && k >= 1 && |t| == |x| <= k
    requires forall i :: 0 <= i < |x| ==> InRange(x[i], f) && t[i] == DivScalar(x[i], k, f)
    ensures InRange(Sum(t), f)
  {
    var q := Step(f, k);
    forall i | 0 <= i < |t| ensures -q <= t[i] <= q { DivScalarBound(x[i], k, f); }
    SumBound(t, q);
    StepAtMost(SampMax(f), k);
    MulOrder(|t|, k, q);
  }

  lemma MulOrder(a: int, b: int, q: int)
    requires a <= b && q >= 0
    ensures a * q <= b * q
  {
  }

  // ---- products

  /** The exact products of C_MUL, with the rounding term added, fit the product type of 2F + 2 bits. */
  lemma ProductFits(a: Cpx, b: Cpx, f: nat)
    requires f >= 1 && InRange(a.r, f) && InRange(a.i, f) && InRange(b.r, f) && InRange(b.i, f)
    ensures var limit := 2 * Pow2(f + f);
            -limit < Mul(a.r, b.r) - Mul(a.i, b.i) && Mul(a.r, b.r) - Mul(a.i, b.i) + Pow2(f - 1) < limit
            && -limit < Mul(a.r, b.i) + Mul(a.i, b.r) && Mul(a.r, b.i) + Mul(a.i, b.r) + Pow2(f - 1) < limit
  {
    var s := SampMax(f);
    OneProduct(a.r, b.r, s);
    OneProduct(a.i, b.i, s);
    OneProduct(a.r, b.i, s);
    OneProduct(a.i, b.r, s);
    Pow2Add(f, f);
    SquareRoom(Pow2(f), Pow2(f - 1));
  }

  lemma SquareRoom(p: int, h: int)
    requires p == 2 * h && h >= 1
    ensures 2 * ((p - 1) * (p - 1)) + h < 2 * (p * p)
  {
    assert (p - 1) * (p - 1) == p * p - 2 * p + 1;
  }

  lemma OneProduct(x: int, y: int, s: int)
    requires -s <= x <= s && -s <= y <= s
    ensures -(s * s) <= Mul(x, y) <= s * s
  {
    ProductBound(x, s, if y >= 0 then y else -y);
    MulOrder(if y >= 0 then y else -y, s, s);
    if y < 0 { assert x * (-y) == -(x * y); }
    assert s * (if y >= 0 then y else -y) == (if y >= 0 then y else -y) * s;
  }

  /** Each part of a complex product is within half a unit of the exact value. */
  lemma CMulNearest(a: Cpx, b: Cpx, f: nat)
    requires f >= 1
    ensures var m := CMul(a, b, f);
            var re, im := Mul(a.r, b.r) - Mul(a.i, b.i), Mul(a.r, b.i) + Mul(a.i, b.r);
            -(Pow2(f - 1) as int) <= re - Pow2(f) * m.r < Pow2(f - 1) && -(Pow2(f - 1) as int) <= im - Pow2(f) * m.i < Pow2(f - 1)
  {
    RoundNearest(Mul(a.r, b.r) - Mul(a.i, b.i), f);
    RoundNearest(Mul(a.r, b.i) + Mul(a.i, b.r), f);
  }

  /**
   The scaling does not cover the rotation by a twiddle factor: with 15 fraction bits, two full-scale
   corner samples and an eighth turn, the radix-2 butterfly's sum leaves the sample range.
   */
  lemma TwiddleOverflow()
    ensures var x, tw := Cpx(32767, 32767), Cpx(23170, -23170);
            InRange(x.r, 15) && InRange(x.i, 15) && InRange(tw.r, 15) && InRange(tw.i, 15) &&
            var half := Cpx(DivScalar(x.r, 2, 15), DivScalar(x.i, 2, 15));
            !InRange(half.r + CMul(half, tw, 15).r, 15)
  {
    Fifteen();
    assert DivScalar(32767, 2, 15) == 16383;
    assert Mul(16383, 23170) - Mul(16383, -23170) == 759188220;
  }

  lemma Fifteen()
    ensures Pow2(14) == 16384 && Pow2(15) == 32768
  {
    assert Pow2(7) == 128;
    Pow2Add(7, 7);
  }

  /** DIVSCALAR divides by k: the quotient is off by less than one and a half. */
  lemma DivScalarDivides(x: int, k: nat, f: nat)
    requires f >= 1 && k >= 1 && InRange(x, f)
    ensures -3 * k < 2 * (k * DivScalar(x, k, f) - x) < 3 * k
  {
    var p, q, d := Pow2(f), Step(f, k), DivScalar(x, k, f);
    assert p == 2 * Pow2(f - 1);
    FloorParts(p - 1, k);
    RoundNearest(x * q, f);
    DividedBy(x, k, p, q, d);
  }

  lemma DividedBy(x: int, k: int, p: int, q: int, d: int)
    requires k >= 1 && -p < x < p && p - k <= k * q <= p - 1 && -p <= 2 * (x * q - p * d) <= p
    ensures -3 * k < 2 * (k * d - x) < 3 * k
  {
    var e, g := 2 * (x * q - p * d), p - k * q;
    Cleared(x, k, p, q, d);
    Magnitude(k, e, p);
    SmallFactor(x, g, p, k);
    Bounds(p, k, 2 * (k * d - x), x * g, k * e);
  }

  lemma Cleared(x: int, k: int, p: int, q: int, d: int)
    ensures p * (2 * (k * d - x)) == -2 * (x * (p - k * q)) - k * (2 * (x * q - p * d))
  {
    assert x * (k * q) == k * (x * q) && p * (k * d) == k * (p * d);
  }

  lemma Bounds(p: int, k: int, h: int, xg: int, ke: int)
    requires p >= 0 && p * h == -2 * xg - ke && -(p * k) < xg < p * k && -(k * p) <= ke <= k * p
    ensures -3 * k < h < 3 * k
  {
    assert p * (3 * k) == 3 * (p * k);
    Smaller(h, p, 3 * k);
  }

  lemma Magnitude(k: int, e: int, p: int)
    requires k >= 0 && -p <= e <= p
    ensures -(k * p) <= k * e <= k * p
  {
  }

  lemma SmallFactor(x: int, g: int, p: int, k: int)
    requires -p < x < p && 0 <= g <= k && k >= 1
    ensures -(p * k) < x * g < p * k
  {
    Magnitude(g, x, p - 1);
    Magnitude(p - 1, g, k);
    assert g * x == x * g && g * (p - 1) == (p - 1) * g && (p - 1) * k == p * k - k;
  }

  lemma Smaller(h: int, p: int, n: int)
    requires p >= 0 && -(p * n) < p * h < p * n
    ensures -n < h < n
  {
    assert p * -h == -(p * h);
    if h >= n { NoSmaller(p, n, h); } else if h <= -n { NoSmaller(p, n, -h); }
  }

  lemma NoSmaller(p: int, a: int, b: int)
    requires p >= 0 && a <= b
    ensures p * a <= p * b
  {
  }
}
