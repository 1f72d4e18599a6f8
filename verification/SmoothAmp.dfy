/**
 Smoothing of the harmonic amplitudes above 2 kHz: every harmonic is given the root mean square
 amplitude of its frequency bin.
 */
module SmoothAmp {

  const FS: real := 8000.0
  const TWO_PI: real := 6.283185307
  const MAX_BINS := 40
  const BINS: seq<real> := [2000.0, 2400.0, 2800.0, 3000.0, 3400.0, 3600.0, 4000.0]

  /** The frequency of harmonic m in Hz. */
  function Freq(m: nat, wo: real): real { m as real * wo * FS / TWO_PI }

  /** The bin edges (lo, hi] around a frequency in (2000, 4000]. */
  function BinAt(f: real): (b: nat)
    ensures b < 6
  {
    if f <= 2400.0 then 0 else if f <= 2800.0 then 1 else if f <= 3000.0 then 2
    else if f <= 3400.0 then 3 else if f <= 3600.0 then 4 else 5
  }

  /** The bin of harmonic m, or 6 when it is not smoothed. */
  function BinOf(m: nat, wo: real): (b: nat)
    ensures b <= 6
  {
    if Freq(m, wo) > 2000.0 then BinAt(Freq(m, wo)) else 6
  }

  /** A frequency above 2 kHz and up to 4 kHz lies in exactly one bin. */
  lemma OneBin(f: real, i: nat)
    requires 2000.0 < f <= 4000.0 && i < 6
    ensures (f > BINS[i] && f <= BINS[i + 1]) <==> i == BinAt(f)
  {
  }

  /** Harmonic m of a fundamental of h Hz is at m times h Hz. */
  lemma HarmonicAt(m: nat, h: real)
    ensures Freq(m, TWO_PI * h / FS) == m as real * h
  {
    var wo := TWO_PI * h / FS;
    assert wo * FS / TWO_PI == h;
    assert m as real * wo * FS / TWO_PI == m as real * (wo * FS / TWO_PI);
  }

  /** Up to 4 kHz a harmonic is in bin i exactly when it lies between the edges i and i + 1 of the table. */
  lemma BinEdges(m: nat, wo: real, i: nat)
    requires Freq(m, wo) <= 4000.0 && i < 6
    ensures BinOf(m, wo) == i <==> BINS[i] < Freq(m, wo) <= BINS[i + 1]
  {
    if Freq(m, wo) > 2000.0 { OneBin(Freq(m, wo), i); }
  }

  function Sq(x: real): real { x * x }

  /** The power of the first n harmonics in bin b, and how many there are. */
  function PowerIn(a: seq<real>, wo: real, b: nat, n: nat): real
    requires n < |a|
  {
    if n == 0 then 0.0 else PowerIn(a, wo, b, n - 1) + (if BinOf(n, wo) == b then Sq(a[n]) else 0.0)
  }

  function CountIn(wo: real, b: nat, n: nat): nat {
    if n == 0 then 0 else CountIn(wo, b, n - 1) + (if BinOf(n, wo) == b then 1 else 0)
  }

  /** The mean power of bin b. */
  function MeanIn(a: seq<real>, wo: real, b: nat, l: nat): real
    requires l < |a|
  {
    if CountIn(wo, b, l) == 0 then 0.0 else PowerIn(a, wo, b, l) / CountIn(wo, b, l) as real
  }

  /** The defining law of the square root. */
  ghost predicate IsSqrt(root: real -> real) {
    forall x: real :: x >= 0.0 ==> root(x) >= 0.0 && Sq(root(x)) == x
  }

  function Smoothed(a: seq<real>, wo: real, l: nat, root: real -> real): (r: seq<real>)
    requires l < |a|
    ensures |r| == |a|
  {
    seq(|a|, m requires 0 <= m < |a| =>
      if 1 <= m <= l && BinOf(m, wo) < 6 then root(MeanIn(a, wo, BinOf(m, wo), l)) else a[m])
  }

  ghost predicate InBand(l: nat, wo: real) {
    forall m :: 0 <= m <= l ==> Freq(m, wo) <= 4000.0
  }

  /** Tries every bin and keeps the last one that contains f; the entry behind the last edge is not read up to 4 kHz. */
  method FindBin(f: real, before: nat) returns (b: nat)
    requires 2000.0 < f <= 4000.0
    ensures b == BinAt(f)
  {
    b := before;
    for i := 0 to |BINS|
      invariant i > BinAt(f) ==> b == BinAt(f)
    {
      if i < 6 { OneBin(f, i); }
      if f > BINS[i] && f <= BINS[i + 1] {
        b := i;
      }
    }
  }

  /** The first pass: add every harmonic's power into its bin. */
  method Accumulate(a: seq<real>, wo: real, l: nat, av: array<real>, nav: array<nat>)
    requires l < |a| && InBand(l, wo) && av.Length == nav.Length == MAX_BINS
    modifies av, nav
    ensures forall j :: 0 <= j < 6 ==> av[j] == PowerIn(a, wo, j, l) && nav[j] == CountIn(wo, j, l)
  {
    for i := 0 to MAX_BINS
      invariant forall j :: 0 <= j < i ==> av[j] == 0.0 && nav[j] == 0
    {
      av[i], nav[i] := 0.0, 0;
    }
    var b := 0;
    for m := 1 to l + 1
      invariant forall j :: 0 <= j < 6 ==> av[j] == PowerIn(a, wo, j, m - 1) && nav[j] == CountIn(wo, j, m - 1)
    {
      var f := Freq(m, wo);
      assert f <= 4000.0;
      if f > BINS[0] {
        b := FindBin(f, b);
        assert b == BinOf(m, wo);
        av[b] := av[b] + a[m] * a[m];
        nav[b] := nav[b] + 1;
      } else {
        assert BinOf(m, wo) == 6;
      }
    }
  }

  /** smooth_amp() */
  method Smooth(a: array<real>, wo: real, l: nat, root: real -> real)
    requires l < a.Length && InBand(l, wo)
    modifies a
    ensures a[..] == Smoothed(old(a[..]), wo, l, root)
  {
    var av, nav := new real[MAX_BINS], new nat[MAX_BINS];
    ghost var before := a[..];
    Accumulate(a[..], wo, l, av, nav);
    ghost var sums, counts := av[..], nav[..];
    ghost var target := Smoothed(before, wo, l, root);
    var b := 0;
    for m := 1 to l + 1
      invariant av[..] == sums && nav[..] == counts
      invariant forall j :: 0 <= j < m ==> a[j] == target[j]
      invariant forall j :: m <= j < a.Length ==> a[j] == before[j]
    {
      var f := Freq(m, wo);
      assert f <= 4000.0;
      if f > BINS[0] {
        b := FindBin(f, b);
        assert b == BinOf(m, wo);
        Counted(wo, m, l);
        assert av[b] == sums[b] == PowerIn(before, wo, b, l) && nav[b] == counts[b] == CountIn(wo, b, l);
        var mean := av[b] / nav[b] as real;
        assert mean == MeanIn(before, wo, b, l);
        a[m] := root(mean);
      } else {
        assert BinOf(m, wo) == 6;
      }
      assert a[m] == target[m];
    }
  }

  /** A bin that holds a harmonic is not empty. */
  lemma {:induction false} Counted(wo: real, m: nat, n: nat)
    requires 1 <= m <= n
    ensures CountIn(wo, BinOf(m, wo), n) > 0
  {
    if m < n { Counted(wo, m, n - 1); }
  }

  // ---- power is conserved

  lemma {:induction false} PowerNonNegative(a: seq<real>, wo: real, b: nat, n: nat)
    requires n < |a|
    ensures PowerIn(a, wo, b, n) >= 0.0
  {
    if n > 0 { PowerNonNegative(a, wo, b, n - 1); assert Sq(a[n]) >= 0.0; }
  }

  lemma MeanNonNegative(a: seq<real>, wo: real, b: nat, l: nat)
    requires l < |a|
    ensures MeanIn(a, wo, b, l) >= 0.0
  {
    PowerNonNegative(a, wo, b, l);
    var c := CountIn(wo, b, l);
    if c > 0 { QuotientNonNegative(PowerIn(a, wo, b, l), c as real); }
  }

  lemma QuotientNonNegative(p: real, c: real)
    requires p >= 0.0 && c > 0.0
    ensures p / c >= 0.0
  {
  }

  function Times(c: nat, v: real): real { c as real * v }

  /** When every harmonic of a bin has power v, the bin has count * v. */
  lemma {:induction false} EqualShares(r: seq<real>, wo: real, b: nat, n: nat, v: real)
    requires n < |r| && forall m :: 1 <= m <= n && BinOf(m, wo) == b ==> Sq(r[m]) == v
    ensures PowerIn(r, wo, b, n) == Times(CountIn(wo, b, n), v)
  {
    if n > 0 {
      EqualShares(r, wo, b, n - 1, v);
      if BinOf(n, wo) == b { OneMore(CountIn(wo, b, n - 1), v); }
    }
  }

  lemma OneMore(c: nat, v: real)
    ensures Times(c + 1, v) == Times(c, v) + v
  {
  }

  lemma ShareOut(p: real, c: nat)
    requires c > 0
    ensures Times(c, p / c as real) == p
  {
  }

  /** The power of every bin is the same before and after. */
  lemma BinPowerKept(a: seq<real>, wo: real, l: nat, root: real -> real, b: nat)
    requires l < |a| && IsSqrt(root) && b <= 6
    ensures PowerIn(Smoothed(a, wo, l, root), wo, b, l) == PowerIn(a, wo, b, l)
  {
    var r := Smoothed(a, wo, l, root);
    if b < 6 {
      var v := MeanIn(a, wo, b, l);
      MeanNonNegative(a, wo, b, l);
      assert Sq(root(v)) == v;
      EqualShares(r, wo, b, l, v);
      var c := CountIn(wo, b, l);
      if c > 0 { ShareOut(PowerIn(a, wo, b, l), c); } else { EmptyBin(a, wo, b, l); EmptyBin(r, wo, b, l); }
    } else {
      SamePower(a, r, wo, b, l);
    }
  }

  lemma {:induction false} EmptyBin(a: seq<real>, wo: real, b: nat, n: nat)
    requires n < |a| && CountIn(wo, b, n) == 0
    ensures PowerIn(a, wo, b, n) == 0.0
  {
    if n > 0 { EmptyBin(a, wo, b, n - 1); }
  }

  lemma {:induction false} SamePower(a: seq<real>, r: seq<real>, wo: real, b: nat, n: nat)
    requires n < |a| == |r| && forall m :: 1 <= m <= n && BinOf(m, wo) == b ==> r[m] == a[m]
    ensures PowerIn(r, wo, b, n) == PowerIn(a, wo, b, n)
  {
    if n > 0 { SamePower(a, r, wo, b, n - 1); }
  }

  function TotalPower(a: seq<real>, n: nat): real
    requires n < |a|
  {
    if n == 0 then 0.0 else TotalPower(a, n - 1) + Sq(a[n])
  }

  function BinSum(a: seq<real>, wo: real, n: nat): real
    requires n < |a|
  {
    PowerIn(a, wo, 0, n) + PowerIn(a, wo, 1, n) + PowerIn(a, wo, 2, n) + PowerIn(a, wo, 3, n)
    + PowerIn(a, wo, 4, n) + PowerIn(a, wo, 5, n) + PowerIn(a, wo, 6, n)
  }

  /** Every harmonic is in exactly one class, so the classes add up to the whole. */
  lemma {:induction false} ClassesAddUp(a: seq<real>, wo: real, n: nat)
    requires n < |a|
    ensures TotalPower(a, n) == BinSum(a, wo, n)
  {
    if n > 0 {
      ClassesAddUp(a, wo, n - 1);
      assert BinOf(n, wo) <= 6;
    }
  }

  /** Smoothing keeps the total power of the frame. */
  lemma TotalPowerKept(a: seq<real>, wo: real, l: nat, root: real -> real)
    requires l < |a| && IsSqrt(root)
    ensures TotalPower(Smoothed(a, wo, l, root), l) == TotalPower(a, l)
  {
    var r := Smoothed(a, wo, l, root);
    ClassesAddUp(a, wo, l);
    ClassesAddUp(r, wo, l);
    BinPowerKept(a, wo, l, root, 0);
    BinPowerKept(a, wo, l, root, 1);
    BinPowerKept(a, wo, l, root, 2);
    BinPowerKept(a, wo, l, root, 3);
    BinPowerKept(a, wo, l, root, 4);
    BinPowerKept(a, wo, l, root, 5);
    BinPowerKept(a, wo, l, root, 6);
  }

  /** A second application changes nothing. */
  lemma SmoothIsIdempotent(a: seq<real>, wo: real, l: nat, root: real -> real)
    requires l < |a| && IsSqrt(root)
    ensures Smoothed(Smoothed(a, wo, l, root), wo, l, root) == Smoothed(a, wo, l, root)
  {
    var r := Smoothed(a, wo, l, root);
    forall m | 0 <= m < |a| ensures Smoothed(r, wo, l, root)[m] == r[m] {
      if 1 <= m <= l && BinOf(m, wo) < 6 {
        var b := BinOf(m, wo);
        BinPowerKept(a, wo, l, root, b);
        assert MeanIn(r, wo, b, l) == MeanIn(a, wo, b, l);
      }
    }
  }

  /**
   On amplitudes that are not negative, smoothing changes nothing exactly when every bin is level.
   */
  lemma FixedIffLevel(a: seq<real>, wo: real, l: nat, root: real -> real)
    requires l < |a| && IsSqrt(root) && forall m :: 1 <= m <= l ==> a[m] >= 0.0
    ensures Smoothed(a, wo, l, root) == a <==> Level(a, wo, l)
  {
    var r := Smoothed(a, wo, l, root);
    if r == a {
      forall m, n | 1 <= m <= l && 1 <= n <= l && BinOf(m, wo) == BinOf(n, wo) < 6 ensures a[m] == a[n] {
        assert a[m] == r[m] && a[n] == r[n];
      }
    }
    if Level(a, wo, l) {
      forall m | 0 <= m < |a| ensures r[m] == a[m] {
        if 1 <= m <= l && BinOf(m, wo) < 6 {
          var b := BinOf(m, wo);
          EqualShares(a, wo, b, l, Sq(a[m]));
          Counted(wo, m, l);
          var c := CountIn(wo, b, l);
          TimesInverse(c, Sq(a[m]), PowerIn(a, wo, b, l));
          assert MeanIn(a, wo, b, l) == Sq(a[m]);
          MeanNonNegative(a, wo, b, l);
          SameRoot(root(Sq(a[m])), a[m]);
        }
      }
    }
  }

  ghost predicate Level(a: seq<real>, wo: real, l: nat)
    requires l < |a|
  {
    forall m, n :: 1 <= m <= l && 1 <= n <= l && BinOf(m, wo) == BinOf(n, wo) < 6 ==> a[m] == a[n]
  }

  lemma TimesInverse(c: nat, v: real, p: real)
    requires c > 0 && p == Times(c, v)
    ensures p / c as real == v
  {
  }

  lemma SameRoot(x: real, y: real)
    requires x >= 0.0 && y >= 0.0 && Sq(x) == Sq(y)
    ensures x == y
  {
    if x < y { SqGrows(x, y); } else if y < x { SqGrows(y, x); }
  }

  lemma SqGrows(x: real, y: real)
    requires 0.0 <= x < y
    ensures Sq(x) < Sq(y)
  {
    var p, q := y - x, y + x;
    Positive(p, q);
    assert p * q == y * y - x * x;
  }

  lemma Positive(p: real, q: real)
    requires p > 0.0 && q > 0.0
    ensures p * q > 0.0
  {
  }
}
