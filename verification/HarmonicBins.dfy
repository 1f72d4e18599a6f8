/**
 The map from harmonic numbers to the 80 frequency bins, index = MAX_AMP * m * Wo / PI with the
 fraction dropped, and the scatter and gather loops that use it.
 */
module HarmonicBins {

  const MAX_AMP := 80
  const PI: real := 3.141592654

  function Bin(m: nat, wo: real): int {
    (80.0 * m as real * wo / PI).Floor
  }

  /** The bin spacing of neighbouring harmonics. */
  function Spacing(wo: real): real { 80.0 * wo / PI }

  /** The whole part of m steps of size s. */
  function Steps(m: nat, s: real): int { (m as real * s).Floor }

  lemma BinIsFloor(m: nat, wo: real)
    ensures Bin(m, wo) == Steps(m, Spacing(wo))
  {
    assert 80.0 * m as real * wo / PI == m as real * (80.0 * wo / PI);
  }

  /** The assertion index < MAX_AMP holds for a harmonic exactly when it lies below PI. */
  lemma BinInRangeIff(m: nat, wo: real)
    requires wo > 0.0
    ensures 0 <= Bin(m, wo) && (Bin(m, wo) < MAX_AMP <==> m as real * wo < PI)
  {
    var x := m as real * wo;
    assert 80.0 * m as real * wo == 80.0 * x;
    assert x >= 0.0;
    var y := 80.0 * x / PI;
    assert y * PI == 80.0 * x;
    assert y < 80.0 <==> x < PI;
    assert y >= 0.0;
  }

  ghost predicate Increasing(l: nat, wo: real) {
    forall m :: 1 <= m < l ==> Bin(m, wo) < Bin(m + 1, wo)
  }

  /** Strictly increasing integers that start at or above 0 gain one per step. */
  lemma {:induction false} Climb(m: nat, l: nat, wo: real)
    requires wo > 0.0 && Increasing(l, wo) && 1 <= m <= l
    ensures Bin(m, wo) >= m - 1
  {
    if m == 1 {
      assert 80.0 * 1.0 * wo / PI >= 0.0;
    } else {
      Climb(m - 1, l, wo);
      assert Bin(m - 1, wo) < Bin(m - 1 + 1, wo);
    }
  }

  /**
   The harmonics 1..l fall into distinct bins exactly when the last one reaches bin l - 1: either
   the spacing is a whole bin or more, or the shortfall of l spacings stays within one bin.
   */
  lemma DistinctIff(l: nat, wo: real)
    requires wo > 0.0 && l >= 1
    ensures Increasing(l, wo) <==> l as real * Spacing(wo) >= (l - 1) as real
  {
    var s := Spacing(wo);
    assert s > 0.0;
    if Increasing(l, wo) {
      Climb(l, l, wo);
      BinIsFloor(l, wo);
    }
    if l as real * s >= (l - 1) as real {
      forall m | 1 <= m < l ensures Bin(m, wo) < Bin(m + 1, wo) {
        NextBin(m, l, wo);
      }
    }
  }

  lemma NextBin(m: nat, l: nat, wo: real)
    requires wo > 0.0 && 1 <= m < l && l as real * Spacing(wo) >= (l - 1) as real
    ensures Bin(m, wo) < Bin(m + 1, wo)
  {
    BinIsFloor(m, wo);
    BinIsFloor(m + 1, wo);
    NextFloor(m, l, Spacing(wo));
  }

  lemma NextFloor(m: nat, l: nat, s: real)
    requires s > 0.0 && 1 <= m < l && l as real * s >= (l - 1) as real
    ensures Steps(m, s) < Steps(m + 1, s)
  {
    if s >= 1.0 {
      StepUp(m, s);
    } else {
      Shortfall(m, l, s);
      Shortfall(m + 1, l, s);
    }
  }

  lemma StepUp(m: nat, s: real)
    requires s >= 1.0
    ensures Steps(m, s) < Steps(m + 1, s)
  {
    assert (m + 1) as real * s == m as real * s + s;
  }

  lemma Shortfall(m: nat, l: nat, s: real)
    requires 0.0 < s < 1.0 && 1 <= m <= l && l as real * s >= (l - 1) as real
    ensures Steps(m, s) == m - 1
  {
    JustBelow(m as real, l as real, s, m as real * s, l as real * s);
  }

  lemma JustBelow(m: real, l: real, s: real, ms: real, ls: real)
    requires 0.0 < s < 1.0 && 1.0 <= m <= l && ms == m * s && ls == l * s && ls >= l - 1.0
    ensures m - 1.0 <= ms < m
  {
    assert m - ms == m * (1.0 - s) && l - ls == l * (1.0 - s);
    Smaller(m, l, 1.0 - s);
  }

  lemma Smaller(m: real, l: real, d: real)
    requires d > 0.0 && 1.0 <= m <= l
    ensures 0.0 < m * d <= l * d
  {
  }

  // ---- scatter and gather

  ghost predicate Fits(l: nat, wo: real) {
    wo > 0.0 && l as real * wo < PI
  }

  lemma HarmonicFits(m: nat, l: nat, wo: real)
    requires Fits(l, wo) && m <= l
    ensures 0 <= Bin(m, wo) < MAX_AMP
  {
    assert m as real * wo <= l as real * wo;
    BinInRangeIff(m, wo);
  }

  /** The array after the first n harmonics have been stored over what it held. */
  ghost function Stored(base: seq<real>, value: seq<real>, n: nat, wo: real): (r: seq<real>)
    requires |base| == MAX_AMP && Fits(n, wo) && n < |value|
    ensures |r| == MAX_AMP
  {
    if n == 0 then base
    else
      HarmonicFits(n, n, wo);
      FewerFit(n, wo);
      Stored(base, value, n - 1, wo)[Bin(n, wo) := value[n]]
  }

  lemma FewerFit(n: nat, wo: real)
    requires Fits(n, wo) && n > 0
    ensures Fits(n - 1, wo)
  {
    assert (n - 1) as real * wo == n as real * wo - wo;
  }

  /** Stores value[m] in the bin of harmonic m; index 0 of value is unused. */
  method Store(sparse: array<real>, value: seq<real>, l: nat, wo: real)
    requires sparse.Length == MAX_AMP && l < |value| && Fits(l, wo)
    modifies sparse
    ensures sparse[..] == Stored(old(sparse[..]), value, l, wo)
  {
    var m := 1;
    ghost var base := sparse[..];
    assert Fits(0, wo);
    while m <= l
      invariant 1 <= m <= l + 1 && Fits(m - 1, wo) && sparse[..] == Stored(base, value, m - 1, wo)
    {
      HarmonicFits(m, l, wo);
      assert m as real * wo <= l as real * wo;
      var index := (80.0 * m as real * wo / PI).Floor;
      sparse[index] := value[m];
      m := m + 1;
    }
  }

  /** The last of the first n harmonics that shares the bin of harmonic m. */
  function LastIn(m: nat, n: nat, wo: real): (k: nat)
    requires 1 <= m <= n
    ensures m <= k <= n && Bin(k, wo) == Bin(m, wo)
    decreases n
  {
    if n == m || Bin(n, wo) == Bin(m, wo) then n else LastIn(m, n - 1, wo)
  }

  /** Reading harmonic m back gives the value of the last harmonic stored in that bin. */
  lemma {:induction false} StoredAt(base: seq<real>, value: seq<real>, n: nat, wo: real, m: nat)
    requires |base| == MAX_AMP && Fits(n, wo) && n < |value| && 1 <= m <= n
    ensures 0 <= Bin(m, wo) < MAX_AMP && Stored(base, value, n, wo)[Bin(m, wo)] == value[LastIn(m, n, wo)]
  {
    HarmonicFits(m, n, wo);
    HarmonicFits(n, n, wo);
    if m < n {
      FewerFit(n, wo);
      StoredAt(base, value, n - 1, wo, m);
    }
  }

  lemma LastIsSelf(m: nat, l: nat, wo: real)
    requires Increasing(l, wo) && 1 <= m <= l
    ensures LastIn(m, l, wo) == m
  {
    var k := LastIn(m, l, wo);
    if m < k { Ordered(m, k, l, wo); }
  }

  lemma {:induction false} Ordered(m: nat, k: nat, l: nat, wo: real)
    requires Increasing(l, wo) && 1 <= m < k <= l
    ensures Bin(m, wo) < Bin(k, wo)
  {
    assert Bin(k - 1, wo) < Bin(k - 1 + 1, wo);
    if m < k - 1 { Ordered(m, k - 1, l, wo); }
  }

  /** Scatter followed by gather returns every harmonic's value, for all values, exactly under the spacing condition. */
  lemma LosslessIff(l: nat, wo: real)
    requires Fits(l, wo) && l >= 1
    ensures l as real * Spacing(wo) >= (l - 1) as real <==> Lossless(l, wo)
  {
    DistinctIff(l, wo);
    if Increasing(l, wo) {
      forall base: seq<real>, value: seq<real>, m: nat | |base| == MAX_AMP && |value| == l + 1 && 1 <= m <= l
        ensures Stored(base, value, l, wo)[BinOf(m, l, wo)] == value[m]
      {
        StoredAt(base, value, l, wo, m);
        LastIsSelf(m, l, wo);
      }
      assert Lossless(l, wo);
    } else {
      var m :| 1 <= m < l && Bin(m, wo) >= Bin(m + 1, wo);
      NotDecreasing(m, wo);
      Clash(m, l, wo);
    }
  }

  function BinOf(m: nat, l: nat, wo: real): (r: nat)
    requires Fits(l, wo) && m <= l
    ensures r < MAX_AMP && r == Bin(m, wo)
  {
    HarmonicFits(m, l, wo);
    Bin(m, wo)
  }

  ghost predicate Lossless(l: nat, wo: real)
    requires Fits(l, wo)
  {
    forall base: seq<real>, value: seq<real>, m: nat {:trigger Stored(base, value, l, wo), value[m]} ::
      |base| == MAX_AMP && |value| == l + 1 && 1 <= m <= l ==>
      Stored(base, value, l, wo)[BinOf(m, l, wo)] == value[m]
  }

  lemma NotDecreasing(m: nat, wo: real)
    requires wo > 0.0
    ensures Bin(m, wo) <= Bin(m + 1, wo)
  {
    BinIsFloor(m, wo);
    BinIsFloor(m + 1, wo);
    assert Spacing(wo) > 0.0;
    assert (m + 1) as real * Spacing(wo) == m as real * Spacing(wo) + Spacing(wo);
  }

  /** Two harmonics in one bin cannot both come back. */
  lemma Clash(m: nat, l: nat, wo: real)
    requires Fits(l, wo) && 1 <= m < l && Bin(m, wo) == Bin(m + 1, wo)
    ensures !Lossless(l, wo)
  {
    var base, value := seq(MAX_AMP, i => 0.0), seq(l + 1, i => i as real);
    var r := Stored(base, value, l, wo);
    assert BinOf(m, l, wo) == BinOf(m + 1, l, wo);
    assert value[m] != value[m + 1];
  }
}
