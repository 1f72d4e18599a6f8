/**
 The (23,12) Golay code.  A word is a polynomial with coefficients modulo 2, one per bit; the
 codewords are the multiples of the generator below degree 23.
 */
module GolayCode {
  import opened Bits

  const X22 := 0x400000
  const X11 := 0x800
  const MASK12 := 0xfffff800
  const GENPOL := 0xc75

  /** The multiple of the generator with quotient q. */
  function Multiple(q: nat): nat {
    if q == 0 then 0 else Xor(2 * Multiple(q / 2), if q % 2 == 1 then GENPOL else 0)
  }

  ghost predicate Codeword(c: nat) {
    exists q :: 0 <= q < 4096 && c == Multiple(q)
  }

  /** The number of non-zero coefficients. */
  function Weight(p: nat): nat {
    if p == 0 then 0 else p % 2 + Weight(p / 2)
  }

  // ---- sums

  lemma XorHalf(x: nat, y: nat)
    ensures Xor(x, y) / 2 == Xor(x / 2, y / 2) && Xor(x, y) % 2 == if x % 2 != y % 2 then 1 else 0
  {
  }

  lemma XorDouble(x: nat, y: nat)
    ensures Xor(2 * x, 2 * y) == 2 * Xor(x, y)
  {
    assert (2 * x) / 2 == x && (2 * y) / 2 == y;
    assert (2 * x) % 2 == 0 && (2 * y) % 2 == 0;
  }

  lemma XorShuffle(a: nat, b: nat, c: nat, d: nat)
    ensures Xor(Xor(a, b), Xor(c, d)) == Xor(Xor(a, c), Xor(b, d))
  {
    forall k: nat ensures BitAt(Xor(Xor(a, b), Xor(c, d)), k) == BitAt(Xor(Xor(a, c), Xor(b, d)), k) {
      XorBit(a, b, k);
      XorBit(c, d, k);
      XorBit(a, c, k);
      XorBit(b, d, k);
      XorBit(Xor(a, b), Xor(c, d), k);
      XorBit(Xor(a, c), Xor(b, d), k);
    }
    Extensional(Xor(Xor(a, b), Xor(c, d)), Xor(Xor(a, c), Xor(b, d)));
  }

  lemma {:induction false} XorSame(x: nat)
    ensures Xor(x, x) == 0
  {
    if x > 0 { XorSame(x / 2); }
  }

  lemma {:induction false} XorZero(x: nat, y: nat)
    requires Xor(x, y) == 0
    ensures x == y
  {
    if x > 0 && y > 0 { XorZero(x / 2, y / 2); }
  }

  /** What two words differ by is what they differ by from a third. */
  lemma XorVia(a: nat, b: nat, r: nat)
    ensures Xor(Xor(a, r), Xor(b, r)) == Xor(a, b)
  {
    XorShuffle(a, r, b, r);
    XorSame(r);
  }

  lemma XorBack(a: nat, b: nat)
    ensures Xor(Xor(a, b), b) == a
  {
    XorShuffle(a, b, 0, b);
    XorSame(b);
  }

  lemma {:induction false} Linear(a: nat, b: nat)
    ensures Multiple(Xor(a, b)) == Xor(Multiple(a), Multiple(b))
  {
    if a > 0 && b > 0 {
      Linear(a / 2, b / 2);
      XorHalf(a, b);
      var x, y := Multiple(a / 2), Multiple(b / 2);
      XorDouble(x, y);
      XorShuffle(2 * x, if a % 2 == 1 then GENPOL else 0, 2 * y, if b % 2 == 1 then GENPOL else 0);
      XorSame(GENPOL);
    }
  }

  /** The sum of two codewords is a codeword. */
  lemma Sum(a: nat, b: nat)
    requires Codeword(a) && Codeword(b)
    ensures Codeword(Xor(a, b))
  {
    var p :| 0 <= p < 4096 && a == Multiple(p);
    var q :| 0 <= q < 4096 && b == Multiple(q);
    Linear(p, q);
    assert Pow2(12) == 4096;
    XorBound(p, q, 12);
  }

  // ---- weights

  /** A sum has no more non-zero coefficients than its terms together. */
  lemma {:induction false} Triangle(a: nat, b: nat)
    ensures Weight(Xor(a, b)) <= Weight(a) + Weight(b)
  {
    if a > 0 && b > 0 {
      XorHalf(a, b);
      Triangle(a / 2, b / 2);
    }
  }

  // ---- the minimum distance

  predicate At(b: seq<bool>, i: int) { 0 <= i < |b| && b[i] }

  /** Coefficient j of the product of b and the generator. */
  predicate Tap(b: seq<bool>, j: int) {
    (((((At(b, j) != At(b, j - 2)) != At(b, j - 4)) != At(b, j - 5)) != At(b, j - 6)) != At(b, j - 10)) != At(b, j - 11)
  }

  function One(b: bool): nat { if b then 1 else 0 }

  /** The number of non-zero coefficients of that product in the eight places from j. */
  function Eight(b: seq<bool>, j: int): nat {
    One(Tap(b, j)) + One(Tap(b, j + 1)) + One(Tap(b, j + 2)) + One(Tap(b, j + 3))
    + One(Tap(b, j + 4)) + One(Tap(b, j + 5)) + One(Tap(b, j + 6)) + One(Tap(b, j + 7))
  }

  /** No odd polynomial below degree 12 has a product with fewer than seven terms. */
  lemma OddHeavy(b: seq<bool>)
    requires |b| == 12 && b[0]
    ensures Eight(b, 0) + Eight(b, 8) + Eight(b, 16) >= 7
  {
  }

  predicate On(q: nat, i: int) { i >= 0 && BitAt(q, i) == 1 }

  predicate TapOf(q: nat, j: int) {
    (((((On(q, j) != On(q, j - 2)) != On(q, j - 4)) != On(q, j - 5)) != On(q, j - 6)) != On(q, j - 10)) != On(q, j - 11)
  }

  /** The generator is x^11 + x^10 + x^6 + x^5 + x^4 + x^2 + 1. */
  lemma GeneratorBit(j: nat)
    ensures BitAt(GENPOL, j) == 1 <==> j == 0 || j == 2 || j == 4 || j == 5 || j == 6 || j == 10 || j == 11
  {
    if j >= 12 {
      assert Pow2(12) == 4096;
      HighBits(GENPOL, 12, j);
    } else {
      LowGenerator();
      MiddleGenerator();
      HighGenerator();
    }
  }

  lemma LowGenerator()
    ensures BitAt(GENPOL, 0) == 1 && BitAt(GENPOL, 1) == 0 && BitAt(GENPOL, 2) == 1 && BitAt(GENPOL, 3) == 0
  {
  }

  lemma MiddleGenerator()
    ensures BitAt(GENPOL, 4) == 1 && BitAt(GENPOL, 5) == 1 && BitAt(GENPOL, 6) == 1 && BitAt(GENPOL, 7) == 0
  {
  }

  lemma HighGenerator()
    ensures BitAt(GENPOL, 8) == 0 && BitAt(GENPOL, 9) == 0 && BitAt(GENPOL, 10) == 1 && BitAt(GENPOL, 11) == 1
  {
    assert Shr(GENPOL, 4) == 199 && Shr(199, 4) == 12;
    ShrBit(GENPOL, 4, 4);
    ShrBit(GENPOL, 4, 5);
    ShrBit(GENPOL, 4, 6);
    ShrBit(GENPOL, 4, 7);
    ShrBit(199, 4, 0);
    ShrBit(199, 4, 1);
    ShrBit(199, 4, 2);
    ShrBit(199, 4, 3);
  }

  lemma OnHalf(q: nat, i: int)
    ensures On(q, i) == if i == 0 then q % 2 == 1 else On(q / 2, i - 1)
  {
  }

  /** A product has the coefficients that multiplying out the polynomials gives. */
  lemma {:induction false} ProductBit(q: nat, j: nat)
    ensures BitAt(Multiple(q), j) == 1 <==> TapOf(q, j)
  {
    if q == 0 {
      forall i: nat ensures BitAt(0, i) == 0 { ZeroBits(i); }
    } else {
      var m := 2 * Multiple(q / 2);
      XorBit(m, if q % 2 == 1 then GENPOL else 0, j);
      ZeroBits(j);
      GeneratorBit(j);
      assert m / 2 == Multiple(q / 2) && m % 2 == 0;
      if j > 0 { ProductBit(q / 2, j - 1); }
      TapHalf(q, j);
    }
  }

  lemma TapHalf(q: nat, j: nat)
    ensures TapOf(q, j) == (TapOf(q / 2, j - 1) !=
                            (q % 2 == 1 && (j == 0 || j == 2 || j == 4 || j == 5 || j == 6 || j == 10 || j == 11)))
  {
    OnHalf(q, j);
    OnHalf(q, j - 2);
    OnHalf(q, j - 4);
    OnHalf(q, j - 5);
    OnHalf(q, j - 6);
    OnHalf(q, j - 10);
    OnHalf(q, j - 11);
  }

  lemma {:induction false} GeneratorBound(n: nat)
    requires n >= 1
    ensures GENPOL < Pow2(n + 11)
  {
    if n == 1 { assert Pow2(12) == 4096; } else { GeneratorBound(n - 1); }
  }

  lemma StepBound(m: nat, g: nat, n: nat)
    requires m < Pow2(n) && g < Pow2(n + 1)
    ensures Xor(2 * m, g) < Pow2(n + 1)
  {
    XorBound(2 * m, g, n + 1);
  }

  lemma {:induction false} MultipleBound(q: nat, n: nat)
    requires q < Pow2(n)
    ensures Multiple(q) < Pow2(n + 11)
  {
    if q > 0 {
      MultipleBound(q / 2, n - 1);
      GeneratorBound(n);
      StepBound(Multiple(q / 2), if q % 2 == 1 then GENPOL else 0, n + 10);
    }
  }

  function Coefficients(q: nat): (b: seq<bool>)
    ensures |b| == 12
  {
    seq(12, i requires 0 <= i < 12 => On(q, i))
  }

  lemma TapsAgree(q: nat, j: int)
    requires q < 4096
    ensures Tap(Coefficients(q), j) == TapOf(q, j)
  {
    forall i: int ensures At(Coefficients(q), i) == On(q, i) {
      assert Pow2(12) == 4096;
      if i >= 12 { HighBits(q, 12, i); }
    }
  }

  /** The number of non-zero coefficients below place n. */
  function Low(p: nat, n: nat): nat {
    if n == 0 then 0 else Low(p, n - 1) + BitAt(p, n - 1)
  }

  lemma {:induction false} ShrNext(p: nat, n: nat)
    ensures Shr(p, n + 1) == Shr(p, n) / 2
  {
    if n > 0 { ShrNext(p / 2, n - 1); }
  }

  lemma {:induction false} WeightSplit(p: nat, n: nat)
    ensures Weight(p) == Low(p, n) + Weight(Shr(p, n))
  {
    if n > 0 {
      WeightSplit(p, n - 1);
      ShrNext(p, n - 1);
      ShrBit(p, n - 1, 0);
    }
  }

  lemma {:induction false} LowIsTaps(q: nat, n: nat)
    requires q < 4096
    ensures Low(Multiple(q), n) == Taps(Coefficients(q), n)
  {
    if n > 0 {
      LowIsTaps(q, n - 1);
      ProductBit(q, n - 1);
      TapsAgree(q, n - 1);
    }
  }

  function Taps(b: seq<bool>, n: nat): nat {
    if n == 0 then 0 else Taps(b, n - 1) + One(Tap(b, n - 1))
  }

  lemma TapsByFour(b: seq<bool>, n: nat)
    ensures Taps(b, n + 4) == Taps(b, n) + One(Tap(b, n)) + One(Tap(b, n + 1)) + One(Tap(b, n + 2)) + One(Tap(b, n + 3))
  {
    assert Taps(b, n + 2) == Taps(b, n) + One(Tap(b, n)) + One(Tap(b, n + 1));
  }

  lemma TapsByEight(b: seq<bool>, n: nat)
    ensures Taps(b, n + 8) == Taps(b, n) + Eight(b, n)
  {
    TapsByFour(b, n);
    TapsByFour(b, n + 4);
  }

  lemma {:induction false} Heavy(q: nat)
    requires 0 < q < 4096
    ensures Weight(Multiple(q)) >= 7
  {
    if q % 2 == 1 {
      OddProduct(q, Coefficients(q));
    } else {
      Heavy(q / 2);
      SameWeight(q);
    }
  }

  lemma OddProduct(q: nat, b: seq<bool>)
    requires q < 4096 && q % 2 == 1 && b == Coefficients(q)
    ensures Weight(Multiple(q)) >= 7
  {
    AllTaps(b);
    LowIsTaps(q, 24);
    WeightSplit(Multiple(q), 24);
  }

  lemma AllTaps(b: seq<bool>)
    requires |b| == 12 && b[0]
    ensures Taps(b, 24) >= 7
  {
    OddHeavy(b);
    TapsByEight(b, 0);
    TapsByEight(b, 8);
    TapsByEight(b, 16);
  }

  lemma SameWeight(q: nat)
    requires q > 0 && q % 2 == 0
    ensures Weight(Multiple(q)) == Weight(Multiple(q / 2))
  {
    var m := Multiple(q / 2);
    assert Multiple(q) == 2 * m;
    assert (2 * m) / 2 == m && (2 * m) % 2 == 0;
  }

  lemma CodewordBound(c: nat)
    requires Codeword(c)
    ensures c < Pow2(23)
  {
    var q :| 0 <= q < 4096 && c == Multiple(q);
    assert Pow2(12) == 4096;
    MultipleBound(q, 12);
  }

  /** Every codeword but 0 has at least seven non-zero coefficients. */
  lemma MinimumDistance(c: nat)
    requires Codeword(c) && c != 0
    ensures Weight(c) >= 7
  {
    var q :| 0 <= q < 4096 && c == Multiple(q);
    Heavy(q);
  }

  /** At most one codeword is within three errors of a received word. */
  lemma NearestUnique(r: nat, c: nat, d: nat)
    requires Codeword(c) && Codeword(d) && Weight(Xor(c, r)) <= 3 && Weight(Xor(d, r)) <= 3
    ensures c == d
  {
    Sum(c, d);
    XorVia(c, d, r);
    Triangle(Xor(c, r), Xor(d, r));
    if Xor(c, d) != 0 { MinimumDistance(Xor(c, d)); }
    XorZero(c, d);
  }

  // ---- division

  lemma {:induction false} TopCancels(x: nat, y: nat, e: nat)
    requires Pow2(e) <= x < Pow2(e + 1) && Pow2(e) <= y < Pow2(e + 1)
    ensures Xor(x, y) < Pow2(e)
  {
    if e > 0 {
      TopCancels(x / 2, y / 2, e - 1);
      XorHalf(x, y);
    }
  }

  lemma {:induction false} MultipleOfPower(k: nat)
    ensures Multiple(Pow2(k)) == GENPOL * Pow2(k)
  {
    if k > 0 {
      MultipleOfPower(k - 1);
      assert Pow2(k) / 2 == Pow2(k - 1) && Pow2(k) % 2 == 0;
    }
  }

  lemma {:induction false} AndPower(e: nat, p: nat)
    ensures And(Pow2(e), p) != 0 <==> BitAt(p, e) == 1
  {
    if p == 0 {
      ZeroBits(e);
    } else if e > 0 {
      AndPower(e - 1, p / 2);
      assert Pow2(e) / 2 == Pow2(e - 1) && Pow2(e) % 2 == 0;
    }
  }

  lemma {:induction false} AndShifted(p: nat, m: nat, n: nat)
    ensures And(p, m * Pow2(n)) != 0 <==> And(Shr(p, n), m) != 0
  {
    if n > 0 {
      var k := m * Pow2(n - 1);
      assert m * Pow2(n) == 2 * k;
      assert (2 * k) / 2 == k && (2 * k) % 2 == 0;
      AndShifted(p / 2, m, n - 1);
    }
  }

  lemma {:induction false} AndOnes(x: nat, n: nat)
    requires x < Pow2(n)
    ensures And(x, Pow2(n) - 1) == x
  {
    if x > 0 {
      AndOnes(x / 2, n - 1);
      assert (Pow2(n) - 1) / 2 == Pow2(n - 1) - 1 && (Pow2(n) - 1) % 2 == 1;
    }
  }

  lemma {:induction false} ShrZeroIff(x: nat, n: nat)
    ensures Shr(x, n) == 0 <==> x < Pow2(n)
  {
    if n > 0 { ShrZeroIff(x / 2, n - 1); }
  }

  lemma {:induction false} ShrBound(x: nat, n: nat, m: nat)
    requires x < Pow2(n + m)
    ensures Shr(x, n) < Pow2(m)
  {
    if n > 0 { ShrBound(x / 2, n - 1, m); }
  }

  /** The mask tests for a term of degree 11 or more in a 32-bit word. */
  lemma MaskTest(p: nat)
    requires p < Pow2(32)
    ensures And(p, MASK12) != 0 <==> p >= X11
  {
    assert Pow2(11) == 2048;
    assert Pow2(21) == 0x200000;
    AndShifted(p, 0x1fffff, 11);
    ShrBound(p, 11, 21);
    AndOnes(Shr(p, 11), 21);
    ShrZeroIff(p, 11);
  }

  lemma {:induction false} BitBetween(p: nat, e: nat)
    requires p < Pow2(e + 1)
    ensures BitAt(p, e) == 1 <==> p >= Pow2(e)
  {
    if e > 0 { BitBetween(p / 2, e - 1); }
  }

  lemma PowerOver(e: nat)
    requires e >= 11
    ensures Pow2(e) / X11 == Pow2(e - 11) && GENPOL * Pow2(e - 11) < Pow2(e + 1) && Pow2(e) <= GENPOL * Pow2(e - 11)
  {
    assert Pow2(11) == 2048;
    Pow2Add(11, e - 11);
  }

  /** One step of the long division. */
  lemma DivisionStep(word: nat, p: nat, e: nat, q: nat, h: nat)
    requires 11 <= e <= 22 && Pow2(e) <= p < Pow2(e + 1) && q < 4096 && Xor(word, p) == Multiple(q)
    requires h == Pow2(e) / X11
    ensures Xor(p, h * GENPOL) < Pow2(e) && Xor(q, h) < 4096 && Xor(word, Xor(p, h * GENPOL)) == Multiple(Xor(q, h))
  {
    PowerOver(e);
    TopCancels(p, h * GENPOL, e);
    MultipleOfPower(e - 11);
    QuotientStep(word, p, h * GENPOL, q, h);
    QuotientBound(q, e - 11);
  }

  lemma QuotientStep(word: nat, p: nat, g: nat, q: nat, h: nat)
    requires Xor(word, p) == Multiple(q) && Multiple(h) == g
    ensures Xor(word, Xor(p, g)) == Multiple(Xor(q, h))
  {
    Linear(q, h);
    XorShuffle(word, 0, p, g);
  }

  lemma QuotientBound(q: nat, k: nat)
    requires q < 4096 && k < 12
    ensures Xor(q, Pow2(k)) < 4096
  {
    assert Pow2(12) == 4096;
    Pow2Grows(k, 12);
    XorBound(q, Pow2(k), 12);
  }

  /** get_syndrome(): the remainder of the division by the generator. */
  method GetSyndrome(word: nat) returns (pattern: nat)
    requires word < Pow2(23)
    ensures pattern < X11 && Codeword(Xor(word, pattern))
  {
    pattern := word;
    var aux := X22;
    ghost var e, q := 22, 0;
    TopPower();
    XorSame(word);
    assert Xor(word, pattern) == Multiple(q);
    if pattern >= X11 {
      SmallEnough(pattern, 22);
      while And(pattern, MASK12) != 0
        invariant 11 <= e <= 22 && aux == Pow2(e) && pattern < Pow2(e + 1)
        invariant q < 4096 && Xor(word, pattern) == Multiple(q)
        invariant And(pattern, MASK12) != 0 <==> pattern >= X11
        decreases pattern
      {
        AndPower(e, pattern);
        BitBetween(pattern, e);
        while And(aux, pattern) == 0
          invariant 11 <= e <= 22 && aux == Pow2(e) && pattern < Pow2(e + 1)
          invariant And(aux, pattern) != 0 <==> pattern >= Pow2(e)
          decreases e
        {
          LastPlace(pattern, e);
          aux, e := aux / 2, e - 1;
          AndPower(e, pattern);
          BitBetween(pattern, e);
        }
        DivisionStep(word, pattern, e, q, aux / X11);
        q := Xor(q, aux / X11);
        pattern := Xor(pattern, (aux / X11) * GENPOL);
        SmallEnough(pattern, e);
      }
    }
  }

  lemma TopPower()
    ensures Pow2(22) == X22
  {
    assert Pow2(11) == 2048;
    Pow2Add(11, 11);
  }

  lemma LastPlace(p: nat, e: nat)
    requires X11 <= p < Pow2(e) && e >= 11
    ensures e > 11
  {
    assert Pow2(11) == 2048;
  }

  lemma SmallEnough(p: nat, e: nat)
    requires p < Pow2(e + 1) && e <= 22
    ensures And(p, MASK12) != 0 <==> p >= X11
  {
    Pow2Grows(e + 1, 32);
    MaskTest(p);
  }
}
