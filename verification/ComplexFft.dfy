/**
 The fast Fourier transform on complex numbers, forwards and backwards.
 */
module ComplexFft {
  import opened Complex
  import opened Fourier
  import opened KissFft
  import opened FftRecursion
  import opened FftInverse

  const ZERO := Comp(0.0, 0.0)
  const ONE := Comp(1.0, 0.0)

  function Numbers(): Ring<Comp> { Ring(ZERO, ONE, CAdd, CNeg, CMult) }

  lemma NumbersAreRing()
    ensures IsRing(Numbers())
  {
    var r := Numbers();
    forall a: Comp, b: Comp, c: Comp ensures RingLaws(r, a, b, c) {
      AddLaws(r, a, b, c);
      MulLaws(r, a, b);
      Associate(r, a, b, c);
      Distribute(r, a, b, c);
    }
  }

  lemma AddLaws(r: Ring<Comp>, a: Comp, b: Comp, c: Comp)
    requires r == Numbers()
    ensures r.add(a, b) == r.add(b, a) && r.add(r.add(a, b), c) == r.add(a, r.add(b, c))
    ensures r.add(a, r.zero) == a && r.add(a, r.neg(a)) == r.zero
  {
  }

  lemma MulLaws(r: Ring<Comp>, a: Comp, b: Comp)
    requires r == Numbers()
    ensures r.mul(a, b) == r.mul(b, a) && r.mul(a, r.one) == a
  {
  }

  lemma Associate(r: Ring<Comp>, a: Comp, b: Comp, c: Comp)
    requires r == Numbers()
    ensures r.mul(r.mul(a, b), c) == r.mul(a, r.mul(b, c))
  {
    MultAssociates(a, b, c);
  }

  lemma Distribute(r: Ring<Comp>, a: Comp, b: Comp, c: Comp)
    requires r == Numbers()
    ensures r.mul(r.add(a, b), c) == r.add(r.mul(a, c), r.mul(b, c))
  {
    MultDistributes(a, b, c);
  }

  lemma NoZeroDivisors(a: Comp, b: Comp)
    requires CMult(a, b) == ZERO
    ensures a == ZERO || b == ZERO
  {
    PowerMult(a, b);
    NoPower(a);
    NoPower(b);
  }

  lemma NoPower(a: Comp)
    ensures Power(a) == 0.0 <==> a == ZERO
  {
    Positive(a.re);
    Positive(a.im);
    if a == ZERO { assert Power(a) == 0.0; }
  }

  lemma Positive(x: real)
    ensures x * x >= 0.0 && (x * x == 0.0 ==> x == 0.0)
  {
    assert (-x) * (-x) == x * x;
    if x > 0.0 { TimesPositive(x, x); } else if x < 0.0 { TimesPositive(-x, -x); }
  }

  function Times(p: real, q: real): real { p * q }

  lemma TimesPositive(p: real, q: real)
    requires p > 0.0 && q > 0.0
    ensures Times(p, q) > 0.0
  {
  }

  lemma NumbersAreDomain()
    ensures Domain(Numbers())
  {
    var r := Numbers();
    forall a: Comp, b: Comp {:trigger r.mul(a, b)} | r.mul(a, b) == r.zero ensures a == r.zero || b == r.zero { NoZeroDivisors(a, b); }
  }

  // ---- configurations

  /** The quarter turns that kf_bfly4() makes by exchanging the two parts. */
  function QuarterForward(a: Comp): Comp { Comp(a.im, -a.re) }
  function QuarterBack(a: Comp): Comp { Comp(-a.im, a.re) }

  /** The operations that kf_bfly3() and kf_bfly5() make on the parts of a number. */
  function Half(x: Comp): Comp { FCMult(0.5, x) }
  function Scale(t: Comp, x: Comp): Comp { FCMult(t.re, x) }
  function Side(t: Comp, x: Comp): Comp { Turned(FCMult(t.im, x)) }

  /** w(e) is the e-th power of the n-th root of unity next to 1, clockwise or, for the inverse, anticlockwise. */
  ghost predicate Circle(w: int -> Comp, n: nat, inverse: bool) {
    n >= 1 && Powers(Numbers(), w) && w(n) == ONE &&
    (forall e {:trigger w(e)} :: Power(w(e)) == 1.0) &&
    (forall d {:trigger w(d)} :: 0 < d < n ==> w(d) != ONE) &&
    forall h {:trigger w(h)} :: n == 4 * h ==> w(h) == if inverse then J else CNeg(J)
  }

  lemma CircleIsPrimitive(w: int -> Comp, n: nat, inverse: bool)
    requires Circle(w, n, inverse)
    ensures Primitive(Numbers(), w, n)
  {
    NumbersAreRing();
    NumbersAreDomain();
  }

  /** kiss_fft_alloc(), without the factors. */
  function Configured(twiddles: seq<Comp>, inverse: bool): Cfg<Comp> {
    Cfg(Numbers(), |twiddles|, twiddles, if inverse then QuarterBack else QuarterForward, Half, Scale, Side)
  }

  lemma HalfIsMinusOne(w: int -> Comp, h: int)
    requires Powers(Numbers(), w) && w(2 * h) == ONE && w(h) != ONE
    ensures w(h) == CNeg(ONE)
  {
    PowerAdd(Numbers(), w, h, h);
    assert Numbers().mul(w(h), w(h)) == CMult(w(h), w(h));
    MinusOne(w(h));
  }

  lemma MinusOne(x: Comp)
    requires CMult(x, x) == ONE && x != ONE
    ensures x == CNeg(ONE)
  {
    Factors(x);
    NoZeroDivisors(CAdd(x, CNeg(ONE)), CAdd(x, ONE));
  }

  lemma Factors(x: Comp)
    requires CMult(x, x) == ONE
    ensures CMult(CAdd(x, CNeg(ONE)), CAdd(x, ONE)) == ZERO
  {
  }

  lemma QuarterIsProduct(a: Comp)
    ensures QuarterForward(a) == CMult(CNeg(J), a) && QuarterBack(a) == CMult(J, a)
  {
  }

  lemma Conjugate(a: Comp, b: Comp)
    requires CMult(a, b) == ONE && Power(b) == 1.0
    ensures a == CConj(b)
  {
    MultAssociates(a, b, CConj(b));
    TimesConjugate(b);
    assert CMult(a, ONE) == a && CMult(ONE, CConj(b)) == CConj(b);
  }

  lemma OppositePower(w: int -> Comp, e: int)
    requires Powers(Numbers(), w) && Power(w(e)) == 1.0
    ensures w(-e) == CConj(w(e))
  {
    PowerAdd(Numbers(), w, -e, e);
    Conjugate(w(-e), w(e));
  }

  /** A third of a turn has the real part -1/2. */
  lemma ThirdReal(t: Comp)
    requires CMult(t, t) == CConj(t) && Power(t) == 1.0 && t != ONE
    ensures t.re == -0.5
  {
    var re, im := t.re, t.im;
    assert re * im + im * re == -im;
    assert im * (2.0 * re + 1.0) == 0.0;
    assert re * re - im * im == re && re * re + im * im == 1.0;
    if im != 0.0 { NoDivisor(im, 2.0 * re + 1.0); }
  }

  lemma NoDivisor(p: real, q: real)
    requires p * q == 0.0 && p != 0.0
    ensures q == 0.0
  {
  }

  lemma ThirdIsHalf(w: int -> Comp, h: int, x: Comp)
    requires Powers(Numbers(), w) && w(3 * h) == ONE && w(h) != ONE && Power(w(h)) == 1.0
    ensures Scale(w(h), x) == CNeg(Half(x))
  {
    NumbersAreRing();
    PowerAdd(Numbers(), w, h, h);
    PowerPeriod(Numbers(), w, 3 * h, -h);
    OppositePower(w, h);
    ThirdReal(w(h));
  }

  lemma TakenApart(t: Comp, x: Comp)
    ensures CMult(t, x) == CAdd(Scale(t, x), Side(t, x)) && CMult(CConj(t), x) == CAdd(Scale(t, x), CNeg(Side(t, x)))
  {
    InParts(t, x, FCMult(t.re, x), FCMult(t.im, x));
  }

  lemma PartsAdd(t: Comp, x: Comp, y: Comp)
    ensures Scale(t, CAdd(x, y)) == CAdd(Scale(t, x), Scale(t, y)) && Side(t, CAdd(x, y)) == CAdd(Side(t, x), Side(t, y))
  {
    FactorSum(t.re, x, y);
    FactorSum(t.im, x, y);
  }

  lemma TurnsApart(c: Cfg<Comp>, w: int -> Comp, e: int, x: Comp, y: Comp, t: Comp, back: Comp)
    requires c.ring == Numbers() && c.half == Half && c.scale == Scale && c.side == Side && w(e) == t && w(-e) == back
    requires back == CConj(t) && (c.nfft == 3 * e ==> Scale(t, x) == CNeg(Half(x)))
    ensures TurnLaws(c, w, e, x, y)
  {
    TakenApart(t, x);
    PartsAdd(t, x, y);
    LawsHold(c, w, e, x, y, t, back);
  }

  lemma TurnsOfCircle(w: int -> Comp, twiddles: seq<Comp>, inverse: bool, e: int, x: Comp)
    requires Circle(w, |twiddles|, inverse)
    ensures w(-e) == CConj(w(e)) && (|twiddles| == 3 * e ==> Scale(w(e), x) == CNeg(Half(x)))
  {
    OppositePower(w, e);
    if |twiddles| == 3 * e { ThirdIsHalf(w, e, x); }
  }

  lemma LawsHold(c: Cfg<Comp>, w: int -> Comp, e: int, x: Comp, y: Comp, t: Comp, back: Comp)
    requires c.ring == Numbers() && c.half == Half && c.scale == Scale && c.side == Side && w(e) == t && w(-e) == back
    requires CMult(t, x) == CAdd(Scale(t, x), Side(t, x)) && CMult(back, x) == CAdd(Scale(t, x), CNeg(Side(t, x)))
    requires Scale(t, CAdd(x, y)) == CAdd(Scale(t, x), Scale(t, y)) && Side(t, CAdd(x, y)) == CAdd(Side(t, x), Side(t, y))
    requires c.nfft == 3 * e ==> Scale(t, x) == CNeg(Half(x))
    ensures TurnLaws(c, w, e, x, y)
  {
  }

  /** Tables of such powers make an exact configuration. */
  lemma ConfiguredIsExact(w: int -> Comp, twiddles: seq<Comp>, inverse: bool)
    requires Circle(w, |twiddles|, inverse) && forall i :: 0 <= i < |twiddles| ==> twiddles[i] == w(i)
    ensures Exact(Configured(twiddles, inverse), w)
  {
    var c := Configured(twiddles, inverse);
    NumbersAreRing();
    forall h {:trigger w(h)} | c.nfft == 2 * h ensures w(h) == c.ring.neg(c.ring.one) { HalfIsMinusOne(w, h); }
    forall h, x {:trigger w(h), c.quarter(x)} | c.nfft == 4 * h ensures c.quarter(x) == c.ring.mul(w(h), x) { QuarterIsProduct(x); }
    forall e: int, x: Comp, y: Comp {:trigger AtTurn(e, x, y)} ensures AtTurn(e, x, y) && TurnLaws(c, w, e, x, y) {
      TurnsOfCircle(w, twiddles, inverse, e, x);
      TurnsApart(c, w, e, x, y, w(e), w(-e));
    }
  }

  /** Transforming forwards and back multiplies every value by the number of points. */
  lemma RoundTrip(x: seq<Comp>, y: seq<Comp>, z: seq<Comp>, w: int -> Comp, v: int -> Comp, n: nat, j: nat)
    requires Circle(w, n, false) && |x| == |y| == |z| == n && j < n && forall e {:trigger v(e)} :: v(e) == w(-e)
    requires forall i :: 0 <= i < n ==> y[i] == Dft(Numbers(), x, w, n, i)
    requires forall i :: 0 <= i < n ==> z[i] == Dft(Numbers(), y, v, n, i)
    ensures z[j] == FCMult(n as real, x[j])
  {
    CircleIsPrimitive(w, n, false);
    InverseUndoes(Numbers(), x, y, w, v, n, j);
    MultipleIsProduct(n, x[j]);
  }

  lemma {:induction false} MultipleIsProduct(n: nat, x: Comp)
    ensures Multiple(Numbers(), n, x) == FCMult(n as real, x)
  {
    if n > 0 { MultipleIsProduct(n - 1, x); }
  }

  /** kiss_fft_alloc() and kiss_fft(): the transform of any length, given its table of exact powers. */
  method Fft(twiddles: seq<Comp>, inverse: bool, floorSqrt: nat, fin: array<Comp>, fout: array<Comp>, ghost w: int -> Comp)
    requires Circle(w, |twiddles|, inverse) && forall i :: 0 <= i < |twiddles| ==> twiddles[i] == w(i)
    requires fin.Length == fout.Length == |twiddles|
    modifies fout
    ensures forall k :: 0 <= k < |twiddles| ==> fout[k] == Dft(Numbers(), old(fin[..]), w, |twiddles|, k)
  {
    ConfiguredIsExact(w, twiddles, inverse);
    var factors := KfFactor(|twiddles|, floorSqrt);
    Transform(Configured(twiddles, inverse), w, factors, fin, fout);
  }
}
