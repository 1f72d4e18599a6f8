/**
 Complex numbers over exact reals, shared by the modem and the Fourier transform.
 */
module Complex {
  datatype Comp = Comp(re: real, im: real)

  function CAdd(a: Comp, b: Comp): Comp { Comp(a.re + b.re, a.im + b.im) }
  function CMult(a: Comp, b: Comp): Comp {
    Comp(a.re * b.re - a.im * b.im, a.re * b.im + a.im * b.re)
  }
  function CNeg(a: Comp): Comp { Comp(-a.re, -a.im) }
  function CConj(a: Comp): Comp { Comp(a.re, -a.im) }
  function FCMult(k: real, a: Comp): Comp { Comp(k * a.re, k * a.im) }
  function Power(a: Comp): real { a.re * a.re + a.im * a.im }

  const J := Comp(0.0, 1.0)

  lemma PowerMult(a: Comp, b: Comp)
    ensures Power(CMult(a, b)) == Power(a) * Power(b)
  {
    var p, q, r, s := a.re, a.im, b.re, b.im;
    calc {
      Power(CMult(a, b));
      (p * r - q * s) * (p * r - q * s) + (p * s + q * r) * (p * s + q * r);
      { Square(p * r, -(q * s)); Square(p * s, q * r); assert (p * r) * (q * s) == (p * s) * (q * r); }
      (p * r) * (p * r) + (q * s) * (q * s) + (p * s) * (p * s) + (q * r) * (q * r);
      { assert (p * r) * (p * r) == (p * p) * (r * r) && (q * s) * (q * s) == (q * q) * (s * s); }
      { assert (p * s) * (p * s) == (p * p) * (s * s) && (q * r) * (q * r) == (q * q) * (r * r); }
      (p * p) * (r * r) + (q * q) * (s * s) + (p * p) * (s * s) + (q * q) * (r * r);
      (p * p + q * q) * (r * r + s * s);
    }
  }

  lemma Square(x: real, y: real)
    ensures (x + y) * (x + y) == x * x + 2.0 * (x * y) + y * y
  {
  }

  lemma MultDistributes(a: Comp, b: Comp, c: Comp)
    ensures CMult(CAdd(a, b), c) == CAdd(CMult(a, c), CMult(b, c))
  {
  }

  lemma MultAssociates(a: Comp, b: Comp, c: Comp)
    ensures CMult(CMult(a, b), c) == CMult(a, CMult(b, c))
  {
    Triple(a.re, b.re, a.im, b.im, c.re);
    Triple(a.re, b.im, -a.im, b.re, c.im);
    Triple(a.re, b.re, a.im, b.im, c.im);
    Triple(a.re, b.im, -a.im, b.re, c.re);
    Triple(b.re, c.re, b.im, c.im, a.re);
    Triple(b.re, c.im, -b.im, c.re, a.im);
    Triple(b.re, c.re, b.im, c.im, a.im);
    Triple(b.re, c.im, -b.im, c.re, a.re);
  }

  lemma Triple(p: real, q: real, u: real, v: real, z: real)
    ensures (p * q - u * v) * z == z * (p * q) - z * (u * v) && z * (p * q - u * v) == z * (p * q) - z * (u * v)
  {
  }

  lemma TimesConjugate(b: Comp)
    ensures CMult(b, CConj(b)) == Comp(Power(b), 0.0)
  {
  }

  lemma MultCommutes(a: Comp, b: Comp)
    ensures CMult(a, b) == CMult(b, a)
  {
  }

  lemma ConjMult(a: Comp, b: Comp)
    ensures CConj(CMult(a, b)) == CMult(CConj(a), CConj(b))
  {
  }

  /** (ab)(cd) is (ac)(bd). */
  lemma MultExchange(a: Comp, b: Comp, c: Comp, d: Comp)
    ensures CMult(CMult(a, b), CMult(c, d)) == CMult(CMult(a, c), CMult(b, d))
  {
    var cd, bd := CMult(c, d), CMult(b, d);
    MultAssociates(a, b, cd);
    MultAssociates(a, c, bd);
    MultSwap(b, c, d);
  }

  lemma MultSwap(b: Comp, c: Comp, d: Comp)
    ensures CMult(b, CMult(c, d)) == CMult(c, CMult(b, d))
  {
    MultAssociates(b, c, d);
    MultAssociates(c, b, d);
    MultCommutes(b, c);
  }

  /** A quarter turn. */
  function Turned(a: Comp): Comp { Comp(-a.im, a.re) }

  lemma Distribute(k: real, a: real, b: real)
    ensures k * (a + b) == k * a + k * b && k * -b == -(k * b) && -k * b == -(k * b)
  {
  }

  lemma InParts(y: Comp, p: Comp, a: Comp, b: Comp)
    requires a == FCMult(y.re, p) && b == FCMult(y.im, p)
    ensures CMult(y, p) == CAdd(a, Turned(b)) && CMult(CConj(y), p) == CAdd(a, Turned(CNeg(b)))
  {
    Distribute(y.im, 0.0, p.re);
    Distribute(y.im, 0.0, p.im);
  }

  lemma FactorSum(k: real, a: Comp, b: Comp)
    ensures CAdd(FCMult(k, a), FCMult(k, b)) == FCMult(k, CAdd(a, b))
    ensures CAdd(FCMult(k, a), CNeg(FCMult(k, b))) == FCMult(k, CAdd(a, CNeg(b)))
  {
    Distribute(k, a.re, b.re);
    Distribute(k, a.im, b.im);
    Distribute(k, a.re, -b.re);
    Distribute(k, a.im, -b.im);
  }
}
