/**
 The inverse transform undoes the forward one, up to a factor of the number of points.
 */
module FftInverse {
  import opened Fourier

  /** x added to itself n times. */
  ghost function Multiple<T>(r: Ring<T>, n: nat, x: T): T {
    if n == 0 then r.zero else r.add(Multiple(r, n - 1, x), x)
  }

  /** The sum of the powers k * d for k < n. */
  ghost function Geometric<T>(r: Ring<T>, w: int -> T, d: int, n: nat): T {
    if n == 0 then r.zero else r.add(Geometric(r, w, d, n - 1), w(d * (n - 1)))
  }

  /** A product is zero only if a factor is. */
  ghost predicate Domain<T(!new)>(r: Ring<T>) {
    forall a: T, b: T {:trigger r.mul(a, b)} :: r.mul(a, b) == r.zero ==> a == r.zero || b == r.zero
  }

  /** No smaller power than n is 1. */
  ghost predicate Primitive<T(!new)>(r: Ring<T>, w: int -> T, n: nat) {
    IsRing(r) && Domain(r) && Powers(r, w) && w(n) == r.one && forall d {:trigger w(d)} :: 0 < d < n ==> w(d) != r.one
  }

  lemma {:induction false} GeometricZero<T(!new)>(r: Ring<T>, w: int -> T, n: nat)
    requires Powers(r, w)
    ensures Geometric(r, w, 0, n) == Multiple(r, n, r.one)
  {
    if n > 0 { GeometricZero(r, w, n - 1); }
  }

  /** Multiplying by w(d) shifts the sum by one power. */
  lemma {:induction false} Telescope<T(!new)>(r: Ring<T>, w: int -> T, d: int, n: nat)
    requires IsRing(r) && Powers(r, w)
    ensures r.add(r.mul(w(d), Geometric(r, w, d, n)), r.one) == r.add(Geometric(r, w, d, n), w(d * n))
  {
    var g := Geometric(r, w, d, n);
    if n == 0 {
      ZeroTimes(r, w(d));
    } else {
      Telescope(r, w, d, n - 1);
      var h, p := Geometric(r, w, d, n - 1), w(d * (n - 1));
      PowerAdd(r, w, d, d * (n - 1));
      assert d + d * (n - 1) == d * n;
      Laws(r, h, p, w(d));
      Laws(r, g, w(d), g);
      Laws(r, h, w(d), h);
      Laws(r, p, w(d), p);
      ShiftedSum(r, r.mul(w(d), h), w(d * n), h, p);
    }
  }

  lemma ShiftedSum<T(!new)>(r: Ring<T>, wh: T, next: T, h: T, p: T)
    requires IsRing(r) && r.add(wh, r.one) == r.add(h, p)
    ensures r.add(r.add(wh, next), r.one) == r.add(r.add(h, p), next)
  {
    Laws(r, wh, next, r.one);
    Laws(r, next, r.one, r.one);
    Laws(r, wh, r.one, next);
  }

  /** Equal sums with an equal term have the other terms equal. */
  lemma CancelRight<T(!new)>(r: Ring<T>, a: T, b: T, c: T)
    requires IsRing(r) && r.add(a, c) == r.add(b, c)
    ensures a == b
  {
    Laws(r, a, c, r.neg(c));
    Laws(r, b, c, r.neg(c));
    Laws(r, c, c, c);
  }

  /** The powers of a non-trivial root add up to zero. */
  lemma RootsCancel<T(!new)>(r: Ring<T>, w: int -> T, d: int, n: nat)
    requires Primitive(r, w, n) && 0 < d < n
    ensures Geometric(r, w, d, n) == r.zero
  {
    var g := Geometric(r, w, d, n);
    Telescope(r, w, d, n);
    PowerPeriods(r, w, n, 0, d);
    assert 0 + d * n == d * n;
    CancelRight(r, r.mul(w(d), g), g, r.one);
    var m := r.add(w(d), r.neg(r.one));
    Laws(r, w(d), r.neg(r.one), g);
    Laws(r, r.neg(r.one), g, g);
    Laws(r, g, r.neg(g), g);
    NegOne(r, g);
    assert r.mul(m, g) == r.zero;
    if m == r.zero {
      Laws(r, r.one, r.neg(r.one), r.one);
      CancelRight(r, w(d), r.one, r.neg(r.one));
    }
  }

  lemma NegOne<T(!new)>(r: Ring<T>, g: T)
    requires IsRing(r)
    ensures r.mul(r.neg(r.one), g) == r.neg(g)
  {
    Laws(r, r.one, r.neg(r.one), g);
    Laws(r, r.one, g, g);
    Laws(r, g, r.one, g);
    Laws(r, g, r.neg(g), g);
    ZeroTimes(r, g);
    var x := r.mul(r.neg(r.one), g);
    Laws(r, g, x, x);
    Laws(r, g, r.neg(g), r.neg(g));
    Laws(r, x, g, g);
    Laws(r, r.neg(g), g, g);
    CancelRight(r, x, r.neg(g), g);
  }

  lemma {:induction false} GeometricPeriod<T(!new)>(r: Ring<T>, w: int -> T, d: int, n: int, k: nat)
    requires IsRing(r) && Powers(r, w) && w(n) == r.one
    ensures Geometric(r, w, d + n, k) == Geometric(r, w, d, k)
  {
    if k > 0 {
      GeometricPeriod(r, w, d, n, k - 1);
      PowerPeriods(r, w, n, d * (k - 1), k - 1);
      assert (d + n) * (k - 1) == d * (k - 1) + (k - 1) * n;
    }
  }

  /** The sum over i < count of x[i] times the powers (i - j) * k for all k < n. */
  ghost function Weighted<T>(r: Ring<T>, x: seq<T>, w: int -> T, j: int, n: nat, count: nat): T
    decreases count
  {
    if count == 0 then r.zero
    else
      var i := count - 1;
      r.add(Weighted(r, x, w, j, n, i), r.mul(Item(r, x, i), Geometric(r, w, i - j, n)))
  }

  /** The part of it for one k. */
  ghost function Line<T>(r: Ring<T>, x: seq<T>, w: int -> T, j: int, k: nat, count: nat): T
    decreases count
  {
    if count == 0 then r.zero
    else
      var i := count - 1;
      r.add(Line(r, x, w, j, k, i), r.mul(Item(r, x, i), w((i - j) * k)))
  }

  /** A coefficient turned back by j * k is a line. */
  lemma {:induction false} TurnedBack<T(!new)>(r: Ring<T>, x: seq<T>, w: int -> T, j: int, k: nat, count: nat)
    requires IsRing(r) && Powers(r, w)
    ensures r.mul(Sum(r, x, w, 0, 1, k, count), w(-(j * k))) == Line(r, x, w, j, k, count)
  {
    var v := w(-(j * k));
    if count == 0 {
      ZeroTimes(r, v);
    } else {
      TurnedBack(r, x, w, j, k, count - 1);
      var i := count - 1;
      assert 0 + 1 * i == i;
      Laws(r, Sum(r, x, w, 0, 1, k, i), r.mul(Item(r, x, i), w(k * i)), v);
      Laws(r, Item(r, x, i), w(k * i), v);
      PowerAdd(r, w, k * i, -(j * k));
      assert k * i + -(j * k) == (i - j) * k;
    }
  }

  lemma {:induction false} OneMoreLine<T(!new)>(r: Ring<T>, x: seq<T>, w: int -> T, j: int, k: nat, count: nat)
    requires IsRing(r)
    ensures Weighted(r, x, w, j, k + 1, count) == r.add(Weighted(r, x, w, j, k, count), Line(r, x, w, j, k, count))
    decreases count
  {
    if count == 0 {
      Laws(r, r.zero, r.zero, r.zero);
    } else {
      var i: nat := count - 1;
      var d := i - j;
      OneMoreLine(r, x, w, j, k, i);
      NextGeometric(r, w, d, k);
      TimesSum(r, Weighted(r, x, w, j, k, i), Line(r, x, w, j, k, i), Item(r, x, i), Geometric(r, w, d, k), w(d * k));
    }
  }

  lemma NextGeometric<T(!new)>(r: Ring<T>, w: int -> T, d: int, k: nat)
    ensures Geometric(r, w, d, k + 1) == r.add(Geometric(r, w, d, k), w(d * k))
  {
  }

  lemma TimesSum<T(!new)>(r: Ring<T>, u: T, v: T, a: T, g: T, p: T)
    requires IsRing(r)
    ensures r.add(r.add(u, v), r.mul(a, r.add(g, p))) == r.add(r.add(u, r.mul(a, g)), r.add(v, r.mul(a, p)))
  {
    Laws(r, g, p, a);
    Laws(r, a, r.add(g, p), a);
    Laws(r, a, g, a);
    Laws(r, a, p, a);
    Swap4(r, u, v, r.mul(a, g), r.mul(a, p));
  }

  lemma {:induction false} NoLines<T(!new)>(r: Ring<T>, x: seq<T>, w: int -> T, j: int, count: nat)
    requires IsRing(r)
    ensures Weighted(r, x, w, j, 0, count) == r.zero
    decreases count
  {
    if count > 0 {
      NoLines(r, x, w, j, count - 1);
      ZeroTimes(r, Item(r, x, count - 1));
      Laws(r, r.zero, r.zero, r.zero);
    }
  }

  /** Exchanging the two sums: the first k terms of the inverse transform of the transform. */
  lemma {:induction false} Exchanged<T(!new)>(r: Ring<T>, x: seq<T>, y: seq<T>, w: int -> T, v: int -> T, j: int, n: nat, k: nat)
    requires IsRing(r) && Powers(r, w) && k <= n == |y|
    requires (forall i :: 0 <= i < n ==> y[i] == Dft(r, x, w, n, i)) && forall e {:trigger v(e)} :: v(e) == w(-e)
    ensures Sum(r, y, v, 0, 1, j, k) == Weighted(r, x, w, j, k, n)
    decreases k
  {
    if k == 0 {
      NoLines(r, x, w, j, n);
    } else {
      Exchanged(r, x, y, w, v, j, n, k - 1);
      LastExchanged(r, x, y, w, v, j, n, k - 1);
      OneMoreLine(r, x, w, j, k - 1, n);
    }
  }

  lemma LastExchanged<T(!new)>(r: Ring<T>, x: seq<T>, y: seq<T>, w: int -> T, v: int -> T, j: int, n: nat, k: nat)
    requires IsRing(r) && Powers(r, w) && k < n == |y|
    requires y[k] == Dft(r, x, w, n, k) && forall e {:trigger v(e)} :: v(e) == w(-e)
    ensures Sum(r, y, v, 0, 1, j, k + 1) == r.add(Sum(r, y, v, 0, 1, j, k), Line(r, x, w, j, k, n))
  {
    assert 0 + 1 * k == k;
    TurnedBack(r, x, w, j, k, n);
  }

  /** Only the term i = j survives. */
  lemma {:induction false} OneSurvives<T(!new)>(r: Ring<T>, x: seq<T>, w: int -> T, j: int, n: nat, count: nat)
    requires Primitive(r, w, n) && 0 <= j < n && count <= n
    ensures Weighted(r, x, w, j, n, count) == if j < count then r.mul(Item(r, x, j), Multiple(r, n, r.one)) else r.zero
    decreases count
  {
    if count > 0 {
      OneSurvives(r, x, w, j, n, count - 1);
      var d, a := count - 1 - j, Item(r, x, count - 1);
      if d == 0 {
        GeometricZero(r, w, n);
        ZeroTimes(r, r.mul(a, Multiple(r, n, r.one)));
      } else {
        Vanishes(r, w, d, n);
        ZeroTimes(r, a);
        Laws(r, Weighted(r, x, w, j, n, count - 1), a, a);
      }
    }
  }

  lemma Vanishes<T(!new)>(r: Ring<T>, w: int -> T, d: int, n: nat)
    requires Primitive(r, w, n) && d < n && d + n > 0 && d != 0
    ensures Geometric(r, w, d, n) == r.zero
  {
    if d > 0 {
      RootsCancel(r, w, d, n);
    } else {
      GeometricPeriod(r, w, d, n, n);
      RootsCancel(r, w, d + n, n);
    }
  }

  lemma {:induction false} TimesMultiple<T(!new)>(r: Ring<T>, x: T, n: nat)
    requires IsRing(r)
    ensures r.mul(x, Multiple(r, n, r.one)) == Multiple(r, n, x)
  {
    if n == 0 {
      ZeroTimes(r, x);
    } else {
      TimesMultiple(r, x, n - 1);
      var m := Multiple(r, n - 1, r.one);
      Laws(r, m, r.one, x);
      Laws(r, r.add(m, r.one), x, x);
      Laws(r, m, x, x);
      Laws(r, r.one, x, x);
      Laws(r, x, x, x);
    }
  }

  /** The inverse transform of the transform of x is n times x. */
  lemma InverseUndoes<T(!new)>(r: Ring<T>, x: seq<T>, y: seq<T>, w: int -> T, v: int -> T, n: nat, j: nat)
    requires Primitive(r, w, n) && |x| == |y| == n && j < n
    requires (forall i :: 0 <= i < n ==> y[i] == Dft(r, x, w, n, i)) && forall e {:trigger v(e)} :: v(e) == w(-e)
    ensures Dft(r, y, v, n, j) == Multiple(r, n, x[j])
  {
    Exchanged(r, x, y, w, v, j, n, n);
    OneSurvives(r, x, w, j, n, n);
    TimesMultiple(r, x[j], n);
  }
}
