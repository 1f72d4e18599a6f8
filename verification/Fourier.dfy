/**
 The discrete Fourier transform over any commutative ring with a root of unity, and the identity
 that splits a transform of p * m points into p transforms of m points.
 */
module Fourier {

  datatype Ring<!T> = Ring(zero: T, one: T, add: (T, T) -> T, neg: T -> T, mul: (T, T) -> T)

  /** Names the elements at which the ring laws are wanted. */
  ghost predicate At3<T>(a: T, b: T, c: T) { true }

  ghost predicate RingLaws<T>(r: Ring<T>, a: T, b: T, c: T) {
    r.add(a, b) == r.add(b, a) && r.add(r.add(a, b), c) == r.add(a, r.add(b, c)) &&
    r.add(a, r.zero) == a && r.add(a, r.neg(a)) == r.zero &&
    r.mul(a, b) == r.mul(b, a) && r.mul(r.mul(a, b), c) == r.mul(a, r.mul(b, c)) &&
    r.mul(a, r.one) == a && r.mul(r.add(a, b), c) == r.add(r.mul(a, c), r.mul(b, c))
  }

  ghost predicate IsRing<T(!new)>(r: Ring<T>) {
    forall a: T, b: T, c: T {:trigger At3(a, b, c)} :: At3(a, b, c) && RingLaws(r, a, b, c)
  }

  lemma Laws<T(!new)>(r: Ring<T>, a: T, b: T, c: T)
    requires IsRing(r)
    ensures r.add(a, b) == r.add(b, a) && r.add(r.add(a, b), c) == r.add(a, r.add(b, c))
    ensures r.add(a, r.zero) == a && r.add(a, r.neg(a)) == r.zero
    ensures r.mul(a, b) == r.mul(b, a) && r.mul(r.mul(a, b), c) == r.mul(a, r.mul(b, c))
    ensures r.mul(a, r.one) == a && r.mul(r.add(a, b), c) == r.add(r.mul(a, c), r.mul(b, c))
  {
    assert At3(a, b, c);
  }

  lemma Swap4<T(!new)>(r: Ring<T>, a: T, b: T, c: T, d: T)
    requires IsRing(r)
    ensures r.add(r.add(a, b), r.add(c, d)) == r.add(r.add(a, c), r.add(b, d))
  {
    Laws(r, a, b, r.add(c, d));
    Laws(r, b, c, d);
    Laws(r, c, b, d);
    Laws(r, a, c, r.add(b, d));
  }

  /** Nothing but 0 is left unchanged by adding itself. */
  lemma ZeroTimes<T(!new)>(r: Ring<T>, a: T)
    requires IsRing(r)
    ensures r.mul(r.zero, a) == r.zero && r.mul(a, r.zero) == r.zero && r.add(r.zero, a) == a
  {
    var z := r.mul(r.zero, a);
    Laws(r, r.zero, r.zero, a);
    Laws(r, z, z, r.neg(z));
    Laws(r, a, r.zero, r.zero);
  }

  // ---- powers of the root of unity

  ghost predicate At2(a: int, b: int) { true }

  /** w(e) is the e-th power of w(1). */
  ghost predicate Powers<T(!new)>(r: Ring<T>, w: int -> T) {
    w(0) == r.one && forall a: int, b: int {:trigger At2(a, b)} :: At2(a, b) && w(a + b) == r.mul(w(a), w(b))
  }

  lemma PowerAdd<T(!new)>(r: Ring<T>, w: int -> T, a: int, b: int)
    requires Powers(r, w)
    ensures r.mul(w(a), w(b)) == w(a + b)
  {
    assert At2(a, b);
  }

  /** With w(n) = 1, the powers repeat after n steps. */
  lemma PowerPeriod<T(!new)>(r: Ring<T>, w: int -> T, n: int, a: int)
    requires IsRing(r) && Powers(r, w) && w(n) == r.one
    ensures w(a + n) == w(a)
  {
    PowerAdd(r, w, a, n);
    Laws(r, w(a), w(a), w(a));
  }

  lemma {:induction false} PowerPeriods<T(!new)>(r: Ring<T>, w: int -> T, n: int, a: int, c: nat)
    requires IsRing(r) && Powers(r, w) && w(n) == r.one
    ensures w(a + c * n) == w(a)
    decreases c
  {
    if c > 0 {
      PowerPeriods(r, w, n, a, c - 1);
      PowerPeriod(r, w, n, a + (c - 1) * n);
      assert a + (c - 1) * n + n == a + c * n;
    }
  }

  // ---- the transform

  function Item<T>(r: Ring<T>, x: seq<T>, i: int): T { if 0 <= i < |x| then x[i] else r.zero }

  ghost function Term<T>(r: Ring<T>, x: seq<T>, w: int -> T, b: int, s: int, step: int, j: int): T
  {
    r.mul(Item(r, x, b + s * j), w(step * j))
  }

  /** The sum over j < n of x[b + s * j] times the power step * j. */
  ghost function Sum<T>(r: Ring<T>, x: seq<T>, w: int -> T, b: int, s: int, step: int, n: nat): T
    decreases n
  {
    if n == 0 then r.zero
    else r.add(Sum(r, x, w, b, s, step, n - 1), Term(r, x, w, b, s, step, n - 1))
  }

  /** Coefficient k of the n-point transform of x. */
  ghost function Dft<T>(r: Ring<T>, x: seq<T>, w: int -> T, n: nat, k: int): T {
    Sum(r, x, w, 0, 1, k, n)
  }

  /** Steps that differ by a multiple of the period give the same sum. */
  lemma {:induction false} SumPeriod<T(!new)>(r: Ring<T>, x: seq<T>, w: int -> T, z: int, b: int, s: int, step: int,
                                              c: nat, n: nat)
    requires IsRing(r) && Powers(r, w) && w(z) == r.one
    ensures Sum(r, x, w, b, s, step + c * z, n) == Sum(r, x, w, b, s, step, n)
    decreases n
  {
    if n > 0 {
      SumPeriod(r, x, w, z, b, s, step, c, n - 1);
      TermPeriod(r, w, z, step, c, n - 1);
    }
  }

  lemma TermPeriod<T(!new)>(r: Ring<T>, w: int -> T, z: int, step: int, c: nat, j: nat)
    requires IsRing(r) && Powers(r, w) && w(z) == r.one
    ensures w((step + c * z) * j) == w(step * j)
  {
    var cj := c * j;
    assert cj >= 0;
    assert (step + c * z) * j == step * j + cj * z;
    PowerPeriods(r, w, z, step * j, cj);
  }

  ghost function Fold<T>(r: Ring<T>, t: seq<T>): T {
    if t == [] then r.zero else r.add(Fold(r, t[..|t| - 1]), t[|t| - 1])
  }

  lemma {:induction false} FoldAdd<T(!new)>(r: Ring<T>, a: seq<T>, b: seq<T>, c: seq<T>)
    requires IsRing(r) && |a| == |b| == |c| && forall i :: 0 <= i < |a| ==> c[i] == r.add(a[i], b[i])
    ensures Fold(r, c) == r.add(Fold(r, a), Fold(r, b))
  {
    if a == [] {
      Laws(r, r.zero, r.zero, r.zero);
    } else {
      var n := |a| - 1;
      FoldAdd(r, a[..n], b[..n], c[..n]);
      Swap4(r, Fold(r, a[..n]), Fold(r, b[..n]), a[n], b[n]);
    }
  }

  lemma {:induction false} FoldZero<T(!new)>(r: Ring<T>, t: seq<T>)
    requires IsRing(r) && forall i :: 0 <= i < |t| ==> t[i] == r.zero
    ensures Fold(r, t) == r.zero
  {
    if t != [] {
      FoldZero(r, t[..|t| - 1]);
      Laws(r, r.zero, r.zero, r.zero);
    }
  }

  /** t lists terms n0, n0 + 1, ... of the sum. */
  ghost predicate Terms<T>(r: Ring<T>, x: seq<T>, w: int -> T, b: int, s: int, step: int, n0: int, t: seq<T>) {
    forall i :: 0 <= i < |t| ==> t[i] == Term(r, x, w, b, s, step, n0 + i)
  }

  lemma {:induction false} SumSplit<T(!new)>(r: Ring<T>, x: seq<T>, w: int -> T, b: int, s: int, step: int, n0: nat, t: seq<T>)
    requires IsRing(r) && Terms(r, x, w, b, s, step, n0, t)
    ensures Sum(r, x, w, b, s, step, n0 + |t|) == r.add(Sum(r, x, w, b, s, step, n0), Fold(r, t))
  {
    var sum := Sum(r, x, w, b, s, step, n0);
    if t == [] {
      Laws(r, sum, sum, sum);
    } else {
      var q := |t| - 1;
      SumSplit(r, x, w, b, s, step, n0, t[..q]);
      assert t[q] == Term(r, x, w, b, s, step, n0 + q);
      Laws(r, sum, Fold(r, t[..q]), t[q]);
    }
  }

  /** Interleaved sum i of m terms, out of p, turned into place. */
  ghost function Part<T>(r: Ring<T>, x: seq<T>, w: int -> T, b: int, s: int, step: int, m: nat, p: nat, i: int): T {
    r.mul(Sum(r, x, w, b + s * i, s * p, step * p, m), w(step * i))
  }

  ghost predicate Parts<T>(r: Ring<T>, x: seq<T>, w: int -> T, b: int, s: int, step: int, m: nat, p: nat, t: seq<T>) {
    |t| == p && forall i :: 0 <= i < p ==> t[i] == Part(r, x, w, b, s, step, m, p, i)
  }

  /** One more term in an interleaved sum is term p * (m - 1) + i of the whole. */
  lemma PartStep<T(!new)>(r: Ring<T>, x: seq<T>, w: int -> T, b: int, s: int, step: int, m: nat, p: nat, n0: int, i: int)
    requires IsRing(r) && Powers(r, w) && m >= 1 && n0 == p * (m - 1)
    ensures Part(r, x, w, b, s, step, m, p, i)
         == r.add(Part(r, x, w, b, s, step, m - 1, p, i), Term(r, x, w, b, s, step, n0 + i))
  {
    Interleaved(s, p, m - 1, i);
    Interleaved(step, p, m - 1, i);
    LastTerm(r, w, Sum(r, x, w, b + s * i, s * p, step * p, m - 1), Item(r, x, b + s * (n0 + i)), step * p * (m - 1), step * i);
  }

  lemma LastTerm<T(!new)>(r: Ring<T>, w: int -> T, sub: T, item: T, d: int, e: int)
    requires IsRing(r) && Powers(r, w)
    ensures r.mul(r.add(sub, r.mul(item, w(d))), w(e)) == r.add(r.mul(sub, w(e)), r.mul(item, w(d + e)))
  {
    Laws(r, sub, r.mul(item, w(d)), w(e));
    Laws(r, item, w(d), w(e));
    PowerAdd(r, w, d, e);
  }

  lemma Interleaved(s: int, p: int, j: int, i: int)
    ensures s * p * j + s * i == s * (p * j + i)
  {
  }

  /** One more term in each interleaved sum is one more run of terms in the whole. */
  lemma OneMoreRun<T(!new)>(r: Ring<T>, x: seq<T>, w: int -> T, b: int, s: int, step: int, m: nat, p: nat, n0: int,
                            more: seq<T>, less: seq<T>, run: seq<T>)
    requires IsRing(r) && Powers(r, w) && m >= 1 && n0 == p * (m - 1)
    requires Parts(r, x, w, b, s, step, m, p, more) && Parts(r, x, w, b, s, step, m - 1, p, less)
    requires |run| == p && Terms(r, x, w, b, s, step, n0, run)
    ensures Fold(r, more) == r.add(Fold(r, less), Fold(r, run))
  {
    forall i | 0 <= i < p ensures more[i] == r.add(less[i], run[i]) { PartStep(r, x, w, b, s, step, m, p, n0, i); }
    FoldAdd(r, less, run, more);
  }

  ghost function PartsOf<T>(r: Ring<T>, x: seq<T>, w: int -> T, b: int, s: int, step: int, m: nat, p: nat): (t: seq<T>)
    ensures Parts(r, x, w, b, s, step, m, p, t)
  {
    seq(p, i requires 0 <= i < p => Part(r, x, w, b, s, step, m, p, i))
  }

  ghost function TermsOf<T>(r: Ring<T>, x: seq<T>, w: int -> T, b: int, s: int, step: int, n0: int, q: nat): (t: seq<T>)
    ensures |t| == q && Terms(r, x, w, b, s, step, n0, t)
  {
    seq(q, i requires 0 <= i < q => Term(r, x, w, b, s, step, n0 + i))
  }

  lemma NoTerms<T(!new)>(r: Ring<T>, x: seq<T>, w: int -> T, b: int, s: int, step: int, p: nat, t: seq<T>)
    requires IsRing(r) && Parts(r, x, w, b, s, step, 0, p, t)
    ensures Fold(r, t) == r.zero
  {
    forall i | 0 <= i < p ensures t[i] == r.zero { ZeroTimes(r, w(step * i)); }
    FoldZero(r, t);
  }

  /** A sum of p * m terms is made of the p interleaved sums of m terms. */
  lemma {:induction false} CooleyTukey<T(!new)>(r: Ring<T>, x: seq<T>, w: int -> T, b: int, s: int, step: int,
                                                m: nat, p: nat, n: nat, t: seq<T>)
    requires IsRing(r) && Powers(r, w) && n == p * m && Parts(r, x, w, b, s, step, m, p, t)
    ensures Sum(r, x, w, b, s, step, n) == Fold(r, t)
    decreases m
  {
    if m == 0 {
      NoTerms(r, x, w, b, s, step, p, t);
    } else {
      Shorter(n, p, m);
      var less := PartsOf(r, x, w, b, s, step, m - 1, p);
      CooleyTukey(r, x, w, b, s, step, m - 1, p, n - p, less);
      Lengthened(r, x, w, b, s, step, m, p, n - p, t, less);
    }
  }

  /** One more term for each of the p interleaved sums. */
  lemma Lengthened<T(!new)>(r: Ring<T>, x: seq<T>, w: int -> T, b: int, s: int, step: int, m: nat, p: nat, n0: nat,
                            more: seq<T>, less: seq<T>)
    requires IsRing(r) && Powers(r, w) && m >= 1 && n0 == p * (m - 1)
    requires Parts(r, x, w, b, s, step, m, p, more) && Parts(r, x, w, b, s, step, m - 1, p, less)
    requires Sum(r, x, w, b, s, step, n0) == Fold(r, less)
    ensures Sum(r, x, w, b, s, step, n0 + p) == Fold(r, more)
  {
    var run := TermsOf(r, x, w, b, s, step, n0, p);
    OneMoreRun(r, x, w, b, s, step, m, p, n0, more, less, run);
    SumSplit(r, x, w, b, s, step, n0, run);
  }

  lemma Shorter(n: int, p: nat, m: nat)
    requires n == p * m && m >= 1
    ensures n - p == p * (m - 1) && n - p >= 0
  {
  }
}
