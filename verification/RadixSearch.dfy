/**
 The order in which kf_factor() tries its radices, 4, 2, 3 and then the odd numbers, and what it
 means for the ones that are found.
 */
module RadixSearch {

  /** The next radix to try after p does not divide n. */
  function NextRadix(p: nat, n: nat, floorSqrt: nat): nat {
    var q := if p == 4 then 2 else if p == 2 then 3 else p + 2;
    if q > floorSqrt then n else q
  }

  /** What the search may be at: a radix that can still be tried, or n itself. */
  predicate Candidate(p: nat, n: nat, floorSqrt: nat) { p == n || p == 4 || p == 2 || 3 <= p <= floorSqrt }

  ghost function Tries(p: nat, n: nat, floorSqrt: nat): nat {
    if p == n then 0 else if p == 4 then floorSqrt + 3 else if p == 2 then floorSqrt + 2
    else if p <= floorSqrt then floorSqrt + 1 - p else 0
  }

  lemma FewerTries(p: nat, n: nat, floorSqrt: nat)
    requires Candidate(p, n, floorSqrt) && p != n
    ensures var q := NextRadix(p, n, floorSqrt);
            Candidate(q, n, floorSqrt) && Tries(q, n, floorSqrt) < Tries(p, n, floorSqrt)
  {
  }

  /** The divisor that the trials from p on find. */
  function Found(p: nat, n: nat, floorSqrt: nat): (r: nat)
    requires n >= 1 && Candidate(p, n, floorSqrt)
    ensures Candidate(r, n, floorSqrt) && r >= 1 && n % r == 0
    decreases Tries(p, n, floorSqrt)
  {
    if n % p == 0 then p else FewerTries(p, n, floorSqrt); Found(NextRadix(p, n, floorSqrt), n, floorSqrt)
  }

  /** The inner loop of kf_factor(). */
  method FindRadix(start: nat, n: nat, floorSqrt: nat) returns (p: nat)
    requires n >= 1 && Candidate(start, n, floorSqrt)
    ensures p == Found(start, n, floorSqrt) && p >= 1 && n % p == 0 && Candidate(p, n, floorSqrt)
  {
    p := start;
    while n % p != 0
      invariant Candidate(p, n, floorSqrt) && Found(p, n, floorSqrt) == Found(start, n, floorSqrt)
      decreases Tries(p, n, floorSqrt)
    {
      FoundNext(p, n, floorSqrt);
      p := NextRadix(p, n, floorSqrt);
    }
  }

  lemma FoundNext(p: nat, n: nat, floorSqrt: nat)
    requires n >= 1 && Candidate(p, n, floorSqrt) && n % p != 0
    ensures var q := NextRadix(p, n, floorSqrt);
            Candidate(q, n, floorSqrt) && Found(q, n, floorSqrt) == Found(p, n, floorSqrt) &&
            Tries(q, n, floorSqrt) < Tries(p, n, floorSqrt)
  {
    FewerTries(p, n, floorSqrt);
  }

  ghost predicate Prime(p: nat) { p >= 2 && NoneBelow(p, p) }

  ghost predicate NoneBelow(n: nat, k: nat) { forall d :: 2 <= d < k ==> !Divides(d, n) }

  function Mul(d: int, k: int): int { d * k }

  ghost predicate Divides(d: nat, n: nat) { exists k: nat :: n == Mul(d, k) }

  /** None of the radices that come before p divides n. */
  ghost predicate Tried(p: nat, n: nat) {
    p == 4 || (p == 2 && !Divides(4, n)) || (p >= 3 && p % 2 == 1 && NoneBelow(n, p))
  }

  /** The search for a divisor of n that started at `start` has come to p in order. */
  ghost predicate Reached(start: nat, p: nat, n: nat) {
    (Tried(p, n) || (p == n && Prime(n))) && Rank(start) <= Rank(p)
  }

  /** The place of a radix in the order of the trials. */
  function Rank(p: nat): nat { if p == 4 then 0 else if p == 2 then 1 else p }

  predicate Bounds(n: nat, floorSqrt: nat) { n < (floorSqrt + 1) * (floorSqrt + 1) }

  /** C's remainder decides it. */
  lemma DividesIff(d: nat, n: nat)
    requires d >= 1
    ensures n % d == 0 <==> Divides(d, n)
  {
    var q, r := n / d, n % d;
    assert n == d * q + r;
    if r == 0 {
      assert n == Mul(d, q);
    } else if Divides(d, n) {
      var k: nat :| n == Mul(d, k);
      NoPart(d, k, q, r);
    }
  }

  lemma NoPart(d: nat, k: int, q: int, r: nat)
    requires d >= 1 && d * k == d * q + r && r < d
    ensures r == 0
  {
    assert d * (k - q) == r;
    if k - q >= 1 { AtLeast(d, k - q); } else if k - q <= -1 { AtLeast(d, q - k); assert d * (q - k) == -(d * (k - q)); }
  }

  lemma AtLeast(d: nat, x: int)
    requires x >= 1
    ensures d * x >= d
  {
  }

  /** A divisor of a divisor divides. */
  lemma Transitive(d: nat, p: nat, n: nat)
    requires Divides(d, p) && Divides(p, n)
    ensures Divides(d, n)
  {
    var a: nat :| p == Mul(d, a);
    var b: nat :| n == Mul(p, b);
    Regrouped(d, a, b);
    assert n == Mul(d, a * b);
  }

  lemma Regrouped(d: nat, a: nat, b: nat)
    ensures Mul(Mul(d, a), b) == Mul(d, a * b)
  {
  }

  /** The first divisor found in order is prime. */
  lemma FoundIsPrime(p: nat, n: nat)
    requires p >= 2 && Divides(p, n) && (p == 2 || NoneBelow(n, p))
    ensures Prime(p)
  {
    forall d | 2 <= d < p ensures !Divides(d, p) {
      if Divides(d, p) { Transitive(d, p, n); }
    }
  }

  /** What is left when the trials pass the square root is prime. */
  lemma RestIsPrime(n: nat, q: nat, floorSqrt: nat)
    requires n >= 2 && Bounds(n, floorSqrt) && q > floorSqrt && NoneBelow(n, q)
    ensures Prime(n)
  {
    forall d | 2 <= d < n ensures !Divides(d, n) {
      if Divides(d, n) {
        var e := Cofactor(d, n);
        if d >= q { SmallerFactor(d, e, floorSqrt); }
      }
    }
  }

  lemma Cofactor(d: nat, n: nat) returns (e: nat)
    requires 1 <= d < n && Divides(d, n)
    ensures n == d * e && e >= 2 && Divides(e, n)
  {
    e :| n == Mul(d, e);
    assert n == Mul(e, d);
    assert d * 0 == 0 && d * 1 == d;
  }

  lemma SmallerFactor(d: nat, e: nat, s: nat)
    requires d >= s + 1 && d * e < (s + 1) * (s + 1)
    ensures e <= s
  {
    if e >= s + 1 { NotLess(d, e, s + 1); }
  }

  lemma NotLess(d: nat, e: nat, t: nat)
    requires d >= t && e >= t
    ensures d * e >= t * t
  {
    assert d * e >= t * e && t * e >= t * t;
  }

  /** One step of the trials: p does not divide n, and neither does anything up to the next odd number. */
  lemma PassedOver(p: nat, n: nat, q: nat)
    requires n >= 1 && p >= 1 && Tried(p, n) && !Divides(p, n) && q == (if p == 4 then 2 else if p == 2 then 3 else p + 2)
    ensures Tried(q, n) && (q == 2 || NoneBelow(n, q)) && Rank(p) <= Rank(q)
  {
    if p >= 3 && p != 4 {
      assert !Divides(2, n);
      assert p + 1 == Mul(2, (p + 1) / 2);
      if Divides(p + 1, n) { Transitive(2, p + 1, n); }
    }
  }

  /** The next radix that is tried is one in order, or the rest, which is prime. */
  lemma NextInOrder(start: nat, p: nat, n: nat, floorSqrt: nat)
    requires n >= 2 && Bounds(n, floorSqrt) && p >= 1 && Reached(start, p, n) && n % p != 0
    ensures Reached(start, NextRadix(p, n, floorSqrt), n)
  {
    DividesIff(p, n);
    assert n == Mul(n, 1);
    var q := if p == 4 then 2 else if p == 2 then 3 else p + 2;
    PassedOver(p, n, q);
    if q > floorSqrt {
      if q == 2 { assert NoneBelow(n, 2); }
      RestIsPrime(n, q, floorSqrt);
      RestComesLast(p, n, q);
    }
  }

  lemma RestComesLast(p: nat, n: nat, q: nat)
    requires n >= 2 && Prime(n) && Tried(p, n) && !Divides(p, n) && p >= 1 && (q == 2 || NoneBelow(n, q)) && Rank(p) <= Rank(q)
    requires q == (if p == 4 then 2 else if p == 2 then 3 else p + 2)
    ensures Rank(p) <= Rank(n)
  {
    FourIsNot();
    assert n == Mul(n, 1);
    assert Divides(n, n);
  }

  /** The radix found in order is 4 or prime. */
  lemma {:induction false} FoundInOrder(start: nat, p: nat, n: nat, floorSqrt: nat)
    requires n >= 2 && Bounds(n, floorSqrt) && Candidate(p, n, floorSqrt) && Reached(start, p, n)
    ensures var r := Found(p, n, floorSqrt);
            (r == 4 || Prime(r)) && (Tried(r, n) || r == n) && Rank(start) <= Rank(r)
    decreases Tries(p, n, floorSqrt)
  {
    DividesIff(p, n);
    if n % p == 0 {
      if Tried(p, n) && p != 4 { FoundIsPrime(p, n); }
    } else {
      FewerTries(p, n, floorSqrt);
      NextInOrder(start, p, n, floorSqrt);
      FoundInOrder(start, NextRadix(p, n, floorSqrt), n, floorSqrt);
    }
  }

  lemma FourIsNot()
    ensures !Prime(4)
  {
    assert 4 == Mul(2, 2);
    assert Divides(2, 4);
  }

  /** The same radix is the first one to try on the quotient. */
  lemma TriedOn(p: nat, n: nat, m: nat)
    requires p >= 2 && m >= 1 && n == p * m && (Tried(p, n) || p == n)
    ensures m > 1 ==> Tried(p, m)
  {
    if m > 1 {
      QuotientDivides(p, n, m);
      if p == 2 {
        if Divides(4, m) { Transitive(4, m, n); }
      } else if p != 4 {
        forall d | 2 <= d < p ensures !Divides(d, m) { if Divides(d, m) { Transitive(d, m, n); } }
      }
    }
  }

  lemma QuotientDivides(p: nat, n: nat, m: nat)
    requires p >= 1 && m > 1 && n == p * m
    ensures Divides(m, n) && n > p
  {
    assert n == Mul(m, p);
    AtLeast(p, m - 1);
    assert p * m == p * (m - 1) + p;
  }

  // ---- the list of radices

  /** The radices, at the even places of the buffer, are 4 or prime, and stand in the order of the trials. */
  ghost predicate FoursThenPrimes(f: seq<nat>) {
    (forall i :: 0 <= i < |f| && i % 2 == 0 ==> RadixAt(f, i)) &&
    forall i :: 0 <= i && i + 2 < |f| && i % 2 == 0 ==> InOrderAt(f, i)
  }

  ghost predicate RadixAt(f: seq<nat>, i: nat)
    requires i < |f|
  {
    f[i] == 4 || Prime(f[i])
  }

  predicate InOrderAt(f: seq<nat>, i: nat)
    requires i + 2 < |f|
  {
    Rank(f[i]) <= Rank(f[i + 2])
  }

  lemma OneMoreRadix(f: seq<nat>, p: nat, rest: nat)
    requires |f| % 2 == 0 && FoursThenPrimes(f) && (p == 4 || Prime(p)) && (f != [] ==> Rank(f[|f| - 2]) <= Rank(p))
    ensures FoursThenPrimes(f + [p, rest])
  {
    var g := f + [p, rest];
    forall i | 0 <= i < |g| && i % 2 == 0 ensures RadixAt(g, i) {
      if i < |f| { assert RadixAt(f, i); }
    }
    forall i | 0 <= i && i + 2 < |g| && i % 2 == 0 ensures InOrderAt(g, i) {
      if i + 2 < |f| { assert InOrderAt(f, i); }
    }
  }

  /** The radices so far are in order, and p is the first one to try on the rest n. */
  ghost predicate InProgress(f: seq<nat>, p: nat, n: nat) {
    |f| % 2 == 0 && FoursThenPrimes(f) && (f != [] ==> Rank(f[|f| - 2]) <= Rank(p)) && (n > 1 ==> Tried(p, n))
  }

  lemma OneMoreFactor(f: seq<nat>, start: nat, n: nat, floorSqrt: nat, p: nat, m: nat)
    requires InProgress(f, start, n) && n >= 2 && Bounds(n, floorSqrt) && Candidate(start, n, floorSqrt)
    requires p == Found(start, n, floorSqrt) && n == p * m && m >= 1
    ensures InProgress(f + [p, m], p, m)
  {
    FoundInOrder(start, start, n, floorSqrt);
    TriedOn(p, n, m);
    OneMoreRadix(f, p, m);
    LastButOne(f, p, m);
  }

  lemma LastButOne(f: seq<nat>, p: nat, m: nat)
    requires |f| % 2 == 0
    ensures var g := f + [p, m]; |g| % 2 == 0 && g[|g| - 2] == p
  {
  }
}
