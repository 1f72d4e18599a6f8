/**
 The bitwise operators of C on non-negative integers, each described by what it does to
 one bit.  Every module that shifts, masks or flips bits reasons through these lemmas.
 */
module Bits {

  type Bit = x: int | 0 <= x <= 1
  type Byte = x: int | 0 <= x < 256

  function Pow2(n: nat): (p: nat)
    ensures p >= 1
  {
    if n == 0 then 1 else 2 * Pow2(n - 1)
  }

  /** Bit k of x, bit 0 being the least significant one. */
  function BitAt(x: nat, k: nat): Bit {
    if k == 0 then x % 2 else BitAt(x / 2, k - 1)
  }

  /** C's x << n on an unbounded word. */
  function Shl(x: nat, n: nat): nat
    decreases n
  {
    if n == 0 then x else Shl(2 * x, n - 1)
  }

  /** C's x >> n. */
  function Shr(x: nat, n: nat): nat {
    if n == 0 then x else Shr(x / 2, n - 1)
  }

  /** C's x | y. */
  function Or(x: nat, y: nat): nat {
    if x == 0 then y else if y == 0 then x
    else (if x % 2 == 1 || y % 2 == 1 then 1 else 0) + 2 * Or(x / 2, y / 2)
  }

  /** C's x ^ y. */
  function Xor(x: nat, y: nat): nat {
    if x == 0 then y else if y == 0 then x
    else (if x % 2 != y % 2 then 1 else 0) + 2 * Xor(x / 2, y / 2)
  }

  /** C's x & y. */
  function And(x: nat, y: nat): nat {
    if x == 0 || y == 0 then 0
    else (if x % 2 == 1 && y % 2 == 1 then 1 else 0) + 2 * And(x / 2, y / 2)
  }

  lemma {:induction false} ZeroBits(k: nat)
    ensures BitAt(0, k) == 0
  {
    if k > 0 { ZeroBits(k - 1); }
  }

  lemma {:induction false} OrBit(x: nat, y: nat, k: nat)
    ensures BitAt(Or(x, y), k) == if BitAt(x, k) == 1 || BitAt(y, k) == 1 then 1 else 0
  {
    ZeroBits(k);
    if x != 0 && y != 0 && k > 0 { OrBit(x / 2, y / 2, k - 1); }
  }

  lemma {:induction false} XorBit(x: nat, y: nat, k: nat)
    ensures BitAt(Xor(x, y), k) == if BitAt(x, k) != BitAt(y, k) then 1 else 0
  {
    ZeroBits(k);
    if x != 0 && y != 0 && k > 0 { XorBit(x / 2, y / 2, k - 1); }
  }

  lemma {:induction false} XorSwap(x: nat, y: nat)
    ensures Xor(x, y) == Xor(y, x)
  {
    if x > 0 && y > 0 { XorSwap(x / 2, y / 2); }
  }

  lemma {:induction false} OrBound(x: nat, y: nat, n: nat)
    requires x < Pow2(n) && y < Pow2(n)
    ensures Or(x, y) < Pow2(n)
  {
    if n > 0 { OrBound(x / 2, y / 2, n - 1); }
  }

  lemma {:induction false} XorBound(x: nat, y: nat, n: nat)
    requires x < Pow2(n) && y < Pow2(n)
    ensures Xor(x, y) < Pow2(n)
  {
    if n > 0 { XorBound(x / 2, y / 2, n - 1); }
  }

  lemma {:induction false} ShlBit(x: nat, n: nat, k: nat)
    ensures BitAt(Shl(x, n), k) == if k < n then 0 else BitAt(x, k - n)
    decreases n
  {
    if n > 0 {
      ShlBit(2 * x, n - 1, k);
      if k == n - 1 { assert (2 * x) % 2 == 0; }
      if k >= n { assert (2 * x) / 2 == x; }
    }
  }

  lemma {:induction false} ShrBit(x: nat, n: nat, k: nat)
    ensures BitAt(Shr(x, n), k) == BitAt(x, n + k)
  {
    if n > 0 { ShrBit(x / 2, n - 1, k); }
  }

  lemma {:induction false} HighBits(x: nat, n: nat, k: nat)
    requires x < Pow2(n) && k >= n
    ensures BitAt(x, k) == 0
  {
    if n == 0 { ZeroBits(k); } else { HighBits(x / 2, n - 1, k - 1); }
  }

  /** Two words below 2^n that agree on their n low bits are equal. */
  lemma {:induction false} SameBits(x: nat, y: nat, n: nat)
    requires x < Pow2(n) && y < Pow2(n)
    requires forall k :: 0 <= k < n ==> BitAt(x, k) == BitAt(y, k)
    ensures x == y
  {
    if n > 0 {
      assert BitAt(x, 0) == BitAt(y, 0);
      forall k | 0 <= k < n - 1 ensures BitAt(x / 2, k) == BitAt(y / 2, k) {
        assert BitAt(x, k + 1) == BitAt(y, k + 1);
      }
      SameBits(x / 2, y / 2, n - 1);
    }
  }

  /** Two words with the same bits are equal. */
  lemma {:induction false} Extensional(x: nat, y: nat)
    requires forall k: nat :: BitAt(x, k) == BitAt(y, k)
    ensures x == y
    decreases x + y
  {
    assert BitAt(x, 0) == BitAt(y, 0);
    if x > 0 || y > 0 {
      forall k: nat ensures BitAt(x / 2, k) == BitAt(y / 2, k) { assert BitAt(x, k + 1) == BitAt(y, k + 1); }
      Extensional(x / 2, y / 2);
    }
  }

  /** A word whose bits from n up are all clear is below 2^n. */
  lemma {:induction false} ClearAbove(x: nat, n: nat)
    requires forall k: nat :: k >= n ==> BitAt(x, k) == 0
    ensures x < Pow2(n)
  {
    if n > 0 {
      forall k: nat | k >= n - 1 ensures BitAt(x / 2, k) == 0 {
        assert BitAt(x, k + 1) == 0;
      }
      ClearAbove(x / 2, n - 1);
    } else if x > 0 {
      var k := TopBit(x);
      assert false;
    }
  }

  lemma {:induction false} TopBit(x: nat) returns (k: nat)
    requires x > 0
    ensures BitAt(x, k) == 1
  {
    if x % 2 == 1 { k := 0; } else { var j := TopBit(x / 2); k := j + 1; }
  }

  /** x % 2^n keeps the n low bits. */
  lemma {:induction false} ModBit(x: nat, n: nat, k: nat)
    ensures BitAt(x % Pow2(n), k) == if k < n then BitAt(x, k) else 0
  {
    if n == 0 {
      ZeroBits(k);
    } else {
      HalveMod(x, Pow2(n - 1));
      if k > 0 { ModBit(x / 2, n - 1, k - 1); }
    }
  }

  lemma HalveMod(x: nat, p: nat)
    requires p >= 1
    ensures (x % (2 * p)) / 2 == (x / 2) % p
    ensures (x % (2 * p)) % 2 == x % 2
  {
    var q, r := DivMod(x, 2 * p);
    var m := p * q;
    assert (2 * p) * q == 2 * m;
    HalveSum(x, m, r);
    ModUnique(x / 2, p, q, r / 2);
  }

  lemma DivMod(x: nat, p: nat) returns (q: nat, r: nat)
    requires p >= 1
    ensures x == p * q + r && r < p && r == x % p && q == x / p
  {
    q, r := x / p, x % p;
  }

  lemma HalveSum(x: nat, m: nat, r: nat)
    requires x == 2 * m + r
    ensures x / 2 == m + r / 2 && x % 2 == r % 2
  {
  }

  lemma ModUnique(x: nat, p: nat, q: nat, r: nat)
    requires p >= 1 && r < p && x == p * q + r
    ensures x % p == r && x / p == q
  {
    var d := q - x / p;
    assert p * d == x % p - r;
    MulGap(p, d);
  }

  lemma MulGap(p: int, d: int)
    requires p >= 1 && -p < p * d < p
    ensures d == 0
  {
  }

  lemma {:induction false} Pow2Add(a: nat, b: nat)
    ensures Pow2(a + b) == Pow2(a) * Pow2(b)
  {
    if a > 0 { Pow2Add(a - 1, b); }
  }

  lemma {:induction false} ShlIsMul(x: nat, n: nat)
    ensures Shl(x, n) == x * Pow2(n)
    decreases n
  {
    if n > 0 { ShlIsMul(2 * x, n - 1); }
  }

  /** The number whose binary digits are b, most significant digit first. */
  function FromBits(b: seq<Bit>): (x: nat)
    ensures x < Pow2(|b|)
  {
    if b == [] then 0 else 2 * FromBits(b[..|b| - 1]) + (b[|b| - 1] as int)
  }

  lemma {:induction false} FromBitsBit(b: seq<Bit>, k: nat)
    ensures BitAt(FromBits(b), k) == if k < |b| then b[|b| - 1 - k] else 0
  {
    if b == [] {
      ZeroBits(k);
    } else {
      var x := FromBits(b[..|b| - 1]);
      assert (2 * x + b[|b| - 1]) / 2 == x && (2 * x + b[|b| - 1]) % 2 == b[|b| - 1];
      if k > 0 { FromBitsBit(b[..|b| - 1], k - 1); }
    }
  }

  lemma {:induction false} Pow2Grows(a: nat, b: nat)
    requires a < b
    ensures Pow2(a) < Pow2(b)
    decreases b
  {
    if a < b - 1 { Pow2Grows(a, b - 1); }
  }

  /** In how many of the first n places two bit strings differ. */
  function Hamming(a: seq<Bit>, b: seq<Bit>, n: nat): (d: nat)
    requires n <= |a| && n <= |b|
    ensures d <= n
  {
    if n == 0 then 0 else Hamming(a, b, n - 1) + (if a[n - 1] != b[n - 1] then 1 else 0)
  }

  /** from, from + 1, ... */
  function Range(from: int, n: nat): (s: seq<int>)
    ensures |s| == n && forall i :: 0 <= i < n ==> s[i] == from + i
  {
    seq(n, i => from + i)
  }
}
