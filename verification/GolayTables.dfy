/**
 The Golay encoder and decoder: the tables they look words up in, and the loops that fill the tables.
 */
module GolayTables {
  import opened Bits
  import opened Combinations
  import opened GolayCode

  // ---- error patterns from the places of their terms

  /** The word with a term in each of the given places, the lowest place being 1. */
  function WordOf(s: seq<int>): nat
    requires forall i :: 0 <= i < |s| ==> s[i] >= 1
  {
    if s == [] then 0 else WordOf(s[..|s| - 1]) + Pow2(s[|s| - 1] - 1)
  }

  /** arr2int() */
  method ArrToInt(a: array<int>, r: nat) returns (result: nat)
    requires a.Length == r + 1 && forall i :: 1 <= i <= r ==> a[i] >= 1
    ensures (forall i :: 0 <= i < |a[1..]| ==> a[1..][i] >= 1) && result == WordOf(a[1..])
  {
    result := 0;
    for i := 1 to r + 1
      invariant (forall j :: 0 <= j < |a[1..i]| ==> a[1..i][j] >= 1) && result == WordOf(a[1..i])
    {
      var mul, temp := 1, a[i] - 1;
      while temp > 0
        invariant 0 <= temp < a[i] && mul == Pow2(a[i] - 1 - temp)
      {
        mul, temp := 2 * mul, temp - 1;
      }
      assert a[1..i + 1][..i - 1] == a[1..i];
      result := result + mul;
    }
    assert a[1..] == a[1..r + 1];
  }

  lemma TopHalf(w: nat, e: nat)
    requires e > 0
    ensures (w + Pow2(e)) / 2 == w / 2 + Pow2(e - 1) && (w + Pow2(e)) % 2 == w % 2
  {
  }

  /** A new top term. */
  lemma {:induction false} NewTop(w: nat, e: nat)
    requires w < Pow2(e)
    ensures Weight(w + Pow2(e)) == Weight(w) + 1
  {
    if e > 0 {
      TopHalf(w, e);
      NewTop(w / 2, e - 1);
      WeightHalf(w + Pow2(e));
      WeightHalf(w);
    } else {
      assert Weight(1) == 1 && Weight(0) == 0;
    }
  }

  lemma WeightHalf(p: nat)
    ensures Weight(p) == p % 2 + Weight(p / 2)
  {
  }

  lemma {:induction false} NewTopBit(w: nat, e: nat, k: nat)
    requires w < Pow2(e)
    ensures BitAt(w + Pow2(e), k) == if k == e then 1 else BitAt(w, k)
  {
    if e > 0 {
      TopHalf(w, e);
      if k > 0 { NewTopBit(w / 2, e - 1, k - 1); }
    } else if k > 0 {
      ZeroBits(k - 1);
    }
  }

  lemma {:induction false} WordBound(n: int, s: seq<int>, m: nat)
    requires IsComb(n, s) && forall i :: 0 <= i < |s| ==> s[i] <= m
    ensures WordOf(s) < Pow2(m) && Weight(WordOf(s)) == |s|
    decreases |s|
  {
    if s != [] {
      var e := s[|s| - 1] - 1;
      WordBound(n, s[..|s| - 1], e);
      NewTop(WordOf(s[..|s| - 1]), e);
      BelowTop(WordOf(s[..|s| - 1]), e, m);
    } else {
      assert Weight(0) == 0;
    }
  }

  lemma BelowTop(w: nat, e: nat, m: nat)
    requires w < Pow2(e) && e < m
    ensures w + Pow2(e) < Pow2(m)
  {
    if e + 1 < m { Pow2Grows(e + 1, m); }
  }

  lemma {:induction false} WordBits(n: int, s: seq<int>, w: nat, k: nat)
    requires IsComb(n, s) && w == WordOf(s)
    ensures BitAt(w, k) == 1 <==> k + 1 in s
    decreases |s|
  {
    if s == [] {
      ZeroBits(k);
    } else {
      var init, e := s[..|s| - 1], s[|s| - 1] - 1;
      WordBits(n, init, WordOf(init), k);
      WordBound(n, init, e);
      TermAdded(WordOf(init), e, k);
      InLast(s, k + 1);
    }
  }

  lemma TermAdded(w: nat, e: nat, k: nat)
    requires w < Pow2(e)
    ensures BitAt(w + Pow2(e), k) == 1 <==> BitAt(w, k) == 1 || k == e
  {
    NewTopBit(w, e, k);
  }

  lemma InLast(s: seq<int>, x: int)
    requires s != []
    ensures x in s <==> x in s[..|s| - 1] || x == s[|s| - 1]
  {
    assert s == s[..|s| - 1] + [s[|s| - 1]];
  }

  lemma {:induction false} SortedUnique(n: int, s: seq<int>, t: seq<int>)
    requires IsComb(n, s) && IsComb(n, t) && forall x :: x in s <==> x in t
    ensures s == t
    decreases |s|
  {
    assert t != [] ==> t[0] in s;
    if s != [] {
      SameLast(n, s, t);
      var last, u, v := s[|s| - 1], s[..|s| - 1], t[..|t| - 1];
      assert s == u + [last] && t == v + [last];
      assert last !in u && last !in v;
      forall x ensures x in u <==> x in v { assert x in s <==> x in t; }
      SortedUnique(n, u, v);
    }
  }

  lemma SameLast(n: int, s: seq<int>, t: seq<int>)
    requires IsComb(n, s) && IsComb(n, t) && s != [] && forall x :: x in s <==> x in t
    ensures t != [] && s[|s| - 1] == t[|t| - 1]
  {
    assert s[|s| - 1] in t;
    assert t[|t| - 1] in s;
  }

  /** Different places give different patterns. */
  lemma WordInjective(n: int, s: seq<int>, t: seq<int>)
    requires IsComb(n, s) && IsComb(n, t) && WordOf(s) == WordOf(t)
    ensures s == t
  {
    forall x ensures x in s <==> x in t {
      if x >= 1 {
        WordBits(n, s, WordOf(s), x - 1);
        WordBits(n, t, WordOf(t), x - 1);
      }
    }
    SortedUnique(n, s, t);
  }

  // ---- filling the decoding table

  /** Patterns of fewer than r errors, and those of r errors that at least k others follow. */
  ghost predicate Done(c: seq<int>, r: nat, k: int) {
    IsComb(23, c) && (|c| < r || (|c| == r && After(23, c) >= k))
  }

  ghost predicate Known(w: nat, r: nat, k: int) {
    exists c: seq<int> :: Done(c, r, k) && w == WordOf(c)
  }

  /** Each filled place holds a pattern met so far whose remainder is the place. */
  ghost predicate Filling(table: seq<nat>, filled: set<int>, r: nat, k: int) {
    |table| == 2048 &&
    forall i :: i in filled ==> 0 <= i < 2048 && Codeword(Xor(table[i], i)) && Known(table[i], r, k)
  }

  lemma KnownIsLight(w: nat, r: nat, k: int)
    requires Known(w, r, k)
    ensures w < Pow2(23) && Weight(w) <= r
  {
    var c: seq<int> :| Done(c, r, k) && w == WordOf(c);
    WordBound(23, c, 23);
  }

  /** Distinct patterns of up to three errors have distinct remainders. */
  lemma NewPlace(table: seq<nat>, filled: set<int>, s: nat, c: seq<int>, k: int)
    requires IsComb(23, c) && |c| <= 3 && k > After(23, c) && Filling(table, filled, |c|, k)
    requires s < 2048 && Codeword(Xor(WordOf(c), s))
    ensures s !in filled
  {
    if s in filled {
      var w, t := WordOf(c), table[s];
      WordBound(23, c, 23);
      KnownIsLight(t, |c|, k);
      XorBack(t, s);
      XorBack(w, s);
      NearestUnique(s, Xor(t, s), Xor(w, s));
      var d: seq<int> :| Done(d, |c|, k) && t == WordOf(d);
      WordInjective(23, c, d);
      assert false;
    }
  }

  lemma Weaken(w: nat, r: nat, k: int, r2: nat, k2: int)
    requires Known(w, r, k) && (r < r2 || (r == r2 && k >= k2))
    ensures Known(w, r2, k2)
  {
    var c: seq<int> :| Done(c, r, k) && w == WordOf(c);
    assert Done(c, r2, k2);
  }

  lemma FillingOn(table: seq<nat>, filled: set<int>, r: nat, k: int, r2: nat, k2: int)
    requires Filling(table, filled, r, k) && (r < r2 || (r == r2 && k >= k2))
    ensures Filling(table, filled, r2, k2)
  {
    forall i | i in filled ensures Known(table[i], r2, k2) { Weaken(table[i], r, k, r2, k2); }
  }

  lemma Filed(before: seq<nat>, filled: set<int>, s: nat, c: seq<int>)
    requires IsComb(23, c) && |c| <= 3 && Filling(before, filled, |c|, After(23, c) + 1)
    requires s < 2048 && Codeword(Xor(WordOf(c), s))
    ensures Filling(before[s := WordOf(c)], filled + {s}, |c|, After(23, c)) && |filled + {s}| == |filled| + 1
  {
    NewPlace(before, filled, s, c, After(23, c) + 1);
    FillingOn(before, filled, |c|, After(23, c) + 1, |c|, After(23, c));
    assert Done(c, |c|, After(23, c));
  }

  /** Files an error pattern under its remainder. */
  method Store(table: array<nat>, temp: nat, ghost filled: set<int>, ghost c: seq<int>) returns (ghost now: set<int>)
    requires table.Length == 2048 && IsComb(23, c) && |c| <= 3 && temp == WordOf(c)
    requires Filling(table[..], filled, |c|, After(23, c) + 1)
    modifies table
    ensures Filling(table[..], now, |c|, After(23, c)) && |now| == |filled| + 1
  {
    WordBound(23, c, 23);
    var s := GetSyndrome(temp);
    Filed(table[..], filled, s, c);
    now := filled + {s};
    ghost var after := table[..][s := temp];
    table[s] := temp;
    assert table[..] == after;
  }

  /** Single errors: the first two entries are set directly, the others by their remainders. */
  method FillSingles(table: array<nat>) returns (ghost filled: set<int>)
    requires table.Length == 2048
    modifies table
    ensures Filling(table[..], filled, 1, 0) && |filled| == 24
  {
    table[0] := 0;
    table[1] := 1;
    filled := {0, 1};
    FirstTwo(table[..]);
    var temp := 1;
    for i := 2 to 24
      invariant temp == Pow2(i - 2) && |filled| == i && Filling(table[..], filled, 1, 24 - i)
    {
      temp := temp * 2;
      SinglePlace(i);
      filled := Store(table, temp, filled, [i]);
    }
  }

  lemma SinglePlace(i: int)
    requires 1 <= i <= 23
    ensures IsComb(23, [i]) && WordOf([i]) == Pow2(i - 1) && After(23, [i]) == 23 - i
  {
    assert [i][..0] == [];
    assert [i][1..] == [];
    ChooseOne(23 - i);
  }

  lemma FirstTwo(table: seq<nat>)
    requires |table| == 2048 && table[0] == 0 && table[1] == 1
    ensures Filling(table, {0, 1}, 1, 22)
  {
    assert Multiple(0) == 0;
    assert Codeword(0);
    XorSame(0);
    XorSame(1);
    assert Done([], 1, 22) && WordOf([]) == 0;
    SinglePlace(1);
    assert Done([1], 1, 22) && WordOf([1]) == 1;
  }

  /** All patterns of r errors, in the order nextcomb() steps through them. */
  method FillOfWeight(table: array<nat>, r: nat, count: nat, ghost filled: set<int>) returns (ghost now: set<int>)
    requires table.Length == 2048 && ((r == 2 && count == 253) || (r == 3 && count == 1771))
    requires Filling(table[..], filled, r - 1, 0)
    modifies table
    ensures Filling(table[..], now, r, 0) && |now| == |filled| + count
  {
    var a := new int[r + 1](i => i);
    FirstPattern(23, r, count, a[1..]);
    FillingOn(table[..], filled, r - 1, 0, r, count);
    now := StorePattern(table, r, a, filled);
    for i := 1 to count
      invariant IsComb(23, a[1..]) && After(23, a[1..]) == count - i
      invariant Filling(table[..], now, r, count - i) && |now| == |filled| + i
    {
      NotLast(23, a[1..]);
      NextComb(23, r, a);
      now := StorePattern(table, r, a, now);
    }
  }

  lemma FirstPattern(n: int, r: nat, count: nat, s: seq<int>)
    requires r <= n && ((r == 2 && 2 * count == n * (n - 1)) || (r == 3 && 6 * count == n * (n - 1) * (n - 2)))
    requires |s| == r && forall i :: 0 <= i < r ==> s[i] == i + 1
    ensures IsComb(n, s) && After(n, s) == count - 1
  {
    assert s == Range(1, r);
    FirstOne(n, 0, r);
    if r == 2 { ChooseTwo(n); } else { ChooseThree(n); }
  }

  method StorePattern(table: array<nat>, r: nat, a: array<int>, ghost filled: set<int>) returns (ghost now: set<int>)
    requires table.Length == 2048 && r <= 3 && a.Length == r + 1 && IsComb(23, a[1..])
    requires Filling(table[..], filled, r, After(23, a[1..]) + 1)
    modifies table
    ensures Filling(table[..], now, r, After(23, a[1..])) && |now| == |filled| + 1
  {
    ghost var c := a[1..];
    assert forall i :: 1 <= i <= r ==> a[i] == c[i - 1];
    var temp := ArrToInt(a, r);
    now := Store(table, temp, filled, c);
  }

  lemma {:induction false} ChooseTwo(n: nat)
    ensures 2 * Choose(n, 2) == n * (n - 1)
  {
    if n > 0 { ChooseTwo(n - 1); ChooseOne(n - 1); }
  }

  lemma {:induction false} ChooseThree(n: nat)
    ensures 6 * Choose(n, 3) == n * (n - 1) * (n - 2)
  {
    if n > 0 { ChooseThree(n - 1); ChooseTwo(n - 1); Cubic(n); }
  }

  lemma Cubic(n: int)
    ensures (n - 1) * (n - 2) * (n - 3) + 3 * ((n - 1) * (n - 2)) == n * (n - 1) * (n - 2)
  {
  }

  lemma {:induction false} FullSet(s: set<int>, n: nat)
    requires (forall i :: i in s ==> 0 <= i < n) && |s| == n
    ensures forall i :: 0 <= i < n ==> i in s
  {
    if n > 0 {
      FewerThan(s - {n - 1}, n - 1);
      FullSet(s - {n - 1}, n - 1);
    }
  }

  lemma {:induction false} FewerThan(s: set<int>, n: nat)
    requires forall i :: i in s ==> 0 <= i < n
    ensures |s| <= n
  {
    if n == 0 {
      assert forall i :: i !in s;
      assert s == {};
    } else {
      FewerThan(s - {n - 1}, n - 1);
    }
  }

  /** Every remainder has a pattern of at most three errors: the code is perfect. */
  ghost predicate Complete(table: seq<nat>) {
    |table| == 2048 &&
    forall s :: 0 <= s < 2048 ==> table[s] < Pow2(23) && Weight(table[s]) <= 3 && Codeword(Xor(table[s], s))
  }

  lemma FilledUp(table: seq<nat>, filled: set<int>)
    requires Filling(table, filled, 3, 0) && |filled| == 2048
    ensures Complete(table)
  {
    FullSet(filled, 2048);
    forall s | 0 <= s < 2048 ensures table[s] < Pow2(23) && Weight(table[s]) <= 3 && Codeword(Xor(table[s], s)) {
      KnownIsLight(table[s], 3, 0);
    }
  }

  method FillDecodingTable(table: array<nat>)
    requires table.Length == 2048
    modifies table
    ensures Complete(table[..])
  {
    ghost var filled := FillSingles(table);
    filled := FillOfWeight(table, 2, 253, filled);
    filled := FillOfWeight(table, 3, 1771, filled);
    FilledUp(table[..], filled);
  }

  // ---- the encoding table

  lemma {:induction false} ShlNext(d: nat, n: nat)
    ensures Shl(d, n + 1) == 2 * Shl(d, n)
    decreases n
  {
    if n > 0 { ShlNext(2 * d, n - 1); }
  }

  lemma {:induction false} HighAndLow(d: nat, s: nat, n: nat)
    requires s < Pow2(n)
    ensures Xor(Shl(d, n), s) == Shl(d, n) + s && Shr(Shl(d, n) + s, n) == d
  {
    if n > 0 {
      HighAndLow(d, s / 2, n - 1);
      ShlNext(d, n - 1);
      Halves(Shl(d, n - 1), s);
    }
  }

  lemma Halves(h: nat, s: nat)
    ensures (2 * h + s) / 2 == h + s / 2 && Xor(2 * h, s) == 2 * Xor(h, s / 2) + s % 2
  {
    XorHalf(2 * h, s);
    assert (2 * h) / 2 == h && (2 * h) % 2 == 0;
  }

  /** Each entry is a codeword that starts with the information bits. */
  ghost predicate Systematic(table: seq<nat>, n: nat) {
    n <= |table| && forall d :: 0 <= d < n ==> Codeword(table[d]) && Shr(table[d], 11) == d
  }

  method FillEncodingTable(table: array<nat>)
    requires table.Length == 4096
    modifies table
    ensures Systematic(table[..], 4096)
  {
    for pattern := 0 to 4096
      invariant Systematic(table[..], pattern)
    {
      var c := Systematise(pattern);
      ghost var before := table[..];
      table[pattern] := c;
      assert table[..] == before[pattern := c];
    }
  }

  /** The data above its remainder. */
  method Systematise(pattern: nat) returns (c: nat)
    requires pattern < 4096
    ensures Codeword(c) && Shr(c, 11) == pattern
  {
    var temp := Shl(pattern, 11);
    DataBound(pattern);
    var s := GetSyndrome(temp);
    HighAndLow(pattern, s, 11);
    c := temp + s;
  }

  lemma DataBound(d: nat)
    requires d < 4096
    ensures Shl(d, 11) < Pow2(23) && Pow2(11) == X11
  {
    ShlIsMul(d, 11);
    assert Pow2(11) == 2048;
    assert Pow2(12) == 4096;
    Pow2Add(12, 11);
  }

  // ---- the interface

  class Golay23 {
    const encodingTable: array<nat>
    const decodingTable: array<nat>
    var inited: bool

    ghost predicate Valid()
      reads this, encodingTable, decodingTable
    {
      inited ==> Systematic(encodingTable[..], 4096) && encodingTable.Length == 4096 && Complete(decodingTable[..])
    }

    constructor ()
      ensures Valid() && !inited && encodingTable.Length == 4096 && decodingTable.Length == 2048
      ensures fresh(encodingTable) && fresh(decodingTable)
    {
      encodingTable, decodingTable := new nat[4096](i => 0), new nat[2048](i => 0);
      inited := false;
    }

    /** golay23_init() */
    method Init()
      requires encodingTable.Length == 4096 && decodingTable.Length == 2048 && encodingTable != decodingTable
      modifies this, encodingTable, decodingTable
      ensures Valid() && inited
    {
      FillEncodingTable(encodingTable);
      FillDecodingTable(decodingTable);
      inited := true;
    }

    /** golay23_encode(): the codeword that starts with the data. */
    method Encode(data: nat) returns (c: nat)
      requires Valid() && inited && data <= 0xfff
      ensures Codeword(c) && Shr(c, 11) == data
    {
      c := encodingTable[data];
    }

    /** golay23_decode(): the one codeword within three errors of what was received. */
    method Decode(received: nat) returns (c: nat)
      requires Valid() && inited && received < Pow2(23)
      ensures Codeword(c) && Weight(Xor(c, received)) <= 3
      ensures forall d :: Codeword(d) && Weight(Xor(d, received)) <= 3 ==> d == c
    {
      var s := GetSyndrome(received);
      ghost var e := decodingTable[..][s];
      c := Xor(received, decodingTable[s]);
      Corrected(received, s, e);
      forall d | Codeword(d) && Weight(Xor(d, received)) <= 3 ensures d == c { NearestUnique(received, d, c); }
    }
  }

  lemma Corrected(received: nat, s: nat, e: nat)
    requires Codeword(Xor(received, s)) && Codeword(Xor(e, s))
    ensures Codeword(Xor(received, e)) && Xor(Xor(received, e), received) == e
  {
    Sum(Xor(received, s), Xor(e, s));
    XorVia(received, e, s);
    XorSwap(received, e);
    XorBack(e, received);
  }

  /** Whatever up to three bits of a codeword are flipped, decoding returns the codeword. */
  lemma CorrectsThree(c: nat, e: nat, decoded: nat)
    requires Codeword(c) && Weight(e) <= 3
    requires Codeword(decoded) && Weight(Xor(decoded, Xor(c, e))) <= 3
    ensures decoded == c
  {
    XorSwap(c, Xor(c, e));
    XorSwap(c, e);
    XorBack(e, c);
    NearestUnique(Xor(c, e), c, decoded);
  }

  /** golay23_count_errors() */
  method CountErrors(received: nat, corrected: nat) returns (errors: nat)
    requires received < Pow2(23) && corrected < Pow2(23)
    ensures errors == Weight(Xor(received, corrected))
  {
    var diff: nat := Xor(received, corrected);
    ghost var all: nat := Weight(diff);
    XorBound(received, corrected, 23);
    errors := 0;
    ghost var left: nat := 23;
    for i := 0 to 23
      invariant left == 23 - i && diff < Pow2(left) && errors + Weight(diff) == all
    {
      WeightHalf(diff);
      HalfBelow(diff, left);
      if diff % 2 != 0 { errors := errors + 1; }
      diff, left := diff / 2, left - 1;
    }
    assert Pow2(0) == 1 && Weight(0) == 0;
  }

  lemma HalfBelow(x: nat, n: nat)
    requires n >= 1 && x < Pow2(n)
    ensures x / 2 < Pow2(n - 1)
  {
  }
}
