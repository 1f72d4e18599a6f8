/**
 Stepping through the r-element subsets of {1..n} in lexicographic order.
 */
module Combinations {
  import opened Bits

  function Choose(n: nat, k: nat): nat {
    if k == 0 then 1 else if n == 0 then 0 else Choose(n - 1, k - 1) + Choose(n - 1, k)
  }

  /** s lists a subset of {1..n} in increasing order. */
  predicate IsComb(n: int, s: seq<int>) {
    (forall i :: 0 <= i < |s| ==> 1 <= s[i] <= n) && forall i, j :: 0 <= i < j < |s| ==> s[i] < s[j]
  }

  /** How many subsets of the size of s come after it. */
  function After(n: int, s: seq<int>): nat
    requires forall i :: 0 <= i < |s| ==> s[i] <= n
  {
    if s == [] then 0 else Choose(n - s[0], |s|) + After(n, s[1..])
  }

  lemma {:induction false} TooFew(n: nat, k: nat)
    requires n < k
    ensures Choose(n, k) == 0
  {
    if n > 0 { TooFew(n - 1, k - 1); TooFew(n - 1, k); }
  }

  lemma {:induction false} ChooseGrows(m: nat, n: nat, k: nat)
    requires m <= n
    ensures Choose(m, k) <= Choose(n, k)
    decreases n
  {
    if m < n && k > 0 { ChooseGrows(m, n - 1, k); }
  }

  lemma {:induction false} ChooseOne(n: nat)
    ensures Choose(n, 1) == n
  {
    if n > 0 { ChooseOne(n - 1); }
  }

  /** Fewer subsets follow s than there are subsets of the numbers above lo. */
  lemma {:induction false} AfterBound(n: int, lo: int, s: seq<int>)
    requires IsComb(n, s) && 0 <= lo <= n && forall i :: 0 <= i < |s| ==> lo < s[i]
    ensures After(n, s) < Choose(n - lo, |s|)
    decreases |s|
  {
    if s != [] {
      AfterBound(n, s[0], s[1..]);
      ChooseGrows(n - s[0] + 1, n - lo, |s|);
    }
  }

  /** A subset is determined by its size and the number of subsets that follow it. */
  lemma {:induction false} AfterInjective(n: int, s: seq<int>, t: seq<int>)
    requires IsComb(n, s) && IsComb(n, t) && |s| == |t| && After(n, s) == After(n, t)
    ensures s == t
    decreases |s|
  {
    if s != [] {
      if s[0] < t[0] { AfterBound(n, s[0], t); }
      if t[0] < s[0] { AfterBound(n, t[0], s); }
      AfterInjective(n, s[1..], t[1..]);
      assert s == [s[0]] + s[1..] && t == [t[0]] + t[1..];
    }
  }

  /** Nothing follows the top k numbers. */
  lemma {:induction false} LastOne(n: int, k: nat)
    requires k <= n
    ensures After(n, Range(n - k + 1, k)) == 0
    decreases k
  {
    if k > 0 {
      TooFew(k - 1, k);
      LastOne(n, k - 1);
      assert Range(n - k + 1, k)[1..] == Range(n - (k - 1) + 1, k - 1);
    }
  }

  /** All other subsets of the numbers above x follow the first one. */
  lemma {:induction false} FirstOne(n: int, x: int, k: nat)
    requires 0 <= x && x + k <= n
    ensures After(n, Range(x + 1, k)) + 1 == Choose(n - x, k)
    decreases k
  {
    if k > 0 {
      FirstOne(n, x + 1, k - 1);
      assert Range(x + 1, k)[1..] == Range(x + 2, k - 1);
    }
  }

  /** A common beginning contributes the same to both counts. */
  lemma {:induction false} CommonStart(n: int, p: seq<int>, u: seq<int>, v: seq<int>)
    requires |u| == |v|
    requires forall i :: 0 <= i < |p + u| ==> (p + u)[i] <= n
    requires forall i :: 0 <= i < |p + v| ==> (p + v)[i] <= n
    ensures (forall i :: 0 <= i < |u| ==> u[i] <= n) && (forall i :: 0 <= i < |v| ==> v[i] <= n)
    ensures After(n, p + u) - After(n, u) == After(n, p + v) - After(n, v)
    decreases |p|
  {
    assert forall i :: 0 <= i < |u| ==> u[i] == (p + u)[|p| + i];
    assert forall i :: 0 <= i < |v| ==> v[i] == (p + v)[|p| + i];
    if p == [] {
      assert p + u == u && p + v == v;
    } else {
      assert (p + u)[1..] == p[1..] + u && (p + v)[1..] == p[1..] + v;
      CommonStart(n, p[1..], u, v);
    }
  }

  /** The last number with room above it moves up and the rest follow it closely. */
  lemma MovedUp(n: int, s: seq<int>, j: nat)
    requires IsComb(n, s) && j < |s| && s[j] < n - (|s| - 1 - j)
    ensures IsComb(n, s[..j] + Range(s[j] + 1, |s| - j))
  {
  }

  lemma Shape(n: int, s: seq<int>, j: nat)
    requires IsComb(n, s) && j < |s| && forall i :: j < i < |s| ==> s[i] == n - (|s| - 1 - i)
    ensures s == s[..j] + ([s[j]] + Range(n - (|s| - j - 1) + 1, |s| - j - 1))
  {
  }

  /** [x], followed by the last k numbers, is followed by one subset more than x + 1, x + 2, ... */
  lemma OneMore(n: int, x: int, k: nat)
    requires 0 <= x < n - k
    ensures After(n, Range(x + 1, k + 1)) + 1 == After(n, [x] + Range(n - k + 1, k))
  {
    LastOne(n, k);
    assert ([x] + Range(n - k + 1, k))[1..] == Range(n - k + 1, k);
    FirstOne(n, x, k + 1);
  }

  /** The subset that comes next is followed by one subset less. */
  lemma Successor(n: int, s: seq<int>, j: nat)
    requires IsComb(n, s) && j < |s| && s[j] < n - (|s| - 1 - j)
    requires forall i :: j < i < |s| ==> s[i] == n - (|s| - 1 - i)
    ensures var next := s[..j] + Range(s[j] + 1, |s| - j);
            IsComb(n, next) && After(n, next) + 1 == After(n, s)
  {
    var k := |s| - j - 1;
    MovedUp(n, s, j);
    Shape(n, s, j);
    CommonStart(n, s[..j], [s[j]] + Range(n - k + 1, k), Range(s[j] + 1, k + 1));
    OneMore(n, s[j], k);
  }

  /** The last subset is the only one that nothing follows. */
  lemma NotLast(n: int, s: seq<int>)
    requires IsComb(n, s) && s != [] && After(n, s) > 0
    ensures s[0] != n - |s| + 1
  {
    if s[0] == n - |s| + 1 {
      Spread(n, s, 0);
      assert s == Range(n - |s| + 1, |s|);
      LastOne(n, |s|);
    }
  }

  lemma {:induction false} Spread(n: int, s: seq<int>, i: nat)
    requires IsComb(n, s) && s != [] && i < |s| && s[0] == n - |s| + 1
    ensures forall j :: i <= j < |s| ==> s[j] <= n - |s| + 1 + j
    ensures forall j :: 0 <= j < |s| ==> s[0] + j <= s[j]
  {
    Above(s, |s| - 1);
    Below(n, s, i);
  }

  lemma {:induction false} Above(s: seq<int>, m: nat)
    requires m < |s| && forall i, j :: 0 <= i < j < |s| ==> s[i] < s[j]
    ensures forall j :: 0 <= j <= m ==> s[0] + j <= s[j]
  {
    if m > 0 {
      Above(s, m - 1);
      assert s[m - 1] < s[m];
    }
  }

  lemma {:induction false} Below(n: int, s: seq<int>, i: nat)
    requires IsComb(n, s) && i < |s|
    ensures forall j :: i <= j < |s| ==> s[j] <= n - |s| + 1 + j
    decreases |s| - i
  {
    if i + 1 < |s| {
      Below(n, s, i + 1);
      assert s[i] < s[i + 1];
    }
  }

  lemma Assembled(n: int, s: seq<int>, j: nat, next: seq<int>)
    requires IsComb(n, s) && j < |s| && s[j] < n - (|s| - 1 - j)
    requires forall i :: j < i < |s| ==> s[i] == n - (|s| - 1 - i)
    requires |next| == |s| && next[..j] == s[..j] && forall i :: j <= i < |s| ==> next[i] == s[j] + i - j + 1
    ensures IsComb(n, next) && After(n, next) + 1 == After(n, s)
  {
    assert next == s[..j] + Range(s[j] + 1, |s| - j);
    Successor(n, s, j);
  }

  /** nextcomb(), on the 1-based array it is given. */
  method NextComb(n: int, r: nat, a: array<int>)
    requires 1 <= r && a.Length == r + 1 && IsComb(n, a[1..]) && a[1] != n - r + 1
    modifies a
    ensures IsComb(n, a[1..]) && After(n, a[1..]) + 1 == After(n, old(a[1..]))
  {
    ghost var s := a[1..];
    a[r] := a[r] + 1;
    if a[r] <= n {
      Assembled(n, s, r - 1, a[1..]);
      return;
    }
    var j := Room(n, r, a, s);
    FollowClosely(a, j, r);
    Assembled(n, s, j - 1, a[1..]);
  }

  /** The last position before r whose number can still grow. */
  method Room(n: int, r: nat, a: array<int>, ghost s: seq<int>) returns (j: nat)
    requires 1 <= r && a.Length == r + 1 && IsComb(n, s) && |s| == r && s[0] != n - r + 1
    requires a[1..] == s[r - 1 := s[r - 1] + 1] && a[r] > n
    ensures 1 <= j < r && s[j - 1] < n - r + j && forall i :: j - 1 < i < r ==> s[i] == n - r + i + 1
  {
    j := r - 1;
    Below(n, s, 0);
    assert forall m :: 1 <= m < r ==> a[m] == a[1..][m - 1];
    assert a[r] == a[1..][r - 1];
    while a[j] == n - r + j
      invariant 1 <= j <= r - 1
      invariant forall i :: j <= i < r ==> s[i] == n - r + i + 1
      decreases j
    {
      j := j - 1;
    }
  }

  method FollowClosely(a: array<int>, j: nat, r: nat)
    requires 1 <= j <= r && a.Length == r + 1
    modifies a
    ensures forall m :: 0 <= m < j ==> a[m] == old(a[m])
    ensures forall m :: j <= m <= r ==> a[m] == old(a[j]) + m - j + 1
  {
    var i := r;
    while i >= j
      invariant j - 1 <= i <= r
      invariant forall m :: 0 <= m <= i ==> a[m] == old(a[m])
      invariant forall m :: i < m <= r ==> a[m] == old(a[j]) + m - j + 1
    {
      a[i] := a[j] + i - j + 1;
      i := i - 1;
    }
  }
}
