/**
 The uniform scalar quantisers of pitch and energy: encode_Wo(), decode_Wo(), and in decibels
 encode_energy() and decode_energy().
 */
module ScalarQuantiser {

  /** The width of one of n levels between lo and hi. */
  function StepOf(lo: real, hi: real, n: nat): (s: real)
    requires lo < hi && n > 0
    ensures s > 0.0 && s * n as real == hi - lo
  {
    (hi - lo) / n as real
  }

  /** The nearest level, by rounding the position between lo and hi, and clamped to the levels there are. */
  function Encode(v: real, lo: real, hi: real, n: nat): (i: nat)
    requires lo < hi && n > 0
    ensures i < n
  {
    Clamped((n as real * ((v - lo) / (hi - lo)) + 0.5).Floor, n)
  }

  function Clamped(r: int, n: nat): (i: nat)
    requires n > 0
    ensures i < n
  {
    if r < 0 then 0 else if r > n - 1 then n - 1 else r
  }

  function Decode(i: nat, lo: real, hi: real, n: nat): real
    requires lo < hi && n > 0
  {
    lo + StepOf(lo, hi, n) * i as real
  }

  /** The position that Encode rounds, in steps from lo. */
  lemma Position(v: real, lo: real, hi: real, n: nat, x: real)
    requires lo < hi && n > 0 && x == n as real * ((v - lo) / (hi - lo))
    ensures v == lo + StepOf(lo, hi, n) * x
  {
    var d, c, s := hi - lo, n as real, StepOf(lo, hi, n);
    var r := (v - lo) / d;
    assert r * d == v - lo;
    assert s * c == d;
    Rearranged(s, c, r, d);
  }

  lemma Rearranged(s: real, c: real, r: real, d: real)
    requires s * c == d
    ensures s * (c * r) == r * d
  {
    assert s * (c * r) == (s * c) * r;
  }

  lemma TimesOrder(s: real, a: real, b: real)
    requires s > 0.0 && a <= b
    ensures s * a <= s * b
  {
  }

  /** Encoding a level gives that level back. */
  lemma LevelKept(i: nat, lo: real, hi: real, n: nat)
    requires lo < hi && n > 0 && i < n
    ensures Encode(Decode(i, lo, hi, n), lo, hi, n) == i
  {
    var v := Decode(i, lo, hi, n);
    var x := n as real * ((v - lo) / (hi - lo));
    Position(v, lo, hi, n, x);
    SamePosition(StepOf(lo, hi, n), x, i as real);
  }

  lemma SamePosition(s: real, x: real, y: real)
    requires s > 0.0 && s * x == s * y
    ensures x == y
  {
    var d := x - y;
    assert s * d == s * x - s * y && s * -d == -(s * d);
    if d > 0.0 { Strict(s, d); } else if d < 0.0 { Strict(s, -d); }
  }

  lemma Strict(s: real, d: real)
    requires s > 0.0 && d > 0.0
    ensures s * d > 0.0
  {
  }

  function Abs(x: real): real { if x < 0.0 then -x else x }

  /** No level is nearer to the value than the one that is sent. */
  lemma Nearest(v: real, lo: real, hi: real, n: nat, j: nat)
    requires lo < hi && n > 0 && j < n
    ensures Abs(v - Decode(Encode(v, lo, hi, n), lo, hi, n)) <= Abs(v - Decode(j, lo, hi, n))
  {
    var i, s := Encode(v, lo, hi, n), StepOf(lo, hi, n);
    var x := EncodedFrom(v, lo, hi, n, i, s);
    CloserAt(v, lo, s, x, n, i, j);
    LevelAt(i, lo, hi, n, s);
    LevelAt(j, lo, hi, n, s);
  }

  lemma EncodedFrom(v: real, lo: real, hi: real, n: nat, i: nat, s: real) returns (x: real)
    requires lo < hi && n > 0 && i == Encode(v, lo, hi, n) && s == StepOf(lo, hi, n)
    ensures v == lo + s * x && i == Clamped((x + 0.5).Floor, n)
  {
    x := n as real * ((v - lo) / (hi - lo));
    Position(v, lo, hi, n, x);
  }

  lemma LevelAt(i: nat, lo: real, hi: real, n: nat, s: real)
    requires lo < hi && n > 0 && s == StepOf(lo, hi, n)
    ensures Decode(i, lo, hi, n) == lo + s * i as real
  {
  }

  lemma CloserAt(v: real, lo: real, s: real, x: real, n: nat, i: nat, j: nat)
    requires s > 0.0 && v == lo + s * x && n > 0 && j < n && i == Clamped((x + 0.5).Floor, n)
    ensures Abs(v - (lo + s * i as real)) <= Abs(v - (lo + s * j as real))
  {
    RoundedNearest(x, (x + 0.5).Floor, n, i, j);
    Closer(s, x, i as real, j as real);
    Shifted(v, lo, s * x, s * i as real);
    Shifted(v, lo, s * x, s * j as real);
  }

  lemma Closer(s: real, x: real, i: real, j: real)
    requires s > 0.0 && Abs(x - i) <= Abs(x - j)
    ensures Abs(s * x - s * i) <= Abs(s * x - s * j)
  {
    Distance(s, x, i);
    Distance(s, x, j);
    TimesOrder(s, Abs(x - i), Abs(x - j));
  }

  lemma Shifted(v: real, lo: real, sx: real, si: real)
    requires v == lo + sx
    ensures v - (lo + si) == sx - si
  {
  }

  lemma RoundedNearest(x: real, r: int, n: nat, i: nat, j: nat)
    requires n > 0 && j < n && r as real <= x + 0.5 < r as real + 1.0 && i == Clamped(r, n)
    ensures Abs(x - i as real) <= Abs(x - j as real)
  {
    if r < 0 {
      assert x < 0.0 && i == 0 && j as real >= 0.0;
    } else if r > n - 1 {
      assert r as real >= i as real + 1.0 && j as real <= i as real;
    } else {
      assert i as real - 0.5 <= x < i as real + 0.5;
      assert j as real <= i as real - 1.0 || j == i || j as real >= i as real + 1.0;
    }
  }

  lemma Distance(s: real, x: real, i: real)
    requires s > 0.0
    ensures Abs(s * x - s * i) == s * Abs(x - i)
  {
    assert s * x - s * i == s * (x - i);
    if x - i < 0.0 { Strict(s, i - x); assert s * (x - i) == -(s * (i - x)); } else { TimesOrder(s, 0.0, x - i); }
  }

  /** A decoded value is at least lo and one step or more below hi. */
  lemma DecodedInRange(i: nat, lo: real, hi: real, n: nat)
    requires lo < hi && n > 0 && i < n
    ensures lo <= Decode(i, lo, hi, n) <= hi - StepOf(lo, hi, n)
  {
    var s := StepOf(lo, hi, n);
    TimesOrder(s, 0.0, i as real);
    TimesOrder(s, i as real, n as real - 1.0);
    assert s * (n as real - 1.0) == s * n as real - s;
  }
}
