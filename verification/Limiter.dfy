/**
 The decoder's output stage: a limiter that scales down a frame whose peak is above 30000, then
 the conversion to 16-bit samples.
 */
module Limiter {

  const SET_POINT: real := 30000.0

  /** The largest sample among the first n, but at least 0. */
  function Peak(s: seq<real>, n: nat): (p: real)
    requires n <= |s|
    ensures p >= 0.0 && forall i :: 0 <= i < n ==> s[i] <= p
    ensures p == 0.0 || exists i :: 0 <= i < n && s[i] == p
  {
    if n == 0 then 0.0 else var p := Peak(s, n - 1); if s[n - 1] > p then s[n - 1] else p
  }

  /** 1, or one over the square of how far the peak is above the set point. */
  function Gain(peak: real): real {
    var over := peak / SET_POINT;
    if over > 1.0 then 1.0 / (over * over) else 1.0
  }

  function Limited(s: seq<real>): (r: seq<real>)
    ensures |r| == |s|
  {
    var g := Gain(Peak(s, |s|));
    seq(|s|, i requires 0 <= i < |s| => Scaled(s[i], g))
  }

  function Scaled(x: real, g: real): real { x * g }

  /** ear_protection() */
  method EarProtection(a: array<real>)
    modifies a
    ensures a[..] == Limited(old(a[..]))
  {
    ghost var s := a[..];
    var maxSample := 0.0;
    for i := 0 to a.Length
      invariant maxSample == Peak(s, i)
    {
      if a[i] > maxSample { maxSample := a[i]; }
    }
    var over := maxSample / 30000.0;
    if over > 1.0 {
      var gain := 1.0 / (over * over);
      assert gain == Gain(maxSample);
      ScaleAll(a, gain);
    } else {
      assert Gain(maxSample) == 1.0;
      forall i | 0 <= i < |s| ensures Scaled(s[i], 1.0) == s[i] {}
    }
  }

  method ScaleAll(a: array<real>, gain: real)
    modifies a
    ensures forall i :: 0 <= i < a.Length ==> a[i] == Scaled(old(a[i]), gain)
  {
    for i := 0 to a.Length
      invariant forall j :: 0 <= j < i ==> a[j] == Scaled(old(a[j]), gain)
      invariant forall j :: i <= j < a.Length ==> a[j] == old(a[j])
    {
      a[i] := a[i] * gain;
    }
  }

  lemma GainPositive(peak: real)
    ensures Gain(peak) > 0.0
  {
    var over := peak / SET_POINT;
    if over > 1.0 { Grows(over); Inverse(over * over); }
  }

  lemma Grows(x: real)
    requires x > 1.0
    ensures x * x > x
  {
    assert x * x - x == x * (x - 1.0);
    Product(x, x - 1.0);
  }

  lemma Product(x: real, y: real)
    requires x > 0.0 && y > 0.0
    ensures x * y > 0.0
  {
  }

  lemma Inverse(x: real)
    requires x > 0.0
    ensures 1.0 / x > 0.0 && x * (1.0 / x) == 1.0
  {
  }

  /** The peak itself comes out at or below the set point. */
  lemma PeakLimited(peak: real)
    requires peak >= 0.0
    ensures Scaled(peak, Gain(peak)) <= SET_POINT
  {
    var over := peak / SET_POINT;
    if over > 1.0 {
      Grows(over);
      Inverse(over * over);
      var g := 1.0 / (over * over);
      Reduced(over, over * over, g);
      assert peak == SET_POINT * over;
      assert Scaled(peak, g) == SET_POINT * Scaled(over, g);
    }
  }

  lemma Reduced(over: real, u: real, g: real)
    requires u > over && Scaled(u, g) == 1.0 && g > 0.0
    ensures Scaled(over, g) < 1.0
  {
    StrictScale(over, u, g);
  }

  lemma StrictScale(x: real, y: real, g: real)
    requires x < y && g > 0.0
    ensures Scaled(x, g) < Scaled(y, g)
  {
  }

  lemma ScaledOrder(x: real, y: real, g: real)
    requires g > 0.0
    ensures x <= y <==> Scaled(x, g) <= Scaled(y, g)
  {
    assert Scaled(y, g) - Scaled(x, g) == (y - x) * g;
    if x < y { Product(y - x, g); } else if y < x { Product(x - y, g); assert (x - y) * g == -((y - x) * g); }
  }

  /** No sample exceeds the set point; signs and order are those of the input. */
  lemma LimitedShape(s: seq<real>, i: nat, j: nat)
    requires i < |s| && j < |s|
    ensures Limited(s)[i] <= SET_POINT
    ensures s[i] <= s[j] <==> Limited(s)[i] <= Limited(s)[j]
    ensures s[i] >= 0.0 <==> Limited(s)[i] >= 0.0
    ensures s[i] <= 0.0 <==> Limited(s)[i] <= 0.0
  {
    var p := Peak(s, |s|);
    var g := Gain(p);
    GainPositive(p);
    PeakLimited(p);
    ScaledOrder(s[i], p, g);
    ScaledOrder(s[i], s[j], g);
    ScaledOrder(0.0, s[i], g);
    ScaledOrder(s[i], 0.0, g);
  }

  /** Limiting a limited frame changes nothing. */
  lemma LimitedTwice(s: seq<real>)
    ensures Limited(Limited(s)) == Limited(s)
  {
    var r := Limited(s);
    var p := Peak(r, |r|);
    assert p <= SET_POINT by {
      forall i | 0 <= i < |r| ensures r[i] <= SET_POINT { LimitedShape(s, i, i); }
    }
    assert p / SET_POINT <= 1.0;
    assert forall i :: 0 <= i < |r| ==> Scaled(r[i], 1.0) == r[i];
  }

  /** The lowest sample that the gain for this peak lifts to -30000 or above. */
  function LowestKept(peak: real): real {
    var over := peak / SET_POINT;
    -SET_POINT * (if over > 1.0 then over * over else 1.0)
  }

  /** A peak above the set point comes out as far below it as it was above, by ratio. */
  lemma PeakInverted(s: seq<real>, i: nat, p: real) returns (y: real)
    requires i < |s| && s[i] == p == Peak(s, |s|) && p >= SET_POINT
    ensures y == Limited(s)[i] && y * p == SET_POINT * SET_POINT
  {
    y := Scaled(p, Gain(p));
    PeakTimes(p, y);
  }

  lemma PeakTimes(p: real, y: real)
    requires p >= SET_POINT && y == Scaled(p, Gain(p))
    ensures y * p == SET_POINT * SET_POINT
  {
    var over := p / SET_POINT;
    if over > 1.0 {
      Grows(over);
      Inverse(over * over);
      Inverted(p, over, over * over, Gain(p), y);
    }
  }

  lemma Inverted(p: real, over: real, sq: real, g: real, y: real)
    requires p == over * SET_POINT && sq == over * over && sq * g == 1.0 && y == Scaled(p, g)
    ensures y * p == SET_POINT * SET_POINT
  {
    assert p * p == sq * (SET_POINT * SET_POINT);
    Around(p, g);
    Around2(sq, g, SET_POINT * SET_POINT);
  }

  lemma Around(p: real, g: real)
    ensures p * g * p == g * (p * p)
  {
  }

  lemma Around2(sq: real, g: real, t: real)
    ensures g * (sq * t) == sq * g * t
  {
  }

  /** Every sample is scaled by the same gain. */
  lemma SameGain(s: seq<real>, i: nat, j: nat)
    requires i < |s| && j < |s|
    ensures Limited(s)[i] * s[j] == Limited(s)[j] * s[i]
  {
    var g := Gain(Peak(s, |s|));
    assert s[i] * g * s[j] == s[j] * g * s[i];
  }

  /** Only positive peaks count: a sample ends at or above -30000 exactly when it was at or above that bound. */
  lemma NegativeSideIff(s: seq<real>, i: nat)
    requires i < |s|
    ensures Limited(s)[i] >= -SET_POINT <==> s[i] >= LowestKept(Peak(s, |s|))
  {
    SideIff(s[i], Peak(s, |s|));
  }

  /** So a frame without positive peaks goes through unlimited, however loud. */
  lemma NegativePeakKept()
    ensures Limited([-40000.0]) == [-40000.0] && Limited([-40000.0])[0] < -SET_POINT
  {
    var s := [-40000.0];
    assert Peak(s, 0) == 0.0 && Peak(s, 1) == 0.0;
    assert Gain(0.0) == 1.0;
    assert Scaled(-40000.0, 1.0) == -40000.0;
  }

  lemma SideIff(x: real, peak: real)
    ensures Scaled(x, Gain(peak)) >= -SET_POINT <==> x >= LowestKept(peak)
  {
    var over := peak / SET_POINT;
    if over > 1.0 {
      Grows(over);
      Inverse(over * over);
      var g := 1.0 / (over * over);
      Cancel(over * over, g);
      ScaledOrder(-SET_POINT * (over * over), x, g);
    }
  }

  lemma Cancel(u: real, g: real)
    requires u * g == 1.0
    ensures Scaled(-SET_POINT * u, g) == -SET_POINT
  {
    assert (-SET_POINT * u) * g == -SET_POINT * (u * g);
  }

  /** C's conversion of a float to an integer drops the fraction. */
  function Truncate(x: real): int {
    if x >= 0.0 then x.Floor else -((-x).Floor)
  }

  function ToShort(x: real): int {
    if x > 32767.0 then 32767 else if x < -32767.0 then -32767 else Truncate(x)
  }

  function Shorts(s: seq<real>): (r: seq<int>)
    ensures |r| == |s|
  {
    seq(|s|, i requires 0 <= i < |s| => ToShort(s[i]))
  }

  /** An output sample is the limited one without its fraction, or -32767 for anything below. */
  lemma ToShortIs(x: real)
    requires x <= SET_POINT
    ensures x >= -32767.0 ==> ToShort(x) as real - 1.0 < x < ToShort(x) as real + 1.0
    ensures x >= 0.0 ==> 0.0 <= ToShort(x) as real <= x
    ensures -32767.0 <= x <= 0.0 ==> x <= ToShort(x) as real <= 0.0
    ensures x < -32767.0 ==> ToShort(x) == -32767
  {
  }

  /** The end of synthesise_one_frame(): limit in place, then convert each sample. */
  method Output(a: array<real>) returns (speech: seq<int>)
    modifies a
    ensures a[..] == Limited(old(a[..])) && speech == Shorts(a[..])
    ensures forall i :: 0 <= i < a.Length ==> speech[i] == ToShort(a[i]) && -32767 <= speech[i] <= 30000
    ensures forall i :: 0 <= i < a.Length ==> !(a[i] > 32767.0)
  {
    ghost var s := a[..];
    EarProtection(a);
    forall i | 0 <= i < a.Length ensures a[i] <= SET_POINT { LimitedShape(s, i, i); assert a[..][i] == Limited(s)[i]; }
    speech := [];
    for i := 0 to a.Length
      invariant |speech| == i && a[..] == Limited(s)
      invariant forall j :: 0 <= j < i ==> speech[j] == ToShort(a[j]) && -32767 <= speech[j] <= 30000
    {
      var x := if a[i] > 32767.0 then 32767 else if a[i] < -32767.0 then -32767 else Truncate(a[i]);
      speech := speech + [x];
    }
  }
}
