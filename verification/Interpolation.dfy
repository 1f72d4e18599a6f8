/**
 The interpolators between decoded frames: pitch with its voicing rules, energy in the logarithmic
 domain, and line spectral frequencies.
 */
module Interpolation {
  import JointVq

  const LPC_ORD := 10

  type Lsps = s: seq<real> | |s| == LPC_ORD witness seq(LPC_ORD, i => 0.0)

  function Mix(a: real, b: real, w: real): real { (1.0 - w) * a + w * b }

  /** interp_Wo2(): the pitch of a frame and its voicing, from those of the frames before and after it. */
  function InterpWo(voiced: bool, prev: real, prevVoiced: bool, next: real, nextVoiced: bool, w: real): (real, bool) {
    var v := voiced && (prevVoiced || nextVoiced);
    if !v then (JointVq.WO_MIN, false)
    else if prevVoiced && nextVoiced then (Mix(prev, next, w), true)
    else if nextVoiced then (next, true)
    else (prev, true)
  }

  /** interp_energy() and interp_energy2(). */
  function InterpEnergy(log: real -> real, pow: real -> real, prev: real, next: real, w: real): real {
    pow(Mix(log(prev), log(next), w))
  }

  function InterpLsps(prev: Lsps, next: Lsps, w: real): Lsps {
    seq(LPC_ORD, i requires 0 <= i < LPC_ORD => Mix(prev[i], next[i], w))
  }

  /** interpolate_lsp_ver2() */
  method InterpolateLsps(interp: array<real>, prev: Lsps, next: Lsps, weight: real)
    requires interp.Length == LPC_ORD
    modifies interp
    ensures interp[..] == InterpLsps(prev, next, weight)
  {
    for i := 0 to LPC_ORD
      invariant forall j :: 0 <= j < i ==> interp[j] == Mix(prev[j], next[j], weight)
    {
      interp[i] := (1.0 - weight) * prev[i] + weight * next[i];
    }
  }

  // ---- what interpolation is

  lemma MixEnds(a: real, b: real)
    ensures Mix(a, b, 0.0) == a && Mix(a, b, 1.0) == b
  {
  }

  /** Equal steps of the weight are equal steps of the value. */
  lemma MixSteps(a: real, b: real, v: real, w: real)
    ensures Mix(a, b, w) - Mix(a, b, v) == (w - v) * (b - a)
  {
    Expand(w, a, b);
    Expand(v, a, b);
    assert (w - v) * (b - a) == w * (b - a) - v * (b - a);
  }

  lemma Expand(w: real, a: real, b: real)
    ensures Mix(a, b, w) == a + w * (b - a)
  {
    assert (1.0 - w) * a == a - w * a;
    assert w * (b - a) == w * b - w * a;
  }

  /** A value between two others of a range is in the range. */
  lemma MixBetween(a: real, b: real, w: real, lo: real, hi: real)
    requires 0.0 <= w <= 1.0 && lo <= a <= hi && lo <= b <= hi
    ensures lo <= Mix(a, b, w) <= hi
  {
    MixOrder(lo, lo, a, b, 1.0 - w, w);
    MixOrder(a, b, hi, hi, 1.0 - w, w);
    Whole(1.0 - w, w, lo);
    Whole(1.0 - w, w, hi);
  }

  lemma MixOrder(a: real, b: real, c: real, d: real, u: real, w: real)
    requires 0.0 <= u && 0.0 <= w && a <= c && b <= d
    ensures u * a + w * b <= u * c + w * d
  {
    Weighted(a, c, u);
    Weighted(b, d, w);
  }

  lemma Whole(u: real, w: real, x: real)
    requires u + w == 1.0
    ensures u * x + w * x == x
  {
    assert u * x + w * x == (u + w) * x;
  }

  lemma Weighted(x: real, y: real, w: real)
    requires x <= y && w >= 0.0
    ensures w * x <= w * y
  {
  }

  /** The pitch rules: when a frame is voiced, that its pitch lies in range, and which neighbour it is taken from. */
  lemma PitchRules(voiced: bool, prev: real, prevVoiced: bool, next: real, nextVoiced: bool, w: real)
    requires 0.0 <= w <= 1.0
    requires JointVq.WO_MIN <= prev <= JointVq.WO_MAX && JointVq.WO_MIN <= next <= JointVq.WO_MAX
    ensures var r := InterpWo(voiced, prev, prevVoiced, next, nextVoiced, w);
            (r.1 <==> voiced && (prevVoiced || nextVoiced)) && JointVq.WO_MIN <= r.0 <= JointVq.WO_MAX &&
            (!r.1 ==> r.0 == JointVq.WO_MIN) && (r.1 && prevVoiced != nextVoiced ==> r.0 == if prevVoiced then prev else next)
  {
    MixBetween(prev, next, w, JointVq.WO_MIN, JointVq.WO_MAX);
    assert JointVq.WO_MIN <= JointVq.WO_MAX;
  }

  /** Increasing frequencies with a gap between neighbours. */
  ghost predicate Ordered(l: Lsps, gap: real) {
    forall i :: 0 < i < LPC_ORD ==> l[i - 1] + gap <= l[i]
  }

  /** Interpolation never brings line spectral frequencies closer or out of order than both frames have them. */
  lemma OrderKept(prev: Lsps, next: Lsps, w: real, gap: real)
    requires 0.0 <= w <= 1.0 && Ordered(prev, gap) && Ordered(next, gap)
    ensures Ordered(InterpLsps(prev, next, w), gap)
  {
    forall i | 0 < i < LPC_ORD ensures InterpLsps(prev, next, w)[i - 1] + gap <= InterpLsps(prev, next, w)[i] {
      GapKept(prev[i - 1], prev[i], next[i - 1], next[i], w, gap);
    }
  }

  lemma GapKept(a: real, b: real, c: real, d: real, w: real, gap: real)
    requires 0.0 <= w <= 1.0 && a + gap <= b && c + gap <= d
    ensures Mix(a, c, w) + gap <= Mix(b, d, w)
  {
    MixOrder(a + gap, c + gap, b, d, 1.0 - w, w);
    Spread(1.0 - w, a, gap);
    Spread(w, c, gap);
    Whole(1.0 - w, w, gap);
  }

  lemma Spread(u: real, a: real, gap: real)
    ensures u * (a + gap) == u * a + u * gap
  {
  }
}
