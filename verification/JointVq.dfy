/**
 The joint pitch and energy quantiser: a predictive vector quantiser whose encoder and decoder
 each keep the last quantised value.
 */
module JointVq {

  const P_MIN: real := 20.0
  const P_MAX: real := 160.0
  const PI: real := 3.141592654
  const TWO_PI: real := 6.283185307
  const WO_MIN: real := TWO_PI / P_MAX
  const WO_MAX: real := TWO_PI / P_MIN
  const ENTRIES := 256 // 1 << WO_E_BITS
  const FAR: real := 1000000000000000.0 // 1e15, where the search starts

  /** Log pitch and log energy. */
  datatype Pair = Pair(pitch: real, energy: real)

  /** The next quantised value: the prediction plus the codeword. */
  function Predict(xq: Pair, c: Pair): Pair {
    Pair(0.8 * xq.pitch + c.pitch, 0.9 * xq.energy + c.energy)
  }

  /** What is left to quantise after prediction. */
  function Residual(x: Pair, xq: Pair): Pair {
    Pair(x.pitch - 0.8 * xq.pitch, x.energy - 0.9 * xq.energy)
  }

  function Abs(x: real): real { if x < 0.0 then -x else x }

  /** compute_weights2() */
  function Weights(x: Pair, xp: Pair): Pair {
    var w0, w1 := 30.0, 1.0;
    var w0, w1 := if x.energy < 0.0 then w0 * 0.6 else w0, if x.energy < 0.0 then w1 * 0.3 else w1;
    var w0, w1 := if x.energy < -10.0 then w0 * 0.3 else w0, if x.energy < -10.0 then w1 * 0.3 else w1;
    var d := Abs(x.pitch - xp.pitch);
    var w0, w1 := if d < 0.2 then w0 * 2.0 else if d > 0.5 then w0 * 0.5 else w0, if d < 0.2 then w1 * 1.5 else w1;
    var w1 := if x.energy < xp.energy - 10.0 then w1 * 0.5 else w1;
    var w1 := if x.energy < xp.energy - 20.0 then w1 * 0.5 else w1;
    Pair(w0 * w0, w1 * w1)
  }

  /** What each condition of compute_weights2() multiplies the pitch weight by, after the final squaring. */
  function PitchFactor(energy: real, change: real): real {
    (if energy < 0.0 then 0.36 else 1.0) * (if energy < -10.0 then 0.09 else 1.0)
    * (if change < 0.2 then 4.0 else if change > 0.5 then 0.25 else 1.0)
  }

  /** The same for the energy weight; drop is how far the energy lies below the predictor's. */
  function EnergyFactor(energy: real, change: real, drop: real): real {
    (if energy < 0.0 then 0.09 else 1.0) * (if energy < -10.0 then 0.09 else 1.0)
    * (if change < 0.2 then 2.25 else 1.0) * (if drop > 10.0 then 0.25 else 1.0) * (if drop > 20.0 then 0.25 else 1.0)
  }

  /** The weights start from 900 and 1; low levels lower them, a stable pitch raises them, an unstable one and drops lower them. */
  lemma WeightLaw(x: Pair, xp: Pair)
    ensures Weights(x, xp).pitch == 900.0 * PitchFactor(x.energy, Abs(x.pitch - xp.pitch))
    ensures Weights(x, xp).energy == EnergyFactor(x.energy, Abs(x.pitch - xp.pitch), xp.energy - x.energy)
  {
  }

  /** Both weights are positive, and the pitch always weighs at least 225 times as much as the energy. */
  lemma PitchDominates(x: Pair, xp: Pair)
    ensures 0.0 < Weights(x, xp).energy && 225.0 * Weights(x, xp).energy <= Weights(x, xp).pitch
  {
  }

  /** Between a stable and an unstable pitch, all else equal, the pitch weight changes by a factor of 16. */
  lemma StablePitchWeighs(x: Pair, xp: Pair, stable: real, unstable: real)
    requires Abs(stable - xp.pitch) < 0.2 && Abs(unstable - xp.pitch) > 0.5
    ensures Weights(x.(pitch := stable), xp).pitch == 16.0 * Weights(x.(pitch := unstable), xp).pitch
  {
  }

  function Sq(x: real): real { x * x }

  function Dist(x: Pair, w: Pair, c: Pair): real {
    w.pitch * Sq(x.pitch - c.pitch) + w.energy * Sq(x.energy - c.energy)
  }

  /** Each weight scales the squared deviation of its own coordinate. */
  lemma DistParts(x: Pair, w: Pair, c: Pair)
    ensures Dist(x, w, c) == w.pitch * Dist(x, Pair(1.0, 0.0), c) + w.energy * Dist(x, Pair(0.0, 1.0), c)
    ensures Dist(x, Pair(1.0, 0.0), c) == (x.pitch - c.pitch) * (x.pitch - c.pitch)
    ensures Dist(x, Pair(0.0, 1.0), c) == (x.energy - c.energy) * (x.energy - c.energy)
  {
  }

  /** n is the first nearest codeword among the first e, if any is nearer than 1e15, and 0 otherwise. */
  ghost predicate Nearest(cb: seq<Pair>, x: Pair, w: Pair, n: nat, e: nat)
    requires e <= |cb|
  {
    if forall i :: 0 <= i < e ==> Dist(x, w, cb[i]) >= FAR then n == 0
    else n < e && (forall i :: 0 <= i < e ==> Dist(x, w, cb[n]) <= Dist(x, w, cb[i]))
             && (forall i :: 0 <= i < n ==> Dist(x, w, cb[n]) < Dist(x, w, cb[i]))
  }

  /** The least distance to the first e codewords, or 1e15. */
  function Least(cb: seq<Pair>, x: Pair, w: Pair, e: nat): (d: real)
    requires e <= |cb|
    ensures d <= FAR && forall i :: 0 <= i < e ==> d <= Dist(x, w, cb[i])
  {
    if e == 0 then FAR
    else if Dist(x, w, cb[e - 1]) < Least(cb, x, w, e - 1) then Dist(x, w, cb[e - 1]) else Least(cb, x, w, e - 1)
  }

  /** The one index that is nearest in this sense. */
  function Best(cb: seq<Pair>, x: Pair, w: Pair, e: nat): (n: nat)
    requires e <= |cb|
    ensures Nearest(cb, x, w, n, e) && (n == 0 || n < e)
    ensures if n < e && Dist(x, w, cb[n]) < FAR then Least(cb, x, w, e) == Dist(x, w, cb[n]) else Least(cb, x, w, e) == FAR
  {
    if e == 0 then 0
    else if Dist(x, w, cb[e - 1]) < Least(cb, x, w, e - 1) then e - 1 else Best(cb, x, w, e - 1)
  }

  /** find_nearest_weighted() */
  method FindNearest(cb: seq<Pair>, x: Pair, w: Pair) returns (nearest: nat)
    requires |cb| > 0
    ensures nearest < |cb| && Nearest(cb, x, w, nearest, |cb|) && nearest == Best(cb, x, w, |cb|)
  {
    var minDist := FAR;
    nearest := 0;
    for i := 0 to |cb|
      invariant nearest < |cb| && nearest == Best(cb, x, w, i)
      invariant minDist == Least(cb, x, w, i)
    {
      var dist := Dist(x, w, cb[i]);
      if dist < minDist {
        minDist, nearest := dist, i;
      }
    }
  }

  /** The index that encode_WoE() chooses for x in state p. */
  function Choose(cb: seq<Pair>, x: Pair, p: Pair): (n: nat)
    requires |cb| > 0
    ensures n < |cb| && Nearest(cb, Residual(x, p), Weights(x, p), n, |cb|)
  {
    Best(cb, Residual(x, p), Weights(x, p), |cb|)
  }

  /** encode_WoE(): chooses the index and moves the encoder's state, in place. */
  method EncodeWoE(xq: array<real>, x: Pair, cb: seq<Pair>) returns (n: nat)
    requires xq.Length == 2 && |cb| == ENTRIES
    modifies xq
    ensures n < ENTRIES
    ensures var p := Pair(old(xq[0]), old(xq[1])); Nearest(cb, Residual(x, p), Weights(x, p), n, ENTRIES) && n == Choose(cb, x, p)
    ensures Pair(xq[0], xq[1]) == Predict(Pair(old(xq[0]), old(xq[1])), cb[n])
  {
    var p := Pair(xq[0], xq[1]);
    n := FindNearest(cb, Residual(x, p), Weights(x, p));
    xq[0] := 0.8 * xq[0] + cb[n].pitch;
    xq[1] := 0.9 * xq[1] + cb[n].energy;
  }

  /** decode_WoE(): moves the decoder's state; `pitchOf` is 2^x * PI*50/4000 and `energyOf` is 10^(x/10). */
  method DecodeWoE(xq: array<real>, n: nat, cb: seq<Pair>, pitchOf: real -> real, energyOf: real -> real)
    returns (wo: real, l: int, e: real)
    requires xq.Length == 2 && n < |cb|
    modifies xq
    ensures Pair(xq[0], xq[1]) == Predict(Pair(old(xq[0]), old(xq[1])), cb[n])
    ensures wo == Clamp(pitchOf(xq[0])) && e == energyOf(xq[1])
    ensures WO_MIN <= wo <= WO_MAX && l == (PI / wo).Floor && 10 <= l <= 80
    ensures WO_MIN <= pitchOf(xq[0]) <= WO_MAX ==> wo == pitchOf(xq[0])
  {
    xq[0] := 0.8 * xq[0] + cb[n].pitch;
    xq[1] := 0.9 * xq[1] + cb[n].energy;
    wo := pitchOf(xq[0]);
    if wo > WO_MAX { wo := WO_MAX; }
    if wo < WO_MIN { wo := WO_MIN; }
    HarmonicCount(wo);
    l := (PI / wo).Floor;
    e := energyOf(xq[1]);
  }

  function Clamp(wo: real): real {
    if wo > WO_MAX then WO_MAX else if wo < WO_MIN then WO_MIN else wo
  }

  /** The clamped pitch is the nearest one in range; a pitch in range is kept. */
  lemma ClampNearest(wo: real, other: real)
    requires WO_MIN <= other <= WO_MAX
    ensures WO_MIN <= Clamp(wo) <= WO_MAX && Abs(Clamp(wo) - wo) <= Abs(other - wo) && (WO_MIN <= wo <= WO_MAX ==> Clamp(wo) == wo)
  {
  }

  /** Whatever the channel does, a decoded pitch gives between 10 and 80 harmonics. */
  lemma HarmonicCount(wo: real)
    requires WO_MIN <= wo <= WO_MAX
    ensures 10.0 <= PI / wo < 81.0
  {
    var q := PI / wo;
    assert q * wo == PI;
    if q < 10.0 { Less(q, 10.0, wo); }
    if q >= 81.0 { AtLeast(81.0, q, wo); }
  }

  lemma Less(a: real, b: real, x: real)
    requires a < b && x > 0.0
    ensures a * x < b * x
  {
  }

  lemma AtLeast(a: real, b: real, x: real)
    requires a <= b && x > 0.0
    ensures a * x <= b * x
  {
  }

  /** Searching the residual is searching for the codeword whose decoded value lies nearest to x. */
  lemma SearchIsBySynthesis(cb: seq<Pair>, x: Pair, p: Pair, w: Pair, n: nat, i: nat)
    requires Nearest(cb, Residual(x, p), w, n, |cb|) && n < |cb| && i < |cb|
    requires exists j :: 0 <= j < |cb| && Dist(Residual(x, p), w, cb[j]) < FAR
    ensures Dist(x, w, Predict(p, cb[n])) <= Dist(x, w, Predict(p, cb[i]))
  {
    SynthesisDist(x, p, w, cb[n]);
    SynthesisDist(x, p, w, cb[i]);
  }

  lemma SynthesisDist(x: Pair, p: Pair, w: Pair, c: Pair)
    ensures Dist(Residual(x, p), w, c) == Dist(x, w, Predict(p, c))
  {
    var r, q := Residual(x, p), Predict(p, c);
    assert r.pitch - c.pitch == x.pitch - q.pitch && r.energy - c.energy == x.energy - q.energy;
  }

  // ---- the decoder follows the encoder

  /** The state after a run of indexes. */
  function Track(xq: Pair, indexes: seq<nat>, cb: seq<Pair>): Pair
    requires forall i :: 0 <= i < |indexes| ==> indexes[i] < |cb|
  {
    if indexes == [] then xq else Predict(Track(xq, indexes[..|indexes| - 1], cb), cb[indexes[|indexes| - 1]])
  }

  function Pow(b: real, n: nat): real { if n == 0 then 1.0 else b * Pow(b, n - 1) }

  /**
   Two states that see the same indexes differ by the initial difference times 0.8^n and 0.9^n: equal
   states stay equal for ever, and a state thrown off by a channel error comes back geometrically.
   */
  lemma {:induction false} Convergence(a: Pair, b: Pair, indexes: seq<nat>, cb: seq<Pair>)
    requires forall i :: 0 <= i < |indexes| ==> indexes[i] < |cb|
    ensures Track(a, indexes, cb).pitch - Track(b, indexes, cb).pitch == Times(Pow(0.8, |indexes|), a.pitch - b.pitch)
    ensures Track(a, indexes, cb).energy - Track(b, indexes, cb).energy == Times(Pow(0.9, |indexes|), a.energy - b.energy)
  {
    if indexes != [] {
      Convergence(a, b, indexes[..|indexes| - 1], cb);
      TimesStep(0.8, Pow(0.8, |indexes| - 1), a.pitch - b.pitch);
      TimesStep(0.9, Pow(0.9, |indexes| - 1), a.energy - b.energy);
    } else {
      assert Times(1.0, a.pitch - b.pitch) == a.pitch - b.pitch && Times(1.0, a.energy - b.energy) == a.energy - b.energy;
    }
  }

  function Times(x: real, y: real): real { x * y }

  lemma TimesStep(b: real, p: real, d: real)
    ensures Times(b * p, d) == b * Times(p, d)
  {
  }

  lemma InStepForEver(a: Pair, indexes: seq<nat>, other: Pair, cb: seq<Pair>)
    requires forall i :: 0 <= i < |indexes| ==> indexes[i] < |cb|
    ensures Track(a, indexes, cb) == Track(other, indexes, cb) <==> a == other
  {
    Convergence(a, other, indexes, cb);
    PowPositive(0.8, |indexes|);
    PowPositive(0.9, |indexes|);
    NoZero(Pow(0.8, |indexes|), a.pitch - other.pitch);
    NoZero(Pow(0.9, |indexes|), a.energy - other.energy);
  }

  lemma {:induction false} PowPositive(b: real, n: nat)
    requires b > 0.0
    ensures Pow(b, n) > 0.0
  {
    if n > 0 { PowPositive(b, n - 1); Both(b, Pow(b, n - 1)); }
  }

  lemma Both(x: real, y: real)
    requires x > 0.0 && y > 0.0
    ensures x * y > 0.0
  {
  }

  lemma NoZero(p: real, d: real)
    requires p > 0.0
    ensures Times(p, d) == 0.0 <==> d == 0.0
  {
    if d > 0.0 { Both(p, d); } else if d < 0.0 { Both(p, -d); assert p * -d == -(p * d); }
  }

  // ---- log pitch and log energy

  /** x[] of encode_WoE(): the pitch in octaves above 50 Hz and the energy in dB. */
  function Target(log2: real -> real, log10: real -> real, wo: real, e: real): Pair {
    Pair(log2((wo / PI) * 4000.0 / 50.0), 10.0 * log10(0.0001 + (if e < 0.0 then 0.0 else e)))
  }

  /** The pitch and energy that decode_WoE() makes of its state, before the clamp. */
  function PitchOf(pow2: real -> real, x: real): real { pow2(x) * (PI * 50.0) / 4000.0 }
  function EnergyOf(pow10: real -> real, x: real): real { pow10(x / 10.0) }

  /** The two pitch scales are inverse to each other. */
  lemma PitchScale(log2: real -> real, log10: real -> real, pow2: real -> real, x: real, e: real)
    requires log2(pow2(x)) == x
    ensures Target(log2, log10, PitchOf(pow2, x), e).pitch == x
  {
    OctavesAgain(pow2(x));
  }

  lemma OctavesAgain(y: real)
    ensures (y * (PI * 50.0) / 4000.0 / PI) * 4000.0 / 50.0 == y
  {
  }

  /** So are the two energy scales, up to the floor of -40 dB; a negative energy counts as none. */
  lemma EnergyScale(log2: real -> real, log10: real -> real, pow10: real -> real, wo: real, x: real, e: real)
    requires log10(pow10(x / 10.0)) == x / 10.0
    ensures EnergyOf(pow10, x) == e + 0.0001 && e >= 0.0 ==> Target(log2, log10, wo, e).energy == x
    ensures e <= 0.0 ==> Target(log2, log10, wo, e).energy == 10.0 * log10(0.0001)
  {
    assert 10.0 * (x / 10.0) == x;
  }
}
