/**
 What a decoded call is made of: which frames carry pitch and energy and how the others are
 interpolated, what the decoder remembers, and what its samples look like; and what the encoder has
 in its window.
 */
module Decoding {
  import opened FrameLayout
  import opened Duplex
  import opened Interpolation
  import JointVq
  import Limiter
  import ScalarQuantiser

  // ---- anchors

  /** Which frames carry pitch and energy, and between which of them each other frame lies; -1 is the previous call. */
  lemma Anchors(mode: Mode)
    ensures var p := Plan(mode);
            match mode
            case M3200 => AnchorBefore(p, 0) == -1 && AnchorFrom(p, 0) == 1
            case M2400 => AnchorBefore(p, 0) == -1 && AnchorFrom(p, 0) == 1
            case M1300 => forall t :: 0 <= t < 3 ==> AnchorBefore(p, t) == -1 && AnchorFrom(p, t) == 3
            case _ => AnchorBefore(p, 0) == -1 && AnchorFrom(p, 0) == 1 && AnchorBefore(p, 2) == 1 && AnchorFrom(p, 2) == 3
  {
    var p := Plan(mode);
    assert |p| == 4 ==> AnchorFrom(p, 3) == 3 && (p[2] == Nothing ==> AnchorFrom(p, 2) == 3);
  }

  ghost predicate Logs(k: Kernels) {
    forall x {:trigger k.pow10(x)} :: k.log10(k.pow10(x)) == x
  }

  /** The level of frame t, on the logarithmic scale; frame -1 is the last one of the previous call. */
  ghost function Level(k: Kernels, mode: Mode, v: DecView, heard: seq<Heard>, t: int): real
    requires |heard| == |Plan(mode)| && -1 <= t < |heard|
  {
    k.log10(if t < 0 then v.prevE else Filled(k, mode, v, heard, t).e)
  }

  function Share(t: int, s: int, u: int): real
    requires s < u
  {
    (t - s) as real / (u - s) as real
  }

  lemma ShareEnds(s: int, u: int)
    requires s < u
    ensures Share(s, s, u) == 0.0 && Share(u, s, u) == 1.0
  {
  }

  lemma ShareStep(t: int, s: int, u: int)
    requires s < u
    ensures Share(t, s, u) - Share(t - 1, s, u) == 1.0 / (u - s) as real
  {
    var d := (u - s) as real;
    assert (t - s) as real == (t - 1 - s) as real + 1.0;
    Quotients((t - 1 - s) as real, 1.0, d);
  }

  lemma Quotients(a: real, b: real, d: real)
    requires d > 0.0
    ensures (a + b) / d == a / d + b / d
  {
  }

  /** Every frame's level lies on the line between its anchors. */
  lemma {:induction false} LevelOnLine(k: Kernels, mode: Mode, v: DecView, heard: seq<Heard>, t: nat, s: int, u: nat)
    requires Logs(k) && |heard| == |Plan(mode)| && t < |heard|
    requires s == AnchorBefore(Plan(mode), t) && u == AnchorFrom(Plan(mode), t)
    ensures Level(k, mode, v, heard, t) == Mix(Level(k, mode, v, heard, s), Level(k, mode, v, heard, u), Share(t, s, u))
  {
    AtEnds(Level(k, mode, v, heard, s), Level(k, mode, v, heard, u), s, u);
  }

  lemma AtEnds(a: real, b: real, s: int, u: int)
    requires s < u
    ensures Mix(a, b, Share(s, s, u)) == a && Mix(a, b, Share(u, s, u)) == b
  {
    ShareEnds(s, u);
    MixEnds(a, b);
  }

  /** The frame before t is an anchor, or lies between the same two. */
  lemma SameAnchors(p: seq<Extra>, t: nat)
    requires t < |p| && p[|p| - 1] != Nothing
    ensures AnchorBefore(p, t) == t - 1 ||
            (t > 0 && AnchorBefore(p, t) == AnchorBefore(p, t - 1) && AnchorFrom(p, t) == AnchorFrom(p, t - 1))
  {
  }

  /** From one anchor to the next the level advances by equal steps. */
  lemma EnergySteps(k: Kernels, mode: Mode, v: DecView, heard: seq<Heard>, t: nat, s: int, u: nat)
    requires Logs(k) && |heard| == |Plan(mode)| && t < |heard|
    requires s == AnchorBefore(Plan(mode), t) && u == AnchorFrom(Plan(mode), t)
    ensures Level(k, mode, v, heard, t) - Level(k, mode, v, heard, t - 1)
         == (Level(k, mode, v, heard, u) - Level(k, mode, v, heard, s)) / (u - s) as real
  {
    LevelOnLine(k, mode, v, heard, t, s, u);
    SameAnchors(Plan(mode), t);
    var a, b := Level(k, mode, v, heard, s), Level(k, mode, v, heard, u);
    if s == t - 1 { AtEnds(a, b, s, u); } else { LevelOnLine(k, mode, v, heard, t - 1, s, u); }
    LineStep(a, b, t, s, u);
  }

  lemma LineStep(a: real, b: real, t: int, s: int, u: int)
    requires s < u
    ensures Mix(a, b, Share(t, s, u)) - Mix(a, b, Share(t - 1, s, u)) == (b - a) / (u - s) as real
  {
    MixSteps(a, b, Share(t - 1, s, u), Share(t, s, u));
    ShareStep(t, s, u);
    Reciprocal(b - a, (u - s) as real);
  }

  lemma Reciprocal(x: real, d: real)
    requires d > 0.0
    ensures 1.0 / d * x == x / d
  {
  }

  // ---- pitch

  /** The pitch of frame t; frame -1 is the last one of the previous call. */
  function Pitch(k: Kernels, mode: Mode, v: DecView, heard: seq<Heard>, t: int): real
    requires |heard| == |Plan(mode)| && -1 <= t < |heard|
  {
    if t < 0 then v.prevModel.wo else Filled(k, mode, v, heard, t).model.wo
  }

  predicate Voiced(v: DecView, heard: seq<Heard>, t: int)
    requires -1 <= t < |heard|
  {
    (if t < 0 then v.prevModel.voiced else heard[t].model.voiced) != 0
  }

  lemma {:induction false} PitchOnLine(k: Kernels, mode: Mode, v: DecView, heard: seq<Heard>, t: nat, s: int, u: nat)
    requires |heard| == |Plan(mode)| && t < |heard| && s == AnchorBefore(Plan(mode), t) && u == AnchorFrom(Plan(mode), t)
    requires Voiced(v, heard, t) && Voiced(v, heard, s) && Voiced(v, heard, u)
    ensures Pitch(k, mode, v, heard, t) == Mix(Pitch(k, mode, v, heard, s), Pitch(k, mode, v, heard, u), Share(t, s, u))
  {
    AtEnds(Pitch(k, mode, v, heard, s), Pitch(k, mode, v, heard, u), s, u);
  }

  /** So does the pitch through voiced frames. */
  lemma PitchSteps(k: Kernels, mode: Mode, v: DecView, heard: seq<Heard>, t: nat, s: int, u: nat)
    requires |heard| == |Plan(mode)| && t < |heard| && s == AnchorBefore(Plan(mode), t) && u == AnchorFrom(Plan(mode), t)
    requires Voiced(v, heard, t) && Voiced(v, heard, t - 1) && Voiced(v, heard, s) && Voiced(v, heard, u)
    ensures Pitch(k, mode, v, heard, t) - Pitch(k, mode, v, heard, t - 1)
         == (Pitch(k, mode, v, heard, u) - Pitch(k, mode, v, heard, s)) / (u - s) as real
  {
    PitchOnLine(k, mode, v, heard, t, s, u);
    SameAnchors(Plan(mode), t);
    var a, b := Pitch(k, mode, v, heard, s), Pitch(k, mode, v, heard, u);
    if s == t - 1 { AtEnds(a, b, s, u); } else { PitchOnLine(k, mode, v, heard, t - 1, s, u); }
    LineStep(a, b, t, s, u);
  }

  /**
   Between two anchors a frame stays voiced if and only if one of them is; between an unvoiced and a
   voiced one it has the voiced one's pitch, and an unvoiced frame the lowest.
   */
  lemma {:induction false} VoicingRule(k: Kernels, mode: Mode, v: DecView, heard: seq<Heard>, t: nat, s: int, u: nat)
    requires |heard| == |Plan(mode)| && t < |heard| && s == AnchorBefore(Plan(mode), t) && u == AnchorFrom(Plan(mode), t)
    requires Plan(mode)[t] == Nothing
    ensures var m := Filled(k, mode, v, heard, t).model;
            (m.voiced != 0 <==> Voiced(v, heard, t) && (Voiced(v, heard, s) || Voiced(v, heard, u))) &&
            (m.voiced == 0 ==> m.wo == JointVq.WO_MIN) && (m.voiced != 0 ==> m.voiced == heard[t].model.voiced) &&
            (m.voiced != 0 && !Voiced(v, heard, u) ==> m.wo == Pitch(k, mode, v, heard, s)) &&
            (m.voiced != 0 && !Voiced(v, heard, s) ==> m.wo == Pitch(k, mode, v, heard, u))
  {
  }

  // ---- line spectral frequencies

  function LspBefore(mode: Mode, v: DecView, lsps: Lsps, t: int): Lsps
    requires -1 <= t < |Plan(mode)|
  {
    if t < 0 then v.prevLsps else LspsAt(mode, v, lsps, t)
  }

  /** In every mode each line spectral frequency goes in equal steps from the previous call's to this call's. */
  lemma LspSteps(mode: Mode, v: DecView, lsps: Lsps, t: nat, i: nat)
    requires t < |Plan(mode)| && i < LPC_ORD
    ensures LspBefore(mode, v, lsps, t)[i] - LspBefore(mode, v, lsps, t - 1)[i] == (lsps[i] - v.prevLsps[i]) / |Plan(mode)| as real
    ensures LspBefore(mode, v, lsps, |Plan(mode)| - 1) == lsps
  {
    LspOnLine(mode, v, lsps, t, i);
    LspOnLine(mode, v, lsps, t - 1, i);
    LineStep(v.prevLsps[i], lsps[i], t, -1, |Plan(mode)| - 1);
  }

  lemma LspOnLine(mode: Mode, v: DecView, lsps: Lsps, t: int, i: nat)
    requires -1 <= t < |Plan(mode)| && i < LPC_ORD
    ensures LspBefore(mode, v, lsps, t)[i] == Mix(v.prevLsps[i], lsps[i], Share(t, -1, |Plan(mode)| - 1))
  {
    AtEnds(v.prevLsps[i], lsps[i], -1, |Plan(mode)| - 1);
  }

  /** They stay in order, with the gap that both calls keep. */
  lemma LspsInOrder(mode: Mode, v: DecView, lsps: Lsps, t: nat, gap: real)
    requires t < |Plan(mode)| && Ordered(v.prevLsps, gap) && Ordered(lsps, gap)
    ensures Ordered(LspsAt(mode, v, lsps, t), gap)
  {
    var n := |Plan(mode)|;
    if t < n - 1 {
      ProperShare((t + 1) as real, n as real);
      OrderKept(v.prevLsps, lsps, (t + 1) as real / n as real, gap);
    }
  }

  lemma ProperShare(a: real, d: real)
    requires 0.0 <= a <= d && d > 0.0
    ensures 0.0 <= a / d <= 1.0
  {
  }

  // ---- from call to call

  /** The next call starts from the level, the frequencies and the model that this one ended with. */
  lemma Remembered(k: Kernels, mode: Mode, pf: PostFilter, v: DecView, values: seq<nat>)
    requires Decodable(k, mode, values)
    ensures var n, h := |Plan(mode)|, HearFrames(k, mode, v.xq, values, |Plan(mode)|);
            var lsps, after := k.decodeLsps(mode, values[FieldCount(mode, n)..]), DecodeView(k, mode, pf, v, values).0;
            after.xq == h.0 && after.prevE == Filled(k, mode, v, h.1, n - 1).e && after.prevLsps == LspsAt(mode, v, lsps, n - 1)
  {
  }

  /** The speech of the first frames is the start of the speech. */
  lemma {:induction false} SpokenInOrder(k: Kernels, mode: Mode, pf: PostFilter, v: DecView, heard: seq<Heard>, lsps: Lsps, t: nat, u: nat)
    requires |heard| == |Plan(mode)| && t <= u <= |heard|
    ensures Speak(k, mode, pf, v, heard, lsps, u).1[..N * t] == Speak(k, mode, pf, v, heard, lsps, t).1
  {
    if t < u {
      SpokenInOrder(k, mode, pf, v, heard, lsps, t, u - 1);
      var m, l := SpokenNext(k, mode, pf, v, heard, lsps, u);
      var p := Speak(k, mode, pf, v, heard, lsps, u - 1);
      StartKept(p.1, Synthesise(k, p.0, m, l).1, N * t);
    }
  }

  lemma StartKept(a: seq<int>, b: seq<int>, n: nat)
    requires n <= |a|
    ensures (a + b)[..n] == a[..n]
  {
  }

  ghost predicate PhaseKept(k: Kernels) {
    forall m: Model, l: Lsps, x: real, n: nat {:trigger k.phases(m, l, x, n)} :: k.phases(m, l, x, n).1 == x
  }

  ghost predicate NoiseKept(k: Kernels) {
    forall m: Model, x: real, n: nat {:trigger k.postfilter(m, x, n)} :: k.postfilter(m, x, n).1 == x
  }

  /** The excitation phase is moved by the phase synthesis only, the noise estimate by the post filter only. */
  lemma {:induction false} MemoriesApart(k: Kernels, mode: Mode, pf: PostFilter, v: DecView, heard: seq<Heard>, lsps: Lsps, t: nat)
    requires |heard| == |Plan(mode)| && t <= |heard|
    ensures PhaseKept(k) ==> Speak(k, mode, pf, v, heard, lsps, t).0.exPhase == v.exPhase
    ensures NoiseKept(k) ==> Speak(k, mode, pf, v, heard, lsps, t).0.bgEst == v.bgEst
  {
    if t > 0 {
      MemoriesApart(k, mode, pf, v, heard, lsps, t - 1);
      var m, l := SpokenNext(k, mode, pf, v, heard, lsps, t);
      FrameMemories(k, Speak(k, mode, pf, v, heard, lsps, t - 1).0, m, l);
    }
  }

  lemma FrameMemories(k: Kernels, v: DecView, m: Model, lsps: Lsps)
    ensures PhaseKept(k) ==> Synthesise(k, v, m, lsps).0.exPhase == v.exPhase
    ensures NoiseKept(k) ==> Synthesise(k, v, m, lsps).0.bgEst == v.bgEst
  {
  }

  /** The model and frequencies that frame t of a call is synthesised from. */
  lemma SpokenNext(k: Kernels, mode: Mode, pf: PostFilter, v: DecView, heard: seq<Heard>, lsps: Lsps, t: nat) returns (m: Model, l: Lsps)
    requires |heard| == |Plan(mode)| && 0 < t <= |heard|
    ensures l == LspsAt(mode, v, lsps, t - 1)
    ensures m == k.amplitudes(l, Filled(k, mode, v, heard, t - 1).model, Filled(k, mode, v, heard, t - 1).e, pf)
    ensures var p, s := Speak(k, mode, pf, v, heard, lsps, t - 1), Synthesise(k, Speak(k, mode, pf, v, heard, lsps, t - 1).0, m, l);
            Speak(k, mode, pf, v, heard, lsps, t) == (s.0, p.1 + s.1, s.2)
  {
    l := LspsAt(mode, v, lsps, t - 1);
    m := k.amplitudes(l, Filled(k, mode, v, heard, t - 1).model, Filled(k, mode, v, heard, t - 1).e, pf);
  }

  // ---- the samples

  ghost predicate AllInRange(speech: seq<int>) {
    forall i :: 0 <= i < |speech| ==> -32767 <= speech[i] <= 30000
  }

  /** A call returns codec2_samples_per_frame() samples, all within range. */
  lemma SpeechShape(k: Kernels, mode: Mode, pf: PostFilter, v: DecView, values: seq<nat>)
    requires Decodable(k, mode, values)
    ensures var speech := DecodeView(k, mode, pf, v, values).1;
            |speech| == (if mode == M3200 || mode == M2400 then 160 else 320) && AllInRange(speech)
  {
    var n := |Plan(mode)|;
    var h := HearFrames(k, mode, v.xq, values, n);
    SpeakInRange(k, mode, pf, v.(xq := h.0), h.1, k.decodeLsps(mode, values[FieldCount(mode, n)..]), n);
  }

  lemma {:induction false} SpeakInRange(k: Kernels, mode: Mode, pf: PostFilter, v: DecView, heard: seq<Heard>, lsps: Lsps, t: nat)
    requires |heard| == |Plan(mode)| && t <= |heard|
    ensures AllInRange(Speak(k, mode, pf, v, heard, lsps, t).1)
  {
    if t > 0 {
      SpeakInRange(k, mode, pf, v, heard, lsps, t - 1);
      var m, l := SpokenNext(k, mode, pf, v, heard, lsps, t);
      FrameInRange(k, Speak(k, mode, pf, v, heard, lsps, t - 1).0, m, l);
    }
  }

  lemma FrameInRange(k: Kernels, v: DecView, m: Model, lsps: Lsps)
    ensures AllInRange(Synthesise(k, v, m, lsps).1)
  {
    var a := k.phases(m, lsps, v.exPhase, v.next);
    var b := k.postfilter(a.0, v.bgEst, a.2);
    var s := k.synthesise(v.sn, b.0)[..N];
    forall i | 0 <= i < N ensures -32767 <= Limiter.ToShort(Limiter.Limited(s)[i]) <= 30000 {
      Limiter.LimitedShape(s, i, i);
      Limiter.ToShortIs(Limiter.Limited(s)[i]);
    }
  }

  // ---- pitch stays in range

  predicate PitchInRange(wo: real) { JointVq.WO_MIN <= wo <= JointVq.WO_MAX }

  /** Amplitudes, phases and post filter leave the pitch as it is. */
  ghost predicate PitchKept(k: Kernels) {
    (forall l: Lsps, m: Model, e: real, pf: PostFilter {:trigger k.amplitudes(l, m, e, pf)} :: k.amplitudes(l, m, e, pf).wo == m.wo) &&
    (forall m: Model, l: Lsps, x: real, n: nat {:trigger k.phases(m, l, x, n)} :: k.phases(m, l, x, n).0.wo == m.wo) &&
    (forall m: Model, x: real, n: nat {:trigger k.postfilter(m, x, n)} :: k.postfilter(m, x, n).0.wo == m.wo)
  }

  /** Whatever is received, every pitch that is decoded is in range. */
  lemma {:induction false} HeardInRange(k: Kernels, mode: Mode, xq: JointVq.Pair, values: seq<nat>, t: nat, i: nat)
    requires Decodable(k, mode, values) && i < t <= |Plan(mode)| && Plan(mode)[i] != Nothing
    ensures PitchInRange(HearFrames(k, mode, xq, values, t).1[i].model.wo)
    decreases t
  {
    HeardNext(k, mode, xq, values, t - 1);
    if i < t - 1 {
      HeardInRange(k, mode, xq, values, t - 1, i);
    } else {
      ExtraInRange(k, Plan(mode)[i], HearFrames(k, mode, xq, values, i).0, mode, i, values);
    }
  }

  lemma ExtraInRange(k: Kernels, x: Extra, xq: JointVq.Pair, mode: Mode, i: nat, values: seq<nat>)
    requires i < |Plan(mode)| && x == Plan(mode)[i] && x != Nothing && InTables(mode, values, i)
    requires FieldCount(mode, i) + 1 + |ExtraWidths(x)| <= |values|
    ensures PitchInRange(DecodeExtra(k, x, xq, FieldCount(mode, i), values).1.model.wo)
  {
    var at := FieldCount(mode, i);
    if x == Scalar { ScalarInRange(values[at + 1]); } else { JointInRange(k, JointVq.Predict(xq, k.cb[values[at + 1]])); }
  }

  lemma ScalarInRange(i: nat)
    requires i < 128
    ensures PitchInRange(DecodeWo(i))
  {
    ScalarQuantiser.DecodedInRange(i, JointVq.WO_MIN, JointVq.WO_MAX, 128);
  }

  lemma JointInRange(k: Kernels, xq: JointVq.Pair)
    ensures PitchInRange(JointWo(k, xq))
  {
    JointVq.ClampNearest(JointVq.PitchOf(k.pow2, xq.pitch), JointVq.WO_MIN);
  }

  /** So is every pitch that is interpolated. */
  lemma FilledInRange(k: Kernels, mode: Mode, v: DecView, heard: seq<Heard>, t: nat)
    requires |heard| == |Plan(mode)| && t < |heard| && PitchInRange(v.prevModel.wo)
    requires forall i :: 0 <= i < |heard| && Plan(mode)[i] != Nothing ==> PitchInRange(heard[i].model.wo)
    ensures PitchInRange(Filled(k, mode, v, heard, t).model.wo)
  {
    var p := Plan(mode);
    if p[t] == Nothing {
      var s, u := AnchorBefore(p, t), AnchorFrom(p, t);
      var before := if s < 0 then Heard(v.prevModel, v.prevE) else heard[s];
      ProperShare((t - s) as real, (u - s) as real);
      PitchRules(heard[t].model.voiced != 0, before.model.wo, before.model.voiced != 0,
                 heard[u].model.wo, heard[u].model.voiced != 0, (t - s) as real / (u - s) as real);
    }
  }

  lemma {:induction false} SpokenPitch(k: Kernels, mode: Mode, pf: PostFilter, v: DecView, heard: seq<Heard>, lsps: Lsps, t: nat)
    requires PitchKept(k) && |heard| == |Plan(mode)| && t <= |heard| && PitchInRange(v.prevModel.wo)
    requires forall i :: 0 <= i < |heard| && Plan(mode)[i] != Nothing ==> PitchInRange(heard[i].model.wo)
    ensures PitchInRange(Speak(k, mode, pf, v, heard, lsps, t).2.wo)
  {
    if t > 0 {
      FilledInRange(k, mode, v, heard, t - 1);
      var m, l := SpokenNext(k, mode, pf, v, heard, lsps, t);
      SynthesisedPitch(k, Speak(k, mode, pf, v, heard, lsps, t - 1).0, m, l);
    }
  }

  lemma SynthesisedPitch(k: Kernels, v: DecView, m: Model, lsps: Lsps)
    requires PitchKept(k)
    ensures Synthesise(k, v, m, lsps).2.wo == m.wo
  {
  }

  /** A call keeps the remembered pitch in range, whatever is received. */
  lemma DecodedPitch(k: Kernels, mode: Mode, pf: PostFilter, v: DecView, values: seq<nat>)
    requires PitchKept(k) && Decodable(k, mode, values) && PitchInRange(v.prevModel.wo)
    ensures PitchInRange(DecodeView(k, mode, pf, v, values).0.prevModel.wo)
  {
    var n := |Plan(mode)|;
    var h := HearFrames(k, mode, v.xq, values, n);
    forall i | 0 <= i < n && Plan(mode)[i] != Nothing ensures PitchInRange(h.1[i].model.wo) {
      HeardInRange(k, mode, v.xq, values, n, i);
    }
    SpokenPitch(k, mode, pf, v.(xq := h.0), h.1, k.decodeLsps(mode, values[FieldCount(mode, n)..]), n);
  }

  /** Over any run of calls, from a new codec on, the pitch is in range: 10 to 80 harmonics in every frame. */
  lemma {:induction false} PitchAlwaysInRange(k: Kernels, mode: Mode, s: State, calls: seq<Call>)
    requires PitchKept(k) && Run(k, mode, calls) && PitchInRange(s.dec.prevModel.wo)
    ensures PitchInRange(Outcome(k, mode, s, calls).0.dec.prevModel.wo)
  {
    if calls != [] {
      var init, last := calls[..|calls| - 1], calls[|calls| - 1];
      PitchAlwaysInRange(k, mode, s, init);
      var p := Outcome(k, mode, s, init).0;
      if last.Decode? { DecodedPitch(k, mode, p.pf, p.dec, last.values); }
    }
  }

  ghost predicate DecodesInOrder(k: Kernels, gap: real) {
    forall mode: Mode, f: seq<nat> {:trigger k.decodeLsps(mode, f)} :: Ordered(k.decodeLsps(mode, f), gap)
  }

  /** Over any run every frame is synthesised from frequencies in order, once the dequantisers deliver them so. */
  lemma {:induction false} LspsAlwaysInOrder(k: Kernels, mode: Mode, s: State, calls: seq<Call>, gap: real)
    requires DecodesInOrder(k, gap) && Run(k, mode, calls) && Ordered(s.dec.prevLsps, gap)
    ensures Ordered(Outcome(k, mode, s, calls).0.dec.prevLsps, gap)
    ensures forall f, t :: 0 <= t < |Plan(mode)| ==>
              Ordered(LspsAt(mode, Outcome(k, mode, s, calls).0.dec, k.decodeLsps(mode, f), t), gap)
  {
    if calls != [] { LspsAlwaysInOrder(k, mode, s, calls[..|calls| - 1], gap); }
    var v := Outcome(k, mode, s, calls).0.dec;
    forall f, t | 0 <= t < |Plan(mode)| ensures Ordered(LspsAt(mode, v, k.decodeLsps(mode, f), t), gap) {
      LspsInOrder(mode, v, k.decodeLsps(mode, f), t, gap);
    }
  }

  /** A new codec starts with frequencies in order. */
  lemma StartsInOrder()
    ensures Ordered(FirstLsps(), JointVq.PI / 11.0) && FirstLsps()[0] == 0.0 && FirstLsps()[LPC_ORD - 1] == 9.0 * JointVq.PI / 11.0
  {
    forall i | 0 < i < LPC_ORD ensures FirstLsps()[i - 1] + JointVq.PI / 11.0 == FirstLsps()[i] { }
  }

  // ---- what is heard of what was analysed

  lemma HeardAt(k: Kernels, mode: Mode, xq: JointVq.Pair, values: seq<nat>, t: nat, u: nat)
    requires Decodable(k, mode, values) && t < u <= |Plan(mode)|
    ensures FieldCount(mode, t) + 1 + |ExtraWidths(Plan(mode)[t])| <= |values|
    ensures Plan(mode)[t] == Joint ==> values[FieldCount(mode, t) + 1] < 256
    ensures HearFrames(k, mode, xq, values, u).1[t]
         == DecodeExtra(k, Plan(mode)[t], HearFrames(k, mode, xq, values, t).0, FieldCount(mode, t), values).1
  {
    HeardKept(k, mode, xq, values, t, u);
    HeardNext(k, mode, xq, values, t);
  }

  lemma {:induction false} HeardKept(k: Kernels, mode: Mode, xq: JointVq.Pair, values: seq<nat>, t: nat, u: nat)
    requires Decodable(k, mode, values) && t < u <= |Plan(mode)|
    ensures HearFrames(k, mode, xq, values, u).1[t] == HearFrames(k, mode, xq, values, t + 1).1[t]
    decreases u
  {
    if t < u - 1 {
      HeardKept(k, mode, xq, values, t, u - 1);
      HeardNext(k, mode, xq, values, u - 1);
    }
  }

  /** Frame t of a call as the encoder analyses it: the state it leaves and the model. */
  function Analysed(k: Kernels, mode: Mode, v: EncView, speech: seq<real>, t: nat): (EncView, Model)
    requires t < |Plan(mode)| && N * |Plan(mode)| <= |speech|
  {
    Analyse(k, EncodeFrames(k, mode, v, speech, t).0, speech[N * t..N * (t + 1)])
  }

  lemma FieldsOfFrame(k: Kernels, mode: Mode, v: EncView, speech: seq<real>, t: nat, a: (EncView, Model), values: seq<nat>)
    requires t < |Plan(mode)| && N * |Plan(mode)| <= |speech| && a == Analysed(k, mode, v, speech, t)
    requires values == EncodeView(k, mode, v, speech).1
    ensures Placed(values, FieldCount(mode, t), a.1.voiced, EncodeExtra(k, Plan(mode)[t], a.0, a.1).1)
  {
    var first, x := EncodeFrames(k, mode, v, speech, t).1, EncodeExtra(k, Plan(mode)[t], a.0, a.1).1;
    assert |first| == FieldCount(mode, t) by { FieldsWritten(k, mode, v, speech, t); }
    assert first + [a.1.voiced] + x <= values by {
      FrameStarts(k, mode, v, speech, t + 1);
      FrameAdds(k, mode, v, speech, t, a);
    }
    FieldsFrom(first, a.1.voiced, x, values);
  }

  lemma FrameAdds(k: Kernels, mode: Mode, v: EncView, speech: seq<real>, t: nat, a: (EncView, Model))
    requires t < |Plan(mode)| && N * |Plan(mode)| <= |speech| && a == Analysed(k, mode, v, speech, t)
    ensures EncodeFrames(k, mode, v, speech, t + 1).1
         == EncodeFrames(k, mode, v, speech, t).1 + [a.1.voiced] + EncodeExtra(k, Plan(mode)[t], a.0, a.1).1
    ensures EncodeFrames(k, mode, v, speech, t + 1).0 == EncodeExtra(k, Plan(mode)[t], a.0, a.1).0
  {
  }

  /** The fields from `at` on are b and those of x. */
  ghost predicate Placed(values: seq<nat>, at: nat, b: nat, x: seq<nat>) {
    at + 1 + |x| <= |values| && values[at] == b && forall j :: 0 <= j < |x| ==> values[at + 1 + j] == x[j]
  }

  lemma FieldsFrom(first: seq<nat>, b: nat, x: seq<nat>, values: seq<nat>)
    requires first + [b] + x <= values
    ensures Placed(values, |first|, b, x)
  {
    var all := first + [b] + x;
    assert forall j :: 0 <= j < |x| ==> all[|first| + 1 + j] == x[j];
  }

  /** The frames that a decoder in step with the encoder hears of a call. */
  ghost function HeardOf(k: Kernels, mode: Mode, v: EncView, speech: seq<real>): (h: seq<Heard>)
    requires N * |Plan(mode)| <= |speech|
    ensures |h| == |Plan(mode)|
  {
    EncodedIsDecodable(k, mode, v, speech);
    HearFrames(k, mode, v.xq, EncodeView(k, mode, v, speech).1, |Plan(mode)|).1
  }

  /** Every frame's voicing arrives, and the pitch and energy of an anchor as the encoder quantised them. */
  lemma Arrives(k: Kernels, mode: Mode, v: EncView, speech: seq<real>, t: nat, a: (EncView, Model))
    requires t < |Plan(mode)| && N * |Plan(mode)| <= |speech| && a == Analysed(k, mode, v, speech, t)
    ensures var h, xq := HeardOf(k, mode, v, speech)[t], EncodeFrames(k, mode, v, speech, t + 1).0.xq;
            h.model.voiced == a.1.voiced &&
            match Plan(mode)[t]
            case Nothing => true
            case Scalar => h.model.wo == DecodeWo(EncodeWo(a.1.wo)) && h.e == DecodeEnergy(k, EncodeEnergy(k, k.uqLsps(a.0.sn).0))
            case Joint => h.model.wo == JointWo(k, xq) && h.e == JointEnergy(k, xq)
  {
    var values, xs := EncodeView(k, mode, v, speech).1, EncoderStates(k, mode, v, speech, |Plan(mode)|);
    EncodedIsDecodable(k, mode, v, speech);
    EncoderFollows(k, mode, v, speech);
    Hears(k, mode, values, xs, t);
    HeardAt(k, mode, v.xq, values, t, |Plan(mode)|);
    FieldsOfFrame(k, mode, v, speech, t, a, values);
    ExtraArrives(k, Plan(mode)[t], a, FieldCount(mode, t), values);
  }

  lemma ExtraArrives(k: Kernels, x: Extra, a: (EncView, Model), at: nat, values: seq<nat>)
    requires Placed(values, at, a.1.voiced, EncodeExtra(k, x, a.0, a.1).1)
    ensures at + 1 + |ExtraWidths(x)| <= |values| && (x == Joint ==> values[at + 1] < 256)
    ensures var h, xq := DecodeExtra(k, x, a.0.xq, at, values).1, EncodeExtra(k, x, a.0, a.1).0.xq;
            h.model.voiced == a.1.voiced &&
            match x
            case Nothing => true
            case Scalar => h.model.wo == DecodeWo(EncodeWo(a.1.wo)) && h.e == DecodeEnergy(k, EncodeEnergy(k, k.uqLsps(a.0.sn).0))
            case Joint => h.model.wo == JointWo(k, xq) && h.e == JointEnergy(k, xq)
  {
    var f := EncodeExtra(k, x, a.0, a.1).1;
    assert x != Nothing ==> values[at + 1 + 0] == f[0];
    assert x == Scalar ==> values[at + 1 + 1] == f[1];
  }

  /** In the joint modes the pitch in octaves, if in range, and the level in dB are the encoder's quantiser state. */
  lemma JointArrives(k: Kernels, mode: Mode, v: EncView, speech: seq<real>, t: nat, a: (EncView, Model))
    requires Logs(k) && t < |Plan(mode)| && N * |Plan(mode)| <= |speech| && a == Analysed(k, mode, v, speech, t)
    requires Plan(mode)[t] == Joint
    ensures var h, xq := HeardOf(k, mode, v, speech)[t], EncodeFrames(k, mode, v, speech, t + 1).0.xq;
            10.0 * k.log10(h.e) == xq.energy &&
            (k.log2(k.pow2(xq.pitch)) == xq.pitch && PitchInRange(JointVq.PitchOf(k.pow2, xq.pitch)) ==>
              JointVq.Target(k.log2, k.log10, h.model.wo, h.e).pitch == xq.pitch)
  {
    Arrives(k, mode, v, speech, t, a);
    var xq := EncodeFrames(k, mode, v, speech, t + 1).0.xq;
    JointScales(k, xq, JointEnergy(k, xq));
  }

  lemma JointScales(k: Kernels, xq: JointVq.Pair, e: real)
    requires Logs(k)
    ensures 10.0 * k.log10(JointEnergy(k, xq)) == xq.energy
    ensures k.log2(k.pow2(xq.pitch)) == xq.pitch && PitchInRange(JointVq.PitchOf(k.pow2, xq.pitch)) ==>
              JointVq.Target(k.log2, k.log10, JointWo(k, xq), e).pitch == xq.pitch
  {
    assert 10.0 * (xq.energy / 10.0) == xq.energy;
    JointVq.ClampNearest(JointVq.PitchOf(k.pow2, xq.pitch), JointVq.WO_MIN);
    if k.log2(k.pow2(xq.pitch)) == xq.pitch { JointVq.PitchScale(k.log2, k.log10, k.pow2, xq.pitch, e); }
  }

  /** In the scalar modes no other index would bring an anchor's pitch, or its level in dB, nearer to the analysed one. */
  lemma NearestArrives(k: Kernels, mode: Mode, v: EncView, speech: seq<real>, t: nat, a: (EncView, Model), i: nat, j: nat)
    requires Logs(k) && t < |Plan(mode)| && N * |Plan(mode)| <= |speech| && a == Analysed(k, mode, v, speech, t)
    requires Plan(mode)[t] == Scalar && i < 128 && j < 32
    ensures var h, e := HeardOf(k, mode, v, speech)[t], k.uqLsps(a.0.sn).0;
            ScalarQuantiser.Abs(a.1.wo - h.model.wo) <= ScalarQuantiser.Abs(a.1.wo - DecodeWo(i)) &&
            ScalarQuantiser.Abs(10.0 * k.log10(e) - 10.0 * k.log10(h.e))
              <= ScalarQuantiser.Abs(10.0 * k.log10(e) - 10.0 * k.log10(DecodeEnergy(k, j)))
  {
    Arrives(k, mode, v, speech, t, a);
    ScalarQuantiser.Nearest(a.1.wo, JointVq.WO_MIN, JointVq.WO_MAX, 128, i);
    ScalarQuantiser.Nearest(10.0 * k.log10(k.uqLsps(a.0.sn).0), E_MIN_DB, E_MAX_DB, 32, j);
    Decibels(k, EncodeEnergy(k, k.uqLsps(a.0.sn).0));
    Decibels(k, j);
  }

  lemma Decibels(k: Kernels, i: nat)
    requires Logs(k)
    ensures 10.0 * k.log10(DecodeEnergy(k, i)) == ScalarQuantiser.Decode(i, E_MIN_DB, E_MAX_DB, 32)
  {
  }

  // ---- the encoder's window

  /** After t frames the window holds the last 320 samples of what it held and all that has come in since. */
  lemma {:induction false} WindowHolds(k: Kernels, mode: Mode, v: EncView, speech: seq<real>, t: nat)
    requires t <= |Plan(mode)| && N * t <= |speech|
    ensures EncodeFrames(k, mode, v, speech, t).0.sn == (v.sn + speech[..N * t])[N * t..]
  {
    if t > 0 {
      WindowHolds(k, mode, v, speech, t - 1);
      Slide(v.sn, speech, N * (t - 1), EncodeFrames(k, mode, v, speech, t - 1).0.sn);
      ExtraKeepsWindow(k, mode, v, speech, t);
    }
  }

  lemma ExtraKeepsWindow(k: Kernels, mode: Mode, v: EncView, speech: seq<real>, t: nat)
    requires 1 <= t <= |Plan(mode)| && N * t <= |speech|
    ensures EncodeFrames(k, mode, v, speech, t).0.sn
         == EncodeFrames(k, mode, v, speech, t - 1).0.sn[N..] + speech[N * (t - 1)..N * t]
  {
  }

  lemma Slide(first: Window, speech: seq<real>, n: nat, now: Window)
    requires n + N <= |speech| && now == (first + speech[..n])[n..]
    ensures now[N..] + speech[n..n + N] == (first + speech[..n + N])[n + N..]
  {
    assert first + speech[..n + N] == (first + speech[..n]) + speech[n..n + N];
  }

  /** The spectral indexes of a call are those of the window after its last frame. */
  lemma SpectrumFromWindow(k: Kernels, mode: Mode, v: EncView, speech: seq<real>)
    requires N * |Plan(mode)| <= |speech|
    ensures var n, values := |Plan(mode)|, EncodeView(k, mode, v, speech).1;
            FieldCount(mode, n) <= |values| &&
            values[FieldCount(mode, n)..] == k.lspIndexes(mode, k.uqLsps((v.sn + speech[..N * n])[N * n..]).1)
  {
    WindowHolds(k, mode, v, speech, |Plan(mode)|);
    FieldsWritten(k, mode, v, speech, |Plan(mode)|);
  }
}
