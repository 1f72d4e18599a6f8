/**
 One codec state serving an encoder and a decoder at once: which fields each direction reads and
 writes, across all six modes.  Signal-processing kernels are functions of the arguments passed to them.
 */
module Duplex {
  import opened Bits
  import opened FrameLayout
  import opened Interpolation
  import JointVq
  import Limiter
  import ScalarQuantiser

  const N := 80
  const M := 320
  const E_MIN_DB: real := -10.0
  const E_MAX_DB: real := 40.0

  datatype Model = Model(wo: real, voiced: nat, rest: seq<real>)

  /** The analysis window Sn and the synthesis buffer Sn_. */
  type Window = s: seq<real> | |s| == M witness seq(M, i => 0.0)
  type Buffer = s: seq<real> | |s| == 2 * N witness seq(2 * N, i => 0.0)

  type JointTable = t: seq<JointVq.Pair> | |t| == JointVq.ENTRIES
    witness seq(JointVq.ENTRIES, i => JointVq.Pair(0.0, 0.0))

  /** The random generator of codec2_rand(), one for the whole process and all its codecs. */
  class Generator {
    var next: nat

    constructor ()
      ensures next == 1
    {
      next := 1;
    }
  }

  /** The kernels; the FFT configurations and windows never change after creation and are part of them.
      Only the two that draw random phases are given the generator's state, and return it. */
  datatype Kernels = Kernels(
    dft: seq<real> -> seq<real>,
    nlp: (seq<real>, seq<real>, seq<real>, real) -> (real, seq<real>),
    estimate: (real, seq<real>) -> Model,
    voicing: (Model, seq<real>, real) -> Bit,
    uqLsps: seq<real> -> (real, seq<real>),
    lspIndexes: (Mode, seq<real>) -> seq<nat>,
    cb: JointTable,
    decodeLsps: (Mode, seq<nat>) -> Lsps,
    amplitudes: (Lsps, Model, real, PostFilter) -> Model,
    phases: (Model, Lsps, real, nat) -> (Model, real, nat),
    postfilter: (Model, real, nat) -> (Model, real, nat),
    synthesise: (Buffer, Model) -> Buffer,
    log2: real -> real,
    pow2: real -> real,
    log10: real -> real,
    pow10: real -> real)

  /** encode_Wo(), decode_Wo(), encode_energy(), decode_energy() */
  function EncodeWo(wo: real): (i: nat)
    ensures i < 128
  {
    ScalarQuantiser.Encode(wo, JointVq.WO_MIN, JointVq.WO_MAX, 128)
  }

  function DecodeWo(i: nat): real { ScalarQuantiser.Decode(i, JointVq.WO_MIN, JointVq.WO_MAX, 128) }

  function EncodeEnergy(k: Kernels, e: real): (i: nat)
    ensures i < 32
  {
    ScalarQuantiser.Encode(10.0 * k.log10(e), E_MIN_DB, E_MAX_DB, 32)
  }

  function DecodeEnergy(k: Kernels, i: nat): real { k.pow10(ScalarQuantiser.Decode(i, E_MIN_DB, E_MAX_DB, 32) / 10.0) }

  /** The pitch and energy that decode_WoE() returns for its new state. */
  function JointWo(k: Kernels, xq: JointVq.Pair): real { JointVq.Clamp(JointVq.PitchOf(k.pow2, xq.pitch)) }
  function JointEnergy(k: Kernels, xq: JointVq.Pair): real { JointVq.EnergyOf(k.pow10, xq.energy) }

  /** The spectral indexes fit the fields they are packed into. */
  ghost predicate LspsFit(k: Kernels) {
    forall mode: Mode, l: seq<real> :: Fits(k.lspIndexes(mode, l), LspWidths(mode))
  }

  datatype PostFilter = PostFilter(on: int, bassBoost: int, beta: real, gamma: real)

  /** What a 10 ms frame carries beside its voicing bit. */
  datatype Extra = Nothing | Scalar | Joint

  function Plan(m: Mode): (p: seq<Extra>)
    ensures |p| == 2 || |p| == 4
    ensures p[|p| - 1] != Nothing
  {
    match m
    case M3200 => [Nothing, Scalar]
    case M2400 => [Nothing, Joint]
    case M1600 => [Nothing, Scalar, Nothing, Scalar]
    case M1400 => [Nothing, Joint, Nothing, Joint]
    case M1300 => [Nothing, Nothing, Nothing, Scalar]
    case M1200 => [Nothing, Joint, Nothing, Joint]
  }

  function LspWidths(m: Mode): seq<nat> {
    match m
    case M3200 => LSPD_BITS
    case M1200 => LSP_VQ_BITS
    case _ => LSP_BITS
  }

  function ExtraWidths(x: Extra): seq<nat> {
    match x
    case Nothing => []
    case Scalar => [WO_BITS, E_BITS]
    case Joint => [WO_E_BITS]
  }

  // ---- the two halves of the state

  datatype EncView = EncView(sn: Window, nlp: seq<real>, prevWo: real, xq: JointVq.Pair)
  datatype DecView = DecView(sn: Buffer, exPhase: real, bgEst: real, prevModel: Model,
                             prevLsps: Lsps, prevE: real, xq: JointVq.Pair, next: nat)

  /** analyse_one_frame() */
  function Analyse(k: Kernels, v: EncView, speech: seq<real>): (EncView, Model)
    requires |speech| == N
  {
    var sn := v.sn[N..] + speech;
    var sw := k.dft(sn);
    var p := k.nlp(v.nlp, sn, sw, v.prevWo);
    var est := k.estimate(p.0, sw);
    var model := est.(voiced := k.voicing(est, sw, v.prevWo));
    (v.(sn := sn, nlp := p.1, prevWo := model.wo), model)
  }

  /** The pitch and energy fields of a frame, and the encoder's quantiser state after them. */
  function EncodeExtra(k: Kernels, x: Extra, v: EncView, m: Model): (EncView, seq<nat>)
  {
    var e := k.uqLsps(v.sn).0;
    match x
    case Nothing => (v, [])
    case Scalar => (v, [EncodeWo(m.wo), EncodeEnergy(k, e)])
    case Joint =>
      var n := JointVq.Choose(k.cb, JointVq.Target(k.log2, k.log10, m.wo, e), v.xq);
      (v.(xq := JointVq.Predict(v.xq, k.cb[n])), [n])
  }

  /** The first t frames of a call of codec2_encode(). */
  function EncodeFrames(k: Kernels, mode: Mode, v: EncView, speech: seq<real>, t: nat): (EncView, seq<nat>)
    requires t <= |Plan(mode)| && N * t <= |speech|
  {
    if t == 0 then (v, [])
    else
      var p := EncodeFrames(k, mode, v, speech, t - 1);
      var a := Analyse(k, p.0, speech[N * (t - 1)..N * t]);
      var x := EncodeExtra(k, Plan(mode)[t - 1], a.0, a.1);
      (x.0, p.1 + [a.1.voiced] + x.1)
  }

  /** All fields of a frame, without the spare bits. */
  function EncodeView(k: Kernels, mode: Mode, v: EncView, speech: seq<real>): (EncView, seq<nat>)
    requires N * |Plan(mode)| <= |speech|
  {
    var p := EncodeFrames(k, mode, v, speech, |Plan(mode)|);
    (p.0, p.1 + k.lspIndexes(mode, k.uqLsps(p.0.sn).1))
  }

  // ---- decoding

  /** How many fields the first t frames occupy. */
  function FieldCount(mode: Mode, t: nat): nat
    requires t <= |Plan(mode)|
  {
    if t == 0 then 0 else FieldCount(mode, t - 1) + 1 + |ExtraWidths(Plan(mode)[t - 1])|
  }

  ghost predicate Decodable(k: Kernels, mode: Mode, values: seq<nat>) {
    FieldCount(mode, |Plan(mode)|) <= |values| && forall t :: 0 <= t < |Plan(mode)| ==> InTables(mode, values, t)
  }

  /** The pitch and energy indexes of frame t are some of their tables'. */
  ghost predicate InTables(mode: Mode, values: seq<nat>, t: nat)
    requires t < |Plan(mode)|
  {
    var at := FieldCount(mode, t) + 1;
    match Plan(mode)[t]
    case Nothing => true
    case Scalar => at + 1 < |values| && values[at] < 128 && values[at + 1] < 32
    case Joint => at < |values| && values[at] < 256
  }

  lemma {:induction false} FieldsGrow(mode: Mode, t: nat, u: nat)
    requires t <= u <= |Plan(mode)|
    ensures FieldCount(mode, t) <= FieldCount(mode, u)
    decreases u
  {
    if t < u { FieldsGrow(mode, t, u - 1); }
  }

  /** What the bits say about one 10 ms frame; pitch and energy are set where the plan has them. */
  datatype Heard = Heard(model: Model, e: real)

  function DecodeExtra(k: Kernels, x: Extra, xq: JointVq.Pair, at: nat, values: seq<nat>): (JointVq.Pair, Heard)
    requires at + 1 + |ExtraWidths(x)| <= |values| && (x == Joint ==> values[at + 1] < 256)
  {
    var voiced := values[at];
    match x
    case Nothing => (xq, Heard(Model(0.0, voiced, []), 0.0))
    case Scalar => (xq, Heard(Model(DecodeWo(values[at + 1]), voiced, []), DecodeEnergy(k, values[at + 2])))
    case Joint =>
      var next := JointVq.Predict(xq, k.cb[values[at + 1]]);
      (next, Heard(Model(JointWo(k, next), voiced, []), JointEnergy(k, next)))
  }

  function HearFrames(k: Kernels, mode: Mode, xq: JointVq.Pair, values: seq<nat>, t: nat): (r: (JointVq.Pair, seq<Heard>))
    requires Decodable(k, mode, values) && t <= |Plan(mode)|
    ensures |r.1| == t
  {
    if t == 0 then (xq, [])
    else
      FieldsGrow(mode, t, |Plan(mode)|);
      assert InTables(mode, values, t - 1);
      var p := HearFrames(k, mode, xq, values, t - 1);
      var x := DecodeExtra(k, Plan(mode)[t - 1], p.0, FieldCount(mode, t - 1), values);
      (x.0, p.1 + [x.1])
  }

  lemma HeardNext(k: Kernels, mode: Mode, xq: JointVq.Pair, values: seq<nat>, t: nat)
    requires Decodable(k, mode, values) && t < |Plan(mode)|
    ensures FieldCount(mode, t) + 1 + |ExtraWidths(Plan(mode)[t])| <= |values|
    ensures Plan(mode)[t] == Joint ==> values[FieldCount(mode, t) + 1] < 256
    ensures var p := HearFrames(k, mode, xq, values, t);
            var x := DecodeExtra(k, Plan(mode)[t], p.0, FieldCount(mode, t), values);
            HearFrames(k, mode, xq, values, t + 1) == (x.0, p.1 + [x.1])
  {
    assert InTables(mode, values, t);
    FieldsGrow(mode, t + 1, |Plan(mode)|);
  }

  /** The last frame before t, or -1, and the first from t on, that carries pitch and energy. */
  function AnchorBefore(p: seq<Extra>, t: nat): (s: int)
    requires t <= |p|
    ensures -1 <= s < t && (s >= 0 ==> p[s] != Nothing)
  {
    if t == 0 then -1 else if p[t - 1] != Nothing then t - 1 else AnchorBefore(p, t - 1)
  }

  function AnchorFrom(p: seq<Extra>, t: nat): (u: nat)
    requires t < |p| && p[|p| - 1] != Nothing
    ensures t <= u < |p| && p[u] != Nothing
    decreases |p| - t
  {
    if p[t] != Nothing then t else AnchorFrom(p, t + 1)
  }

  /** Pitch and energy of frame t: its own, or interpolated between the anchors around it. */
  function Filled(k: Kernels, mode: Mode, v: DecView, heard: seq<Heard>, t: nat): Heard
    requires |heard| == |Plan(mode)| && t < |heard|
  {
    var p := Plan(mode);
    if p[t] != Nothing then heard[t]
    else
      var s, u := AnchorBefore(p, t), AnchorFrom(p, t);
      var before := if s < 0 then Heard(v.prevModel, v.prevE) else heard[s];
      var weight := (t - s) as real / (u - s) as real;
      Heard(Between(heard[t].model.voiced, before.model, heard[u].model, weight),
            InterpEnergy(k.log10, k.pow10, before.e, heard[u].e, weight))
  }

  /** The model of a frame between two others. */
  function Between(voiced: nat, before: Model, after: Model, weight: real): Model {
    var r := InterpWo(voiced != 0, before.wo, before.voiced != 0, after.wo, after.voiced != 0, weight);
    Model(r.0, if r.1 then voiced else 0, [])
  }

  function LspsAt(mode: Mode, v: DecView, lsps: Lsps, t: nat): Lsps
    requires t < |Plan(mode)|
  {
    var n := |Plan(mode)|;
    if t == n - 1 then lsps else InterpLsps(v.prevLsps, lsps, (t + 1) as real / n as real)
  }

  /** synthesise_one_frame() */
  function Synthesise(k: Kernels, v: DecView, m: Model, lsps: Lsps): (r: (DecView, seq<int>, Model))
    ensures |r.1| == N
  {
    var a := k.phases(m, lsps, v.exPhase, v.next);
    var b := k.postfilter(a.0, v.bgEst, a.2);
    var sn := k.synthesise(v.sn, b.0);
    var out := Limiter.Limited(sn[..N]);
    (v.(sn := out + sn[N..], exPhase := a.1, bgEst := b.1, next := b.2), Limiter.Shorts(out), b.0)
  }

  /** The state, the samples and the last model after t frames have been synthesised. */
  function Speak(k: Kernels, mode: Mode, pf: PostFilter, v0: DecView, heard: seq<Heard>, lsps: Lsps, t: nat)
    : (r: (DecView, seq<int>, Model))
    requires |heard| == |Plan(mode)| && t <= |heard|
    ensures r.0.xq == v0.xq && |r.1| == N * t
  {
    if t == 0 then (v0, [], v0.prevModel)
    else
      var p := Speak(k, mode, pf, v0, heard, lsps, t - 1);
      var h, l := Filled(k, mode, v0, heard, t - 1), LspsAt(mode, v0, lsps, t - 1);
      var s := Synthesise(k, p.0, k.amplitudes(l, h.model, h.e, pf), l);
      (s.0, p.1 + s.1, s.2)
  }

  /** A call of codec2_decode(). */
  function DecodeView(k: Kernels, mode: Mode, pf: PostFilter, v: DecView, values: seq<nat>): (DecView, seq<int>)
    requires Decodable(k, mode, values)
  {
    var h := HearFrames(k, mode, v.xq, values, |Plan(mode)|);
    Spoken(k, mode, pf, v.(xq := h.0), h.1, k.decodeLsps(mode, values[FieldCount(mode, |Plan(mode)|)..]))
  }

  /** The part of it after the fields have been heard: the speech of all frames and the memories for the next call. */
  function Spoken(k: Kernels, mode: Mode, pf: PostFilter, v: DecView, heard: seq<Heard>, lsps: Lsps): (DecView, seq<int>)
    requires |heard| == |Plan(mode)|
  {
    var s := Speak(k, mode, pf, v, heard, lsps, |heard|);
    (s.0.(prevModel := s.2, prevE := heard[|heard| - 1].e, prevLsps := lsps), s.1)
  }

  // ---- the one structure

  /** The line spectral frequencies of a new decoder. */
  function FirstLsps(): Lsps { seq(LPC_ORD, i => i as real * JointVq.PI / 11.0) }

  class Codec2 {
    const mode: Mode
    const k: Kernels
    const rng: Generator
    var Sn: Window
    var nlp: seq<real>
    var SnOut: Buffer
    var exPhase: real
    var bgEst: real
    var prevWoEnc: real
    var prevModelDec: Model
    var prevLspsDec: Lsps
    var prevEDec: real
    var postFilter: PostFilter
    var xqEnc: JointVq.Pair
    var xqDec: JointVq.Pair

    constructor (m: Mode, kernels: Kernels, nlpState: seq<real>, generator: Generator)
      ensures mode == m && k == kernels && rng == generator && postFilter == PostFilter(1, 1, 0.2, 0.5)
      ensures Enc() == EncView(seq(M, i => 1.0), nlpState, 0.0, JointVq.Pair(0.0, 0.0))
      ensures Dec() == DecView(seq(2 * N, i => 0.0), 0.0, 0.0, Model(JointVq.WO_MIN, 0, []), FirstLsps(), 1.0,
                               JointVq.Pair(0.0, 0.0), generator.next)
    {
      mode, k, rng := m, kernels, generator;
      Sn, nlp, SnOut := seq(M, i => 1.0), nlpState, seq(2 * N, i => 0.0);
      prevWoEnc, bgEst, exPhase := 0.0, 0.0, 0.0;
      prevModelDec := Model(JointVq.TWO_PI / JointVq.P_MAX, 0, []);
      prevLspsDec, prevEDec := FirstLsps(), 1.0;
      postFilter := PostFilter(1, 1, 0.2, 0.5);
      xqEnc, xqDec := JointVq.Pair(0.0, 0.0), JointVq.Pair(0.0, 0.0);
    }

    function Enc(): EncView
      reads this
    {
      EncView(Sn, nlp, prevWoEnc, xqEnc)
    }

    function Dec(): DecView
      reads this, rng
    {
      DecView(SnOut, exPhase, bgEst, prevModelDec, prevLspsDec, prevEDec, xqDec, rng.next)
    }

    /** Reads and writes the encoder's fields only. */
    method Encode(speech: seq<real>) returns (values: seq<nat>)
      requires N * |Plan(mode)| <= |speech|
      modifies this`Sn, this`nlp, this`prevWoEnc, this`xqEnc
      ensures (Enc(), values) == EncodeView(k, mode, old(Enc()), speech)
    {
      values := [];
      for t := 0 to |Plan(mode)|
        invariant (Enc(), values) == EncodeFrames(k, mode, old(Enc()), speech, t)
        modifies this`Sn, this`nlp, this`prevWoEnc, this`xqEnc
      {
        var m := AnalyseOneFrame(speech[N * t..N * (t + 1)]);
        values := values + [m.voiced];
        var extra := PitchAndEnergy(Plan(mode)[t], m);
        values := values + extra;
      }
      values := values + k.lspIndexes(mode, k.uqLsps(Sn).1);
    }

    /** encode_Wo() and encode_energy(), or encode_WoE(), where the frame has them. */
    method PitchAndEnergy(x: Extra, m: Model) returns (fields: seq<nat>)
      modifies this`xqEnc
      ensures (Enc(), fields) == EncodeExtra(k, x, old(Enc()), m)
    {
      var e := k.uqLsps(Sn).0;
      match x {
        case Nothing => fields := [];
        case Scalar => fields := [EncodeWo(m.wo), EncodeEnergy(k, e)];
        case Joint =>
          var x := JointVq.Target(k.log2, k.log10, m.wo, e);
          var n := JointVq.FindNearest(k.cb, JointVq.Residual(x, xqEnc), JointVq.Weights(x, xqEnc));
          xqEnc := JointVq.Predict(xqEnc, k.cb[n]);
          fields := [n];
      }
    }

    method AnalyseOneFrame(speech: seq<real>) returns (m: Model)
      requires |speech| == N
      modifies this`Sn, this`nlp, this`prevWoEnc
      ensures (Enc(), m) == Analyse(k, old(Enc()), speech)
    {
      Sn := Sn[N..] + speech;
      var sw := k.dft(Sn);
      var p := k.nlp(nlp, Sn, sw, prevWoEnc);
      nlp := p.1;
      m := k.estimate(p.0, sw);
      m := m.(voiced := k.voicing(m, sw, prevWoEnc));
      prevWoEnc := m.wo;
    }

    /** Reads and writes the decoder's fields and the generator, and reads the post filter settings. */
    method Decode(values: seq<nat>) returns (speech: seq<int>)
      requires Decodable(k, mode, values)
      modifies this`SnOut, this`exPhase, this`bgEst, this`prevModelDec, this`prevLspsDec, this`prevEDec, this`xqDec, rng`next
      ensures (Dec(), speech) == DecodeView(k, mode, postFilter, old(Dec()), values)
    {
      var heard := Hear(values);
      speech := SpeakAll(heard, k.decodeLsps(mode, values[FieldCount(mode, |Plan(mode)|)..]));
    }

    method SpeakAll(heard: seq<Heard>, lsps: Lsps) returns (speech: seq<int>)
      requires |heard| == |Plan(mode)|
      modifies this`SnOut, this`exPhase, this`bgEst, this`prevModelDec, this`prevLspsDec, this`prevEDec, rng`next
      ensures (Dec(), speech) == Spoken(k, mode, postFilter, old(Dec()), heard, lsps)
    {
      var last;
      speech, last := SpeakFrames(heard, lsps);
      prevModelDec, prevEDec, prevLspsDec := last, heard[|heard| - 1].e, lsps;
    }

    /** Synthesises the frames of one call in turn. */
    method SpeakFrames(heard: seq<Heard>, lsps: Lsps) returns (speech: seq<int>, last: Model)
      requires |heard| == |Plan(mode)|
      modifies this`SnOut, this`exPhase, this`bgEst, rng`next
      ensures (Dec(), speech, last) == Speak(k, mode, postFilter, old(Dec()), heard, lsps, |heard|)
    {
      var v := Dec();
      speech, last := [], prevModelDec;
      for t := 0 to |heard|
        invariant (Dec(), speech, last) == Speak(k, mode, postFilter, v, heard, lsps, t)
        modifies this`SnOut, this`exPhase, this`bgEst, rng`next
      {
        var h, l := Filled(k, mode, v, heard, t), LspsAt(mode, v, lsps, t);
        var samples;
        samples, last := SynthesiseOneFrame(k.amplitudes(l, h.model, h.e, postFilter), l);
        speech := speech + samples;
      }
    }

    method SynthesiseOneFrame(m: Model, lsps: Lsps) returns (speech: seq<int>, out: Model)
      modifies this`SnOut, this`exPhase, this`bgEst, rng`next
      ensures (Dec(), speech, out) == Synthesise(k, old(Dec()), m, lsps)
    {
      var a := k.phases(m, lsps, exPhase, rng.next);
      rng.next := a.2;
      var b := k.postfilter(a.0, bgEst, rng.next);
      rng.next := b.2;
      exPhase, bgEst, out := a.1, b.1, b.0;
      var sn := k.synthesise(SnOut, out);
      var first := new real[N](i requires 0 <= i < N => sn[i]);
      assert first[..] == sn[..N];
      speech := Limiter.Output(first);
      SnOut := first[..] + sn[N..];
    }

    /** codec2_set_lpc_post_filter() */
    method SetPostFilter(pf: PostFilter)
      requires 0.0 <= pf.beta <= 1.0 && 0.0 <= pf.gamma <= 1.0
      modifies this`postFilter
      ensures postFilter == pf
    {
      postFilter := pf;
    }

    method Hear(values: seq<nat>) returns (heard: seq<Heard>)
      requires Decodable(k, mode, values)
      modifies this`xqDec
      ensures (xqDec, heard) == HearFrames(k, mode, old(xqDec), values, |Plan(mode)|)
    {
      heard := [];
      for t := 0 to |Plan(mode)|
        invariant (xqDec, heard) == HearFrames(k, mode, old(xqDec), values, t)
        modifies this`xqDec
      {
        HeardNext(k, mode, old(xqDec), values, t);
        var x := DecodeExtra(k, Plan(mode)[t], xqDec, FieldCount(mode, t), values);
        xqDec, heard := x.0, heard + [x.1];
      }
    }
  }

  // ---- any interleaving of calls

  datatype Call = Encode(speech: seq<real>) | Decode(values: seq<nat>) | SetPostFilter(pf: PostFilter)
  datatype State = State(enc: EncView, dec: DecView, pf: PostFilter)
  datatype Output = Fields(values: seq<nat>) | Samples(speech: seq<int>)

  ghost predicate Callable(k: Kernels, mode: Mode, c: Call) {
    match c
    case Encode(s) => N * |Plan(mode)| <= |s|
    case Decode(v) => Decodable(k, mode, v)
    case SetPostFilter(_) => true
  }

  ghost predicate Run(k: Kernels, mode: Mode, calls: seq<Call>) {
    forall i :: 0 <= i < |calls| ==> Callable(k, mode, calls[i])
  }

  /** One call: the state after it and what it returned. */
  ghost function Apply(k: Kernels, mode: Mode, s: State, c: Call): (State, seq<Output>)
    requires Callable(k, mode, c)
  {
    match c
    case Encode(speech) => var e := EncodeView(k, mode, s.enc, speech); (s.(enc := e.0), [Fields(e.1)])
    case Decode(values) => var d := DecodeView(k, mode, s.pf, s.dec, values); (s.(dec := d.0), [Samples(d.1)])
    case SetPostFilter(pf) => (s.(pf := pf), [])
  }

  /** The state after a run and everything it returned. */
  ghost function Outcome(k: Kernels, mode: Mode, s: State, calls: seq<Call>): (State, seq<Output>)
    requires Run(k, mode, calls)
  {
    if calls == [] then (s, [])
    else
      var p := Outcome(k, mode, s, calls[..|calls| - 1]);
      var a := Apply(k, mode, p.0, calls[|calls| - 1]);
      (a.0, p.1 + a.1)
  }

  ghost function Only(calls: seq<Call>, encoder: bool): seq<Call> {
    if calls == [] then []
    else Only(calls[..|calls| - 1], encoder) + (if calls[|calls| - 1].Encode? == encoder then [calls[|calls| - 1]] else [])
  }

  ghost function Results(outputs: seq<Output>, encoder: bool): seq<Output> {
    if outputs == [] then []
    else Results(outputs[..|outputs| - 1], encoder) + (if outputs[|outputs| - 1].Fields? == encoder then [outputs[|outputs| - 1]] else [])
  }

  lemma {:induction false} OnlyRuns(k: Kernels, mode: Mode, calls: seq<Call>, encoder: bool)
    requires Run(k, mode, calls)
    ensures Run(k, mode, Only(calls, encoder))
  {
    if calls != [] { OnlyRuns(k, mode, calls[..|calls| - 1], encoder); }
  }

  /** The part of the state that belongs to one direction is the same in both. */
  ghost predicate Agree(s: State, t: State, encoder: bool) {
    if encoder then s.enc == t.enc else s.dec == t.dec && s.pf == t.pf
  }

  /** A call of one direction depends on, and changes, that direction's part only. */
  lemma ApplyOwn(k: Kernels, mode: Mode, s: State, t: State, c: Call, encoder: bool)
    requires Callable(k, mode, c) && c.Encode? == encoder && Agree(s, t, encoder)
    ensures Agree(Apply(k, mode, s, c).0, Apply(k, mode, t, c).0, encoder)
    ensures Apply(k, mode, s, c).1 == Apply(k, mode, t, c).1
    ensures Results(Apply(k, mode, s, c).1, encoder) == Apply(k, mode, s, c).1
  {
    OwnResults(Apply(k, mode, s, c).1, encoder);
  }

  lemma OwnResults(o: seq<Output>, encoder: bool)
    requires |o| <= 1 && forall i :: 0 <= i < |o| ==> o[i].Fields? == encoder
    ensures Results(o, encoder) == o
  {
    if |o| == 1 { assert o[..0] == [] && [] + [o[0]] == o; }
  }

  lemma ApplyOther(k: Kernels, mode: Mode, s: State, c: Call, encoder: bool)
    requires Callable(k, mode, c) && c.Encode? != encoder
    ensures Agree(Apply(k, mode, s, c).0, s, encoder) && Results(Apply(k, mode, s, c).1, encoder) == []
  {
    var o := Apply(k, mode, s, c).1;
    assert |o| == 1 ==> o[..0] == [];
  }

  lemma {:induction false} ResultsConcat(a: seq<Output>, b: seq<Output>, encoder: bool)
    ensures Results(a + b, encoder) == Results(a, encoder) + Results(b, encoder)
  {
    if b == [] {
      assert a + b == a;
    } else {
      ResultsConcat(a, b[..|b| - 1], encoder);
      assert (a + b)[..|a + b| - 1] == a + b[..|b| - 1];
    }
  }

  /**
   Full duplex: in any interleaving, what the encoder returns and where it ends up are the same as
   if only the encode calls had been made, and likewise for the decoder.
   */
  lemma {:induction false} NoInterference(k: Kernels, mode: Mode, s: State, calls: seq<Call>, encoder: bool)
    requires Run(k, mode, calls) && Run(k, mode, Only(calls, encoder))
    ensures var all, alone := Outcome(k, mode, s, calls), Outcome(k, mode, s, Only(calls, encoder));
            Results(all.1, encoder) == alone.1 && Agree(all.0, alone.0, encoder)
  {
    if calls != [] {
      var init, last := calls[..|calls| - 1], calls[|calls| - 1];
      OnlyRuns(k, mode, init, encoder);
      NoInterference(k, mode, s, init, encoder);
      var all, alone := Outcome(k, mode, s, init), Outcome(k, mode, s, Only(init, encoder));
      ResultsConcat(all.1, Apply(k, mode, all.0, last).1, encoder);
      if last.Encode? == encoder {
        OnlySnoc(init, last, calls, encoder);
        ApplyOwn(k, mode, all.0, alone.0, last, encoder);
      } else {
        ApplyOther(k, mode, all.0, last, encoder);
        assert Only(calls, encoder) == Only(init, encoder);
      }
    }
  }

  lemma OnlySnoc(init: seq<Call>, last: Call, calls: seq<Call>, encoder: bool)
    requires calls != [] && init == calls[..|calls| - 1] && last == calls[|calls| - 1] && last.Encode? == encoder
    ensures var kept := Only(calls, encoder);
            kept != [] && kept[..|kept| - 1] == Only(init, encoder) && kept[|kept| - 1] == last
  {
  }

  // ---- encoder and decoder predictors

  lemma {:induction false} FieldsWritten(k: Kernels, mode: Mode, v: EncView, speech: seq<real>, t: nat)
    requires t <= |Plan(mode)| && N * t <= |speech|
    ensures |EncodeFrames(k, mode, v, speech, t).1| == FieldCount(mode, t)
  {
    if t > 0 { FieldsWritten(k, mode, v, speech, t - 1); }
  }

  /** The fields of frame t stand where the decoder looks for them. */
  lemma {:induction false} FieldsInPlace(k: Kernels, mode: Mode, v: EncView, speech: seq<real>, t: nat, u: nat)
    requires t <= u <= |Plan(mode)| && N * |Plan(mode)| <= |speech|
    ensures N * t <= |speech| && EncodeFrames(k, mode, v, speech, t).1 <= EncodeFrames(k, mode, v, speech, u).1
    decreases u
  {
    if t < u {
      FieldsInPlace(k, mode, v, speech, t, u - 1);
      FieldsAdded(k, mode, v, speech, u);
      Longer(EncodeFrames(k, mode, v, speech, t).1, EncodeFrames(k, mode, v, speech, u - 1).1, EncodeFrames(k, mode, v, speech, u).1);
    }
  }

  lemma Longer(a: seq<nat>, b: seq<nat>, c: seq<nat>)
    requires a <= b && b <= c
    ensures a <= c
  {
  }

  lemma FieldsAdded(k: Kernels, mode: Mode, v: EncView, speech: seq<real>, t: nat)
    requires 1 <= t <= |Plan(mode)| && N * t <= |speech|
    ensures EncodeFrames(k, mode, v, speech, t - 1).1 <= EncodeFrames(k, mode, v, speech, t).1
  {
  }

  /** What the encoder sends can be decoded. */
  lemma EncodedIsDecodable(k: Kernels, mode: Mode, v: EncView, speech: seq<real>)
    requires N * |Plan(mode)| <= |speech|
    ensures Decodable(k, mode, EncodeView(k, mode, v, speech).1)
  {
    var values := EncodeView(k, mode, v, speech).1;
    FieldsWritten(k, mode, v, speech, |Plan(mode)|);
    assert FieldCount(mode, |Plan(mode)|) <= |values|;
    forall t | 0 <= t < |Plan(mode)| ensures InTables(mode, values, t) { IndexesSent(k, mode, v, speech, t, values); }
  }

  /** The index that the search chose is inside the table. */
  lemma IndexesSent(k: Kernels, mode: Mode, v: EncView, speech: seq<real>, t: nat, values: seq<nat>)
    requires N * |Plan(mode)| <= |speech| && t < |Plan(mode)| && values == EncodeView(k, mode, v, speech).1
    ensures InTables(mode, values, t)
  {
    FrameInTables(k, mode, v, speech, t);
    FrameStarts(k, mode, v, speech, t + 1);
    StillInTables(mode, EncodeFrames(k, mode, v, speech, t + 1).1, values, t);
  }

  lemma FrameInTables(k: Kernels, mode: Mode, v: EncView, speech: seq<real>, t: nat)
    requires N * |Plan(mode)| <= |speech| && t < |Plan(mode)|
    ensures InTables(mode, EncodeFrames(k, mode, v, speech, t + 1).1, t)
  {
    FieldsWritten(k, mode, v, speech, t);
  }

  lemma StillInTables(mode: Mode, values: seq<nat>, more: seq<nat>, t: nat)
    requires t < |Plan(mode)| && InTables(mode, values, t) && values <= more
    ensures InTables(mode, more, t)
  {
  }

  /** The quantiser state moves as a frame of kind x with its index at `at` says. */
  ghost predicate Stepped(k: Kernels, x: Extra, at: nat, values: seq<nat>, before: JointVq.Pair, after: JointVq.Pair) {
    if x == Joint then at < |values| && values[at] < 256 && after == JointVq.Predict(before, k.cb[values[at]])
    else after == before
  }

  lemma JointField(k: Kernels, mode: Mode, v: EncView, speech: seq<real>, t: nat)
    requires N * |Plan(mode)| <= |speech| && t < |Plan(mode)| && Plan(mode)[t] == Joint
    ensures var before, after := EncodeFrames(k, mode, v, speech, t), EncodeFrames(k, mode, v, speech, t + 1);
            |after.1| == FieldCount(mode, t) + 2 &&
            Stepped(k, Joint, FieldCount(mode, t) + 1, after.1, before.0.xq, after.0.xq)
  {
    FieldsWritten(k, mode, v, speech, t);
  }

  /** The first fields of the whole frame are those of its first frames. */
  lemma FrameStarts(k: Kernels, mode: Mode, v: EncView, speech: seq<real>, t: nat)
    requires t <= |Plan(mode)| && N * |Plan(mode)| <= |speech|
    ensures EncodeFrames(k, mode, v, speech, t).1 <= EncodeView(k, mode, v, speech).1
  {
    FieldsInPlace(k, mode, v, speech, t, |Plan(mode)|);
  }

  lemma SteppedFurther(k: Kernels, x: Extra, at: nat, values: seq<nat>, more: seq<nat>, a: JointVq.Pair, b: JointVq.Pair)
    requires Stepped(k, x, at, values, a, b) && values <= more
    ensures Stepped(k, x, at, more, a, b)
  {
  }

  lemma OthersKeep(k: Kernels, mode: Mode, v: EncView, speech: seq<real>, t: nat)
    requires N * |Plan(mode)| <= |speech| && t < |Plan(mode)| && Plan(mode)[t] != Joint
    ensures EncodeFrames(k, mode, v, speech, t + 1).0.xq == EncodeFrames(k, mode, v, speech, t).0.xq
  {
  }

  /** The decoder reads from each frame the index the encoder wrote there. */
  lemma EncoderStep(k: Kernels, mode: Mode, v: EncView, speech: seq<real>, t: nat)
    requires N * |Plan(mode)| <= |speech| && t < |Plan(mode)|
    ensures Stepped(k, Plan(mode)[t], FieldCount(mode, t) + 1, EncodeView(k, mode, v, speech).1,
                    EncodeFrames(k, mode, v, speech, t).0.xq, EncodeFrames(k, mode, v, speech, t + 1).0.xq)
  {
    if Plan(mode)[t] == Joint {
      JointStep(k, mode, v, speech, t, EncodeFrames(k, mode, v, speech, t), EncodeFrames(k, mode, v, speech, t + 1));
    } else {
      OthersKeep(k, mode, v, speech, t);
    }
  }

  lemma JointStep(k: Kernels, mode: Mode, v: EncView, speech: seq<real>, t: nat, before: (EncView, seq<nat>), after: (EncView, seq<nat>))
    requires N * |Plan(mode)| <= |speech| && t < |Plan(mode)| && Plan(mode)[t] == Joint
    requires before == EncodeFrames(k, mode, v, speech, t) && after == EncodeFrames(k, mode, v, speech, t + 1)
    ensures Stepped(k, Joint, FieldCount(mode, t) + 1, EncodeView(k, mode, v, speech).1, before.0.xq, after.0.xq)
  {
    JointField(k, mode, v, speech, t);
    FrameStarts(k, mode, v, speech, t + 1);
    SteppedFurther(k, Joint, FieldCount(mode, t) + 1, after.1, EncodeView(k, mode, v, speech).1, before.0.xq, after.0.xq);
  }

  /** The states xs follow the fields of a frame. */
  ghost predicate Follows(k: Kernels, mode: Mode, values: seq<nat>, xs: seq<JointVq.Pair>) {
    |xs| == |Plan(mode)| + 1 && forall t :: 0 <= t < |Plan(mode)| ==> FollowsAt(k, mode, values, xs, t)
  }

  ghost predicate FollowsAt(k: Kernels, mode: Mode, values: seq<nat>, xs: seq<JointVq.Pair>, t: nat)
    requires t < |Plan(mode)| < |xs|
  {
    Stepped(k, Plan(mode)[t], FieldCount(mode, t) + 1, values, xs[t], xs[t + 1])
  }

  /** A decoder that hears the fields goes through the states that follow them. */
  lemma {:induction false} Hears(k: Kernels, mode: Mode, values: seq<nat>, xs: seq<JointVq.Pair>, t: nat)
    requires Decodable(k, mode, values) && Follows(k, mode, values, xs) && t <= |Plan(mode)|
    ensures HearFrames(k, mode, xs[0], values, t).0 == xs[t]
  {
    if t > 0 {
      Hears(k, mode, values, xs, t - 1);
      assert FollowsAt(k, mode, values, xs, t - 1);
      HearsNext(k, mode, values, xs[0], t - 1, xs[t]);
    }
  }

  lemma HearsNext(k: Kernels, mode: Mode, values: seq<nat>, xq: JointVq.Pair, t: nat, after: JointVq.Pair)
    requires Decodable(k, mode, values) && t < |Plan(mode)|
    requires Stepped(k, Plan(mode)[t], FieldCount(mode, t) + 1, values, HearFrames(k, mode, xq, values, t).0, after)
    ensures HearFrames(k, mode, xq, values, t + 1).0 == after
  {
    HeardNext(k, mode, xq, values, t);
  }

  ghost function EncoderStates(k: Kernels, mode: Mode, v: EncView, speech: seq<real>, n: nat): (xs: seq<JointVq.Pair>)
    requires N * |Plan(mode)| <= |speech| && n <= |Plan(mode)|
    ensures |xs| == n + 1
    ensures forall t :: 0 <= t <= n ==> xs[t] == EncodeFrames(k, mode, v, speech, t).0.xq
  {
    (if n == 0 then [] else EncoderStates(k, mode, v, speech, n - 1)) + [EncodeFrames(k, mode, v, speech, n).0.xq]
  }

  lemma EncoderFollows(k: Kernels, mode: Mode, v: EncView, speech: seq<real>)
    requires N * |Plan(mode)| <= |speech|
    ensures Follows(k, mode, EncodeView(k, mode, v, speech).1, EncoderStates(k, mode, v, speech, |Plan(mode)|))
  {
    var values, xs := EncodeView(k, mode, v, speech).1, EncoderStates(k, mode, v, speech, |Plan(mode)|);
    forall t | 0 <= t < |Plan(mode)| ensures FollowsAt(k, mode, values, xs, t) { EncoderStep(k, mode, v, speech, t); }
  }

  /** One frame sent and received intact keeps the two quantiser states equal. */
  lemma FrameInStep(k: Kernels, mode: Mode, pf: PostFilter, enc: EncView, dec: DecView, speech: seq<real>)
    requires N * |Plan(mode)| <= |speech| && enc.xq == dec.xq
    ensures var e := EncodeView(k, mode, enc, speech);
            Decodable(k, mode, e.1) && DecodeView(k, mode, pf, dec, e.1).0.xq == e.0.xq
  {
    EncodedIsDecodable(k, mode, enc, speech);
    EncoderFollows(k, mode, enc, speech);
    Hears(k, mode, EncodeView(k, mode, enc, speech).1, EncoderStates(k, mode, enc, speech, |Plan(mode)|), |Plan(mode)|);
  }

  /** The states after every frame of a conversation has been encoded and decoded in turn. */
  ghost function Link(k: Kernels, mode: Mode, pf: PostFilter, enc: EncView, dec: DecView,
                      frames: seq<seq<real>>): (EncView, DecView)
    requires forall i :: 0 <= i < |frames| ==> N * |Plan(mode)| <= |frames[i]|
  {
    if frames == [] then (enc, dec)
    else
      var p := Link(k, mode, pf, enc, dec, frames[..|frames| - 1]);
      var e := EncodeView(k, mode, p.0, frames[|frames| - 1]);
      EncodedIsDecodable(k, mode, p.0, frames[|frames| - 1]);
      (e.0, DecodeView(k, mode, pf, p.1, e.1).0)
  }

  /** Over any error-free conversation the decoder's predictor is the encoder's after every frame. */
  lemma {:induction false} LinkInStep(k: Kernels, mode: Mode, pf: PostFilter, enc: EncView, dec: DecView, frames: seq<seq<real>>)
    requires forall i :: 0 <= i < |frames| ==> N * |Plan(mode)| <= |frames[i]|
    requires enc.xq == dec.xq
    ensures Link(k, mode, pf, enc, dec, frames).0.xq == Link(k, mode, pf, enc, dec, frames).1.xq
  {
    if frames != [] {
      LinkInStep(k, mode, pf, enc, dec, frames[..|frames| - 1]);
      var p := Link(k, mode, pf, enc, dec, frames[..|frames| - 1]);
      FrameInStep(k, mode, pf, p.0, p.1, frames[|frames| - 1]);
    }
  }
}
