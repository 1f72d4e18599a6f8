/**
 The codec from speech to packed bytes and back: encoding and packing a frame, unpacking and decoding
 it, and the state of the two ends over a whole conversation.
 */
module FrameLink {
  import opened Bits
  import opened BytePacking
  import opened FieldPacker
  import opened FrameLayout
  import opened Duplex

  // ---- the fields of a frame and the decoder's schedule

  /** The widths of the fields of the first t 10 ms frames of a plan. */
  function PlanWidths(p: seq<Extra>, t: nat): (w: seq<nat>)
    requires t <= |p|
  {
    if t == 0 then [] else PlanWidths(p, t - 1) + [1] + ExtraWidths(p[t - 1])
  }

  lemma TwoFrames(p: seq<Extra>, t: nat)
    requires t + 2 <= |p|
    ensures PlanWidths(p, t + 2) == PlanWidths(p, t) + [1] + ExtraWidths(p[t]) + [1] + ExtraWidths(p[t + 1])
  {
    assert PlanWidths(p, t + 1) == PlanWidths(p, t) + [1] + ExtraWidths(p[t]);
  }

  /** What the frames carry, followed by the spectral indexes, is exactly the decoder's schedule. */
  lemma ScheduleIsPlan(m: Mode)
    ensures DecoderWidths(m) == PlanWidths(Plan(m), |Plan(m)|) + LspWidths(m)
  {
    var p := Plan(m);
    TwoFrames(p, 0);
    if |p| == 4 { TwoFrames(p, 2); }
    match m {
      case M3200 => assert PlanWidths(p, 2) == [1, 1, WO_BITS, E_BITS];
      case M2400 => assert PlanWidths(p, 2) == [1, 1, WO_E_BITS];
      case M1600 => assert PlanWidths(p, 4) == [1, 1, WO_BITS, E_BITS, 1, 1, WO_BITS, E_BITS];
      case M1400 => assert PlanWidths(p, 4) == [1, 1, WO_E_BITS, 1, 1, WO_E_BITS];
      case M1300 => assert PlanWidths(p, 4) == [1, 1, 1, 1, WO_BITS, E_BITS];
      case M1200 => assert PlanWidths(p, 4) == [1, 1, WO_E_BITS, 1, 1, WO_E_BITS];
    }
  }

  lemma {:induction false} WidthsPerField(m: Mode, t: nat)
    requires t <= |Plan(m)|
    ensures |PlanWidths(Plan(m), t)| == FieldCount(m, t)
  {
    if t > 0 { WidthsPerField(m, t - 1); }
  }

  /** Where the widths of the pitch and energy fields of frame t stand. */
  lemma {:induction false} ExtraWidthsAt(m: Mode, t: nat, u: nat)
    requires t < u <= |Plan(m)|
    ensures StandAt(PlanWidths(Plan(m), u), FieldCount(m, t) + 1, ExtraWidths(Plan(m)[t]))
    decreases u
  {
    if t < u - 1 {
      ExtraWidthsAt(m, t, u - 1);
      StandStill(PlanWidths(Plan(m), u - 1), PlanWidths(Plan(m), u), FieldCount(m, t) + 1, ExtraWidths(Plan(m)[t]));
    } else {
      WidthsPerField(m, t);
    }
  }

  ghost predicate StandAt(w: seq<nat>, at: nat, x: seq<nat>) {
    at + |x| <= |w| && forall j :: 0 <= j < |x| ==> w[at + j] == x[j]
  }

  lemma StandStill(w: seq<nat>, more: seq<nat>, at: nat, x: seq<nat>)
    requires StandAt(w, at, x) && w <= more
    ensures StandAt(more, at, x)
  {
  }

  // ---- a frame that fits its schedule

  lemma FitsConcat(a: seq<nat>, v: seq<nat>, b: seq<nat>, w: seq<nat>)
    requires Fits(a, v) && Fits(b, w)
    ensures Fits(a + b, v + w)
  {
  }

  lemma SmallPowers()
    ensures Pow2(1) == 2 && Pow2(WO_BITS) == 128 && Pow2(E_BITS) == 32 && Pow2(WO_E_BITS) == 256
  {
    assert Pow2(4) == 16;
    assert Pow2(8) == 2 * Pow2(7) && Pow2(7) == 2 * Pow2(6);
  }

  lemma ExtraFits(k: Kernels, x: Extra, v: EncView, m: Model)
    ensures Fits(EncodeExtra(k, x, v, m).1, ExtraWidths(x))
  {
    SmallPowers();
  }

  lemma VoicedFits(b: nat)
    requires b < 2
    ensures Fits([b], [1])
  {
    SmallPowers();
  }

  lemma {:induction false} FramesFit(k: Kernels, mode: Mode, v: EncView, speech: seq<real>, t: nat)
    requires t <= |Plan(mode)| && N * t <= |speech|
    ensures Fits(EncodeFrames(k, mode, v, speech, t).1, PlanWidths(Plan(mode), t))
  {
    if t > 0 {
      FramesFit(k, mode, v, speech, t - 1);
      var p := EncodeFrames(k, mode, v, speech, t - 1);
      var a := Analyse(k, p.0, speech[N * (t - 1)..N * t]);
      ExtraFits(k, Plan(mode)[t - 1], a.0, a.1);
      VoicedFits(a.1.voiced);
      FitsConcat(p.1, PlanWidths(Plan(mode), t - 1), [a.1.voiced], [1]);
      FitsConcat(p.1 + [a.1.voiced], PlanWidths(Plan(mode), t - 1) + [1],
                 EncodeExtra(k, Plan(mode)[t - 1], a.0, a.1).1, ExtraWidths(Plan(mode)[t - 1]));
    }
  }

  /** Every frame the encoder produces fits the decoder's schedule, field for field. */
  lemma EncodedFits(k: Kernels, mode: Mode, v: EncView, speech: seq<real>)
    requires LspsFit(k) && N * |Plan(mode)| <= |speech|
    ensures Fits(EncodeView(k, mode, v, speech).1, DecoderWidths(mode))
  {
    ScheduleIsPlan(mode);
    FramesFit(k, mode, v, speech, |Plan(mode)|);
    var p := EncodeFrames(k, mode, v, speech, |Plan(mode)|);
    FitsConcat(p.1, PlanWidths(Plan(mode), |Plan(mode)|), k.lspIndexes(mode, k.uqLsps(p.0.sn).1), LspWidths(mode));
  }

  // ---- bytes

  /** The zero fields that fill up a frame. */
  function Spare(m: Mode): (z: seq<nat>)
    ensures |z| == |SpareWidths(m)| && forall i :: 0 <= i < |z| ==> z[i] == 0
  {
    if m == M2400 || m == M1200 then [0] else []
  }

  /** The values a decoder reads from a packed frame. */
  ghost predicate Reads(m: Mode, bytes: seq<Byte>, values: seq<nat>) {
    var w := DecoderWidths(m);
    Total(w) <= 8 * |bytes| && |values| == |w| &&
    forall i :: 0 <= i < |w| ==> values[i] == ReadField(BitsOf(bytes), w, i)
  }

  /** Any bytes whatever can be decoded: every field read from them is within its width, and so inside its table. */
  lemma AnyBytesDecode(k: Kernels, m: Mode, bytes: seq<Byte>, values: seq<nat>)
    requires Reads(m, bytes, values)
    ensures Fits(values, DecoderWidths(m)) && Decodable(k, m, values)
  {
    FieldsFit(DecoderWidths(m), BitsOf(bytes), values);
    FittingDecodes(k, m, values, DecoderWidths(m));
  }

  lemma FieldsFit(w: seq<nat>, bits: seq<Bit>, values: seq<nat>)
    requires Total(w) <= |bits| && |values| == |w| && forall i :: 0 <= i < |w| ==> values[i] == ReadField(bits, w, i)
    ensures Fits(values, w)
  {
    forall i | 0 <= i < |w| ensures values[i] < Pow2(w[i]) { ReadBound(bits, w, i); }
  }

  lemma FittingDecodes(k: Kernels, m: Mode, values: seq<nat>, w: seq<nat>)
    requires w == DecoderWidths(m) && Fits(values, w)
    ensures Decodable(k, m, values)
  {
    ScheduleIsPlan(m);
    WidthsPerField(m, |Plan(m)|);
    forall t | 0 <= t < |Plan(m)| ensures InTables(m, values, t) {
      FittingInTables(m, values, w, t, PlanWidths(Plan(m), |Plan(m)|));
    }
  }

  lemma FittingInTables(m: Mode, values: seq<nat>, w: seq<nat>, t: nat, first: seq<nat>)
    requires t < |Plan(m)| && Fits(values, w) && first == PlanWidths(Plan(m), |Plan(m)|) && first <= w
    ensures InTables(m, values, t)
  {
    ExtraWidthsAt(m, t, |Plan(m)|);
    ExtraFieldsFit(Plan(m)[t], values, w, first, FieldCount(m, t) + 1);
  }

  lemma ExtraFieldsFit(x: Extra, values: seq<nat>, w: seq<nat>, first: seq<nat>, at: nat)
    requires Fits(values, w) && first <= w && StandAt(first, at, ExtraWidths(x))
    ensures x == Scalar ==> at + 1 < |values| && values[at] < 128 && values[at + 1] < 32
    ensures x == Joint ==> at < |values| && values[at] < 256
  {
    SmallPowers();
    if x != Nothing { FieldFits(values, w, first, at, ExtraWidths(x), 0); }
    if x == Scalar { FieldFits(values, w, first, at, ExtraWidths(x), 1); }
  }

  lemma FieldFits(values: seq<nat>, w: seq<nat>, first: seq<nat>, at: nat, x: seq<nat>, j: nat)
    requires Fits(values, w) && first <= w && StandAt(first, at, x) && j < |x|
    ensures at + j < |values| && values[at + j] < Pow2(x[j])
  {
    assert first[at + j] == x[j];
  }

  lemma ReadBound(bits: seq<Bit>, w: seq<nat>, i: nat)
    requires i < |w| && Total(w) <= |bits|
    ensures ReadField(bits, w, i) < Pow2(w[i])
  {
    OffsetsGrow(w, i + 1, |w|);
    UnGrayBound(FromBits(bits[Offset(w, i)..Offset(w, i + 1)]), w[i]);
  }

  /** A packed frame, read back, is the list of fields that was packed. */
  lemma PackedReadsBack(m: Mode, fields: seq<nat>, bytes: seq<Byte>, values: seq<nat>)
    requires Fits(fields, DecoderWidths(m)) && |bytes| == (BitsPerFrame(m) + 7) / 8
    requires |fields + Spare(m)| == |EncoderWidths(m)| && Holds(bytes, fields + Spare(m), EncoderWidths(m), |EncoderWidths(m)|)
    requires Reads(m, bytes, values)
    ensures values == fields
  {
    SpareFits(m, fields);
    forall i | 0 <= i < |values| ensures values[i] == fields[i] {
      FrameRoundTrip(m, fields + Spare(m), bytes, i);
    }
  }

  lemma SpareFits(m: Mode, fields: seq<nat>)
    requires Fits(fields, DecoderWidths(m))
    ensures Fits(fields + Spare(m), EncoderWidths(m))
  {
    LayoutAgrees(m);
    assert Fits(Spare(m), SpareWidths(m));
    FitsConcat(fields, DecoderWidths(m), Spare(m), SpareWidths(m));
  }

  /** codec2_encode(): analyse the speech, then pack the fields into a frame of bytes. */
  method EncodeFrame(c: Codec2, bits: array<Byte>, speech: seq<real>)
    requires LspsFit(c.k) && N * |Plan(c.mode)| <= |speech| && bits.Length == (BitsPerFrame(c.mode) + 7) / 8
    modifies bits, c`Sn, c`nlp, c`prevWoEnc, c`xqEnc
    ensures var e := EncodeView(c.k, c.mode, old(c.Enc()), speech);
            c.Enc() == e.0 && |e.1 + Spare(c.mode)| == |EncoderWidths(c.mode)| &&
            Holds(bits[..], e.1 + Spare(c.mode), EncoderWidths(c.mode), |EncoderWidths(c.mode)|)
  {
    EncodedFits(c.k, c.mode, c.Enc(), speech);
    var values := c.Encode(speech);
    SpareFits(c.mode, values);
    LayoutAgrees(c.mode);
    WriteFields(bits, values + Spare(c.mode), EncoderWidths(c.mode));
  }

  /** codec2_decode(): unpack the fields of any frame of bytes, then synthesise. */
  method DecodeFrame(c: Codec2, bits: array<Byte>) returns (speech: seq<int>)
    requires bits.Length == (BitsPerFrame(c.mode) + 7) / 8
    modifies c`SnOut, c`exPhase, c`bgEst, c`prevModelDec, c`prevLspsDec, c`prevEDec, c`xqDec, c.rng`next
    ensures exists values :: Reads(c.mode, bits[..], values) && Decodable(c.k, c.mode, values) &&
              (c.Dec(), speech) == DecodeView(c.k, c.mode, c.postFilter, old(c.Dec()), values)
  {
    DecoderFits(c.mode);
    var values := ReadFields(bits, DecoderWidths(c.mode));
    assert Reads(c.mode, bits[..], values);
    AnyBytesDecode(c.k, c.mode, bits[..], values);
    speech := c.Decode(values);
  }

  lemma DecoderFits(m: Mode)
    ensures Packable(DecoderWidths(m)) && Total(DecoderWidths(m)) <= BitsPerFrame(m)
  {
    LayoutAgrees(m);
    var e, d := EncoderWidths(m), DecoderWidths(m);
    SameOffsets(e, d, |d|);
    OffsetsGrow(e, |d|, |e|);
    forall i | 0 <= i < |d| ensures 1 <= d[i] <= 16 { assert d[i] == e[i]; }
  }

  /**
   A frame that goes through the bytes intact gives the decoder the encoder's fields and leaves both
   quantiser states equal.
   */
  lemma PackedFrameInStep(k: Kernels, mode: Mode, pf: PostFilter, enc: EncView, dec: DecView, speech: seq<real>,
                          bytes: seq<Byte>, values: seq<nat>)
    requires LspsFit(k) && N * |Plan(mode)| <= |speech| && enc.xq == dec.xq
    requires |bytes| == (BitsPerFrame(mode) + 7) / 8 && Reads(mode, bytes, values)
    requires var fields := EncodeView(k, mode, enc, speech).1 + Spare(mode);
             |fields| == |EncoderWidths(mode)| && Holds(bytes, fields, EncoderWidths(mode), |EncoderWidths(mode)|)
    ensures values == EncodeView(k, mode, enc, speech).1 && Decodable(k, mode, values)
    ensures DecodeView(k, mode, pf, dec, values).0.xq == EncodeView(k, mode, enc, speech).0.xq
  {
    EncodedFits(k, mode, enc, speech);
    PackedReadsBack(mode, EncodeView(k, mode, enc, speech).1, bytes, values);
    FrameInStep(k, mode, pf, enc, dec, speech);
  }

  /** In the 40 ms modes the voicing bits are the first fields of their frames. */
  lemma VoicingAt(m: Mode, i: nat)
    requires (m.M1300? || m.M1400? || m.M1600?) && i < 4
    ensures FieldCount(m, i) == VoicingField(m, i)
  {
    assert i >= 1 ==> FieldCount(m, 1) == 1;
    assert i >= 2 ==> FieldCount(m, 2) == 2 + |ExtraWidths(Plan(m)[1])|;
  }
}
