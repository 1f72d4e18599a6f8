/**
 The bit layout of a codec frame in each of the six modes, and the spare voicing bit.
 */
module FrameLayout {
  import opened Bits
  import opened BytePacking
  import opened FieldPacker

  datatype Mode = M3200 | M2400 | M1600 | M1400 | M1300 | M1200

  function BitsPerFrame(m: Mode): nat {
    match m
    case M3200 => 64
    case M2400 => 48
    case M1600 => 64
    case M1400 => 56
    case M1300 => 52
    case M1200 => 48
  }

  const WO_BITS := 7
  const E_BITS := 5
  const WO_E_BITS := 8
  const LSP_BITS: seq<nat> := [4, 4, 4, 4, 4, 4, 4, 3, 3, 2]
  const LSPD_BITS: seq<nat> := [5, 5, 5, 5, 5, 5, 5, 5, 5, 5]
  const LSP_VQ_BITS: seq<nat> := [9, 9, 9]

  /** The widths of the decoder's unpack calls, in order. */
  function DecoderWidths(m: Mode): seq<nat> {
    match m
    case M3200 => [1, 1, WO_BITS, E_BITS] + LSPD_BITS
    case M2400 => [1, 1, WO_E_BITS] + LSP_BITS
    case M1600 => [1, 1, WO_BITS, E_BITS, 1, 1, WO_BITS, E_BITS] + LSP_BITS
    case M1400 => [1, 1, WO_E_BITS, 1, 1, WO_E_BITS] + LSP_BITS
    case M1300 => [1, 1, 1, 1, WO_BITS, E_BITS] + LSP_BITS
    case M1200 => [1, 1, WO_E_BITS, 1, 1, WO_E_BITS] + LSP_VQ_BITS
  }

  /** The fields the encoder adds at the end that no decoder reads. */
  function SpareWidths(m: Mode): seq<nat> {
    match m
    case M2400 => [2]
    case M1200 => [1]
    case _ => []
  }

  /** The widths of the encoder's pack calls, in order. */
  function EncoderWidths(m: Mode): seq<nat> {
    match m
    case M3200 => [1, 1, 7, 5] + [5, 5, 5, 5, 5, 5, 5, 5, 5, 5]
    case M2400 => [1, 1, 8] + [4, 4, 4, 4, 4, 4, 4, 3, 3, 2] + [2]
    case M1600 => [1, 1, 7, 5, 1, 1, 7, 5] + [4, 4, 4, 4, 4, 4, 4, 3, 3, 2]
    case M1400 => [1, 1, 8, 1, 1, 8] + [4, 4, 4, 4, 4, 4, 4, 3, 3, 2]
    case M1300 => [1, 1, 1, 1, 7, 5] + [4, 4, 4, 4, 4, 4, 4, 3, 3, 2]
    case M1200 => [1, 1, 8, 1, 1, 8] + [9, 9, 9] + [1]
  }

  /** The bit offset of field i. */
  function Offset(widths: seq<nat>, i: nat): nat
    requires i <= |widths|
  {
    if i == 0 then 0 else Offset(widths, i - 1) + widths[i - 1]
  }

  function Total(widths: seq<nat>): nat {
    Offset(widths, |widths|)
  }

  ghost predicate Packable(widths: seq<nat>) {
    forall i :: 0 <= i < |widths| ==> 1 <= widths[i] <= 16
  }

  ghost predicate Fits(values: seq<nat>, widths: seq<nat>) {
    |values| == |widths| && forall i :: 0 <= i < |values| ==> values[i] < Pow2(widths[i])
  }

  /** The bit string of the first n fields. */
  function FrameBits(values: seq<nat>, widths: seq<nat>, n: nat): (r: seq<Bit>)
    requires |values| == |widths| && n <= |widths|
    ensures |r| == Offset(widths, n)
  {
    if n == 0 then [] else FrameBits(values, widths, n - 1) + FieldBits(values[n - 1], widths[n - 1])
  }

  /** The value of field i in a bit string. */
  function ReadField(bits: seq<Bit>, widths: seq<nat>, i: nat): nat
    requires i < |widths| && Total(widths) <= |bits|
  {
    OffsetsGrow(widths, i + 1, |widths|);
    UnGray(FromBits(bits[Offset(widths, i)..Offset(widths, i + 1)]))
  }

  lemma {:induction false} OffsetsGrow(widths: seq<nat>, i: nat, j: nat)
    requires i <= j <= |widths|
    ensures Offset(widths, i) <= Offset(widths, j)
    decreases j
  {
    if i < j { OffsetsGrow(widths, i, j - 1); }
  }

  // ---- the encoder's pack calls and the decoder's unpack calls

  /** Clears the frame, then packs one field after the other. */
  method WriteFields(bits: array<Byte>, values: seq<nat>, widths: seq<nat>)
    requires Packable(widths) && Fits(values, widths) && Total(widths) <= 8 * bits.Length
    modifies bits
    ensures Holds(bits[..], values, widths, |widths|)
  {
    for i := 0 to bits.Length
      invariant forall j :: 0 <= j < i ==> bits[j] == 0
    {
      bits[i] := 0;
    }
    ClearedBits(bits[..], values, widths);
    var nbit := 0;
    for i := 0 to |values|
      invariant nbit == Offset(widths, i) && Holds(bits[..], values, widths, i)
    {
      OffsetsGrow(widths, i + 1, |widths|);
      ghost var before := bits[..];
      nbit := PackField(bits, nbit, values[i], widths[i]);
      HoldsNext(before, bits[..], values, widths, i);
    }
  }

  /** The buffer holds the first n fields and is clear after them. */
  ghost predicate Holds(bytes: seq<Byte>, values: seq<nat>, widths: seq<nat>, n: nat)
    requires |values| == |widths| && n <= |widths|
  {
    Offset(widths, n) <= 8 * |bytes| &&
    BitsOf(bytes)[..Offset(widths, n)] == FrameBits(values, widths, n) &&
    forall i :: Offset(widths, n) <= i < 8 * |bytes| ==> BitsOf(bytes)[i] == 0
  }

  lemma ClearedBits(bytes: seq<Byte>, values: seq<nat>, widths: seq<nat>)
    requires |values| == |widths| && forall j :: 0 <= j < |bytes| ==> bytes[j] == 0
    ensures Holds(bytes, values, widths, 0)
  {
    forall i | 0 <= i < 8 * |bytes| ensures BitsOf(bytes)[i] == 0 { ZeroBits(7 - i % 8); }
  }

  lemma HoldsNext(before: seq<Byte>, after: seq<Byte>, values: seq<nat>, widths: seq<nat>, i: nat)
    requires Packable(widths) && Fits(values, widths) && i < |widths| && Holds(before, values, widths, i)
    requires Offset(widths, i + 1) <= 8 * |before|
    requires Merged(before, after, Offset(widths, i), Offset(widths, i + 1), widths[i], Gray(values[i]))
    ensures Holds(after, values, widths, i + 1)
  {
    var at, w := Offset(widths, i), widths[i];
    FieldRoundTrip(before, after, at, values[i], w);
    var a, b := BitsOf(before), BitsOf(after);
    assert b[..at] == a[..at];
    Prolonged(b, at, w);
  }

  lemma Prolonged(b: seq<Bit>, at: nat, w: nat)
    requires at + w <= |b|
    ensures b[..at + w] == b[..at] + b[at..at + w]
  {
  }

  /** One unpack() per field. */
  method ReadFields(bits: array<Byte>, widths: seq<nat>) returns (values: seq<nat>)
    requires Packable(widths) && Total(widths) <= 8 * bits.Length
    ensures |values| == |widths|
    ensures forall i :: 0 <= i < |widths| ==> values[i] == ReadField(BitsOf(bits[..]), widths, i)
  {
    var nbit := 0;
    values := [];
    ghost var all := BitsOf(bits[..]);
    for i := 0 to |widths|
      invariant nbit == Offset(widths, i) && ReadSoFar(all, widths, values, i)
    {
      OffsetsGrow(widths, i + 1, |widths|);
      var v, next := UnpackField(bits, nbit, widths[i]);
      ReadOne(all, widths, values, i, v);
      values := values + [v];
      nbit := next;
    }
  }

  ghost predicate ReadSoFar(bits: seq<Bit>, widths: seq<nat>, values: seq<nat>, n: nat) {
    Total(widths) <= |bits| && |values| == n <= |widths| && forall i :: 0 <= i < n ==> values[i] == ReadField(bits, widths, i)
  }

  lemma ReadOne(bits: seq<Bit>, widths: seq<nat>, values: seq<nat>, i: nat, v: nat)
    requires ReadSoFar(bits, widths, values, i) && i < |widths| && Offset(widths, i) <= Offset(widths, i + 1) <= |bits|
    requires v == UnGray(FromBits(bits[Offset(widths, i)..Offset(widths, i) + widths[i]]))
    ensures ReadSoFar(bits, widths, values + [v], i + 1)
  {
    assert v == ReadField(bits, widths, i);
  }

  // ---- round trip

  lemma {:induction false} FieldInFrame(values: seq<nat>, widths: seq<nat>, n: nat, i: nat)
    requires |values| == |widths| && i < n <= |widths|
    ensures Offset(widths, i + 1) <= Offset(widths, n)
    ensures FrameBits(values, widths, n)[Offset(widths, i)..Offset(widths, i + 1)] == FieldBits(values[i], widths[i])
  {
    if i < n - 1 { FieldInFrame(values, widths, n - 1, i); }
  }

  /** Any list of fields is read back as it was written. */
  lemma FieldReadBack(bytes: seq<Byte>, values: seq<nat>, widths: seq<nat>, i: nat)
    requires Packable(widths) && Fits(values, widths) && Holds(bytes, values, widths, |widths|) && i < |widths|
    ensures ReadField(BitsOf(bytes), widths, i) == values[i]
  {
    var n, bits := |widths|, BitsOf(bytes);
    FieldInFrame(values, widths, n, i);
    assert bits[Offset(widths, i)..Offset(widths, i + 1)]
        == bits[..Offset(widths, n)][Offset(widths, i)..Offset(widths, i + 1)];
    FieldBitsValue(values[i], widths[i]);
    SmallField(values[i], widths[i]);
  }

  lemma SmallField(v: nat, w: nat)
    requires w <= 16 && v < Pow2(w)
    ensures UnGray(Gray(v)) == v
  {
    if w < 16 { Pow2Grows(w, 16); }
    Pow2Add(8, 8);
    assert Pow2(8) == 256;
    GrayRoundTripIff(v);
  }

  /** In each mode the encoder writes the decoder's fields followed by the spare ones, and fills the frame. */
  lemma LayoutAgrees(m: Mode)
    ensures EncoderWidths(m) == DecoderWidths(m) + SpareWidths(m)
    ensures Total(EncoderWidths(m)) == BitsPerFrame(m)
    ensures Packable(EncoderWidths(m))
  {
    var w := EncoderWidths(m);
    match m {
      case M3200 => assert w == DecoderWidths(m) + []; Sum14(w);
      case M2400 => assert w == DecoderWidths(m) + [2]; Sum14(w);
      case M1600 => assert w == DecoderWidths(m) + []; Sum18(w);
      case M1400 => assert w == DecoderWidths(m) + []; Sum16(w);
      case M1300 => assert w == DecoderWidths(m) + []; Sum16(w);
      case M1200 => assert w == DecoderWidths(m) + [1]; Sum10(w);
    }
  }

  lemma Sum10(w: seq<nat>)
    requires |w| >= 10
    ensures Offset(w, 10) == w[0] + w[1] + w[2] + w[3] + w[4] + w[5] + w[6] + w[7] + w[8] + w[9]
  {
    Four(w, 0);
    Four(w, 4);
    assert Offset(w, 9) == Offset(w, 8) + w[8];
  }

  lemma Sum14(w: seq<nat>)
    requires |w| >= 14
    ensures Offset(w, 14) == w[0] + w[1] + w[2] + w[3] + w[4] + w[5] + w[6] + w[7] + w[8] + w[9]
                             + w[10] + w[11] + w[12] + w[13]
  {
    Sum10(w);
    Four(w, 10);
  }

  lemma Sum16(w: seq<nat>)
    requires |w| >= 16
    ensures Offset(w, 16) == w[0] + w[1] + w[2] + w[3] + w[4] + w[5] + w[6] + w[7] + w[8] + w[9]
                             + w[10] + w[11] + w[12] + w[13] + w[14] + w[15]
  {
    Sum14(w);
    assert Offset(w, 15) == Offset(w, 14) + w[14];
  }

  lemma Sum18(w: seq<nat>)
    requires |w| >= 18
    ensures Offset(w, 18) == w[0] + w[1] + w[2] + w[3] + w[4] + w[5] + w[6] + w[7] + w[8] + w[9]
                             + w[10] + w[11] + w[12] + w[13] + w[14] + w[15] + w[16] + w[17]
  {
    Sum14(w);
    Four(w, 14);
  }

  lemma Four(w: seq<nat>, i: nat)
    requires i + 4 <= |w|
    ensures Offset(w, i + 4) == Offset(w, i) + w[i] + w[i + 1] + w[i + 2] + w[i + 3]
  {
    assert Offset(w, i + 2) == Offset(w, i) + w[i] + w[i + 1];
  }

  /** In every mode the decoder recovers every index the encoder packed; only spare fields go unread. */
  lemma FrameRoundTrip(m: Mode, values: seq<nat>, bytes: seq<Byte>, i: nat)
    requires Fits(values, EncoderWidths(m)) && |bytes| == (BitsPerFrame(m) + 7) / 8
    requires Holds(bytes, values, EncoderWidths(m), |EncoderWidths(m)|)
    requires i < |DecoderWidths(m)|
    ensures Total(DecoderWidths(m)) <= 8 * |bytes|
    ensures ReadField(BitsOf(bytes), DecoderWidths(m), i) == values[i]
  {
    LayoutAgrees(m);
    var e, d := EncoderWidths(m), DecoderWidths(m);
    SameOffsets(e, d, |d|);
    SameOffsets(e, d, i);
    SameOffsets(e, d, i + 1);
    OffsetsGrow(e, |d|, |e|);
    FieldReadBack(bytes, values, e, i);
  }

  lemma {:induction false} SameOffsets(e: seq<nat>, d: seq<nat>, i: nat)
    requires d <= e && i <= |d|
    ensures Offset(e, i) == Offset(d, i)
  {
    if i > 0 { SameOffsets(e, d, i - 1); }
  }

  // ---- the spare voicing bit

  /** codec2_get_spare_bit_index() */
  function SpareBitIndex(m: Mode): int {
    match m
    case M1300 => 2
    case M1400 => 10
    case M1600 => 15
    case _ => -1
  }

  /** codec2_rebuild_spare_bit(), on one int per bit. */
  method RebuildSpareBit(m: Mode, bits: array<Bit>) returns (status: int)
    requires bits.Length == BitsPerFrame(m)
    modifies bits
    ensures status == 0 <==> SpareBitIndex(m) >= 0
    ensures status == 0 || status == -1
    ensures bits[..] == Rebuilt(m, old(bits[..]))
  {
    var v1 := bits[1];
    match m {
      case M1300 =>
        var v3 := bits[1 + 1 + 1];
        bits[2] := if v1 != 0 || v3 != 0 then 1 else 0;
        return 0;
      case M1400 =>
        var v3 := bits[1 + 1 + 8 + 1];
        bits[10] := if v1 != 0 || v3 != 0 then 1 else 0;
        return 0;
      case M1600 =>
        var v3 := bits[1 + 1 + 8 + 5 + 1];
        bits[15] := if v1 != 0 || v3 != 0 then 1 else 0;
        return 0;
      case _ => return -1;
    }
  }

  function Rebuilt(m: Mode, bits: seq<Bit>): (r: seq<Bit>)
    requires |bits| == BitsPerFrame(m)
    ensures |r| == |bits|
  {
    var at := SpareBitIndex(m);
    if at < 0 then bits else bits[at := if bits[1] == 1 || bits[at + 1] == 1 then 1 else 0]
  }

  /** The field numbers of the four voicing bits in the 40 ms modes. */
  function VoicingField(m: Mode, i: nat): nat
    requires m.M1300? || m.M1400? || m.M1600?
    requires i < 4
  {
    match m
    case M1300 => i
    case M1400 => [0, 1, 3, 4][i]
    case M1600 => [0, 1, 4, 5][i]
  }

  /** The documented index of the third voicing bit is right in modes 1300 and 1400 and wrong in 1600. */
  lemma SpareIndexRightIff(m: Mode)
    requires m.M1300? || m.M1400? || m.M1600?
    ensures SpareBitIndex(m) == Offset(EncoderWidths(m), VoicingField(m, 2)) <==> m != M1600
    ensures Offset(EncoderWidths(m), VoicingField(m, 2)) == (if m.M1300? then 2 else if m.M1400? then 10 else 14)
    ensures Offset(EncoderWidths(m), VoicingField(m, 3)) == (if m.M1300? then 3 else if m.M1400? then 11 else 15)
  {
    var w := EncoderWidths(m);
    Four(w, 0);
    assert Offset(w, 2) == w[0] + w[1];
    assert Offset(w, 3) == w[0] + w[1] + w[2];
  }

  /** A one-bit field reads as its bit. */
  lemma OneBitField(bits: seq<Bit>, widths: seq<nat>, i: nat)
    requires i < |widths| && widths[i] == 1 && Total(widths) <= |bits|
    ensures Offset(widths, i) < |bits| && ReadField(bits, widths, i) == bits[Offset(widths, i)]
  {
    OffsetsGrow(widths, i + 1, |widths|);
    var at := Offset(widths, i);
    var b := bits[at..at + 1];
    assert b[..0] == [] && FromBits(b) == bits[at];
    assert UnGray(0) == 0 && Fold(1, 8) == 1 && Fold(1, 4) == 1 && Fold(1, 2) == 1 && Fold(1, 1) == 1 by { FoldOne(); }
  }

  lemma FoldOne()
    ensures Fold(1, 8) == 1 && Fold(1, 4) == 1 && Fold(1, 2) == 1 && Fold(1, 1) == 1 && UnGray(0) == 0
  {
    ShrSmall(1, 1);
    ShrSmall(1, 2);
    ShrSmall(1, 4);
    ShrSmall(1, 8);
    ShrSmall(0, 1);
    ShrSmall(0, 2);
    ShrSmall(0, 4);
    ShrSmall(0, 8);
  }

  /** A field that does not contain the changed bit reads the same. */
  lemma OtherFieldKept(bits: seq<Bit>, widths: seq<nat>, at: nat, b: Bit, i: nat)
    requires i < |widths| && Total(widths) <= |bits| && at < |bits|
    requires !(Offset(widths, i) <= at < Offset(widths, i + 1))
    ensures ReadField(bits[at := b], widths, i) == ReadField(bits, widths, i)
  {
    OffsetsGrow(widths, i + 1, |widths|);
    assert bits[at := b][Offset(widths, i)..Offset(widths, i + 1)] == bits[Offset(widths, i)..Offset(widths, i + 1)];
  }

  /** In modes 1300 and 1400, rebuilding gives the third voicing field v1 or v3 and keeps every other field. */
  lemma RebuildIsRight(m: Mode, bits: seq<Bit>, i: nat)
    requires m.M1300? || m.M1400?
    requires |bits| == BitsPerFrame(m) && i < |EncoderWidths(m)| && Total(EncoderWidths(m)) <= |bits|
    ensures ReadField(Rebuilt(m, bits), EncoderWidths(m), i) ==
      if i == VoicingField(m, 2) then
        (if ReadField(bits, EncoderWidths(m), VoicingField(m, 1)) == 1
            || ReadField(bits, EncoderWidths(m), VoicingField(m, 3)) == 1 then 1 else 0)
      else ReadField(bits, EncoderWidths(m), i)
  {
    var w, at := EncoderWidths(m), SpareBitIndex(m);
    SpareIndexRightIff(m);
    assert Offset(w, 1) == 1;
    OneBitField(bits, w, VoicingField(m, 1));
    OneBitField(bits, w, VoicingField(m, 3));
    var f := VoicingField(m, 2);
    if i == f {
      OneBitField(Rebuilt(m, bits), w, f);
    } else {
      if i < f { OffsetsGrow(w, i + 1, f); } else { OffsetsGrow(w, f + 1, i); }
      OtherFieldKept(bits, w, at, Rebuilt(m, bits)[at], i);
    }
  }

  /**
   In mode 1600 the call never touches the third voicing field.  It writes the fourth one, and
   leaves that one alone exactly when it already was v1 or the top bit of the second pitch field.
   */
  lemma Rebuild1600(bits: seq<Bit>)
    requires |bits| == 64 && Total(EncoderWidths(M1600)) <= |bits|
    ensures ReadField(Rebuilt(M1600, bits), EncoderWidths(M1600), VoicingField(M1600, 2))
         == ReadField(bits, EncoderWidths(M1600), VoicingField(M1600, 2))
    ensures ReadField(Rebuilt(M1600, bits), EncoderWidths(M1600), VoicingField(M1600, 3))
         == ReadField(bits, EncoderWidths(M1600), VoicingField(M1600, 3))
         <==> bits[15] == (if bits[1] == 1 || bits[16] == 1 then 1 else 0)
  {
    var w := EncoderWidths(M1600);
    SpareIndexRightIff(M1600);
    OtherFieldKept(bits, w, 15, Rebuilt(M1600, bits)[15], 4);
    OneBitField(bits, w, 5);
    OneBitField(Rebuilt(M1600, bits), w, 5);
  }

  /** A frame of mode 1600 in which the call changes the fourth voicing field: all zero but that bit. */
  lemma Rebuild1600Changes(bits: seq<Bit>)
    requires bits == seq(64, i => if i == 15 then 1 else 0)
    ensures Total(EncoderWidths(M1600)) <= |bits|
    ensures ReadField(bits, EncoderWidths(M1600), VoicingField(M1600, 3)) == 1
    ensures ReadField(Rebuilt(M1600, bits), EncoderWidths(M1600), VoicingField(M1600, 3)) == 0
  {
    LayoutAgrees(M1600);
    var w := EncoderWidths(M1600);
    SpareIndexRightIff(M1600);
    OneBitField(bits, w, 5);
    OneBitField(Rebuilt(M1600, bits), w, 5);
  }
}
