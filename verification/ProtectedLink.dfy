/**
 A codec frame on its whole way: packed fields, error-correcting code, modem frames over a channel
 that inverts bits, frame pairing, correction, and the fields read back.
 */
module ProtectedLink {
  import opened Bits
  import opened BytePacking
  import opened FrameLayout
  import opened Fec
  import FramePairing
  import FrameLink

  /** The codec mode that each protection mode carries, and the bits of a modem frame, half a protected frame. */
  function CodecMode(m: FecMode): Mode { if m == F2000 then M1400 else M1300 }
  function HalfBits(m: FecMode): (h: nat)
    ensures 2 * h == ModemBits(m)
  {
    ModemBits(m) / 2
  }

  /** The bits that fec_enc reads from a packed codec frame. */
  function CodecFrame(m: FecMode, bytes: seq<Byte>): seq<Bit>
    requires |bytes| == 7
  {
    BitsOf(bytes)[..CodecBits(m)]
  }

  /** At most three wrong bits in every block and none among the bits that no block protects. */
  ghost predicate Light(m: FecMode, sent: seq<Bit>, y: seq<Bit>) {
    |sent| == |y| == ModemBits(m) &&
    (forall b :: b in Blocks(m) ==> WellPlaced(m, b) && Differences(sent, y, Places(b)) <= 3) &&
    forall p :: 0 <= p < CodecBits(m) && !Protected(m, p) ==> y[p] == sent[p]
  }

  lemma LightIsCorrected(m: FecMode, x: seq<Bit>, sent: seq<Bit>, y: seq<Bit>, out: seq<Bit>)
    requires Sent(m, x, sent) && Light(m, sent, y) && Received(m, y, out)
    ensures out == x
  {
    FrameRecovered(m, x, sent, y, out);
  }

  // ---- the fields

  /** Bit strings that agree as far as the fields go hold the same fields. */
  lemma SameFields(a: seq<Bit>, b: seq<Bit>, w: seq<nat>, n: nat, i: nat)
    requires Total(w) <= n <= |a| && n <= |b| && a[..n] == b[..n] && i < |w|
    ensures ReadField(a, w, i) == ReadField(b, w, i)
  {
    OffsetsGrow(w, i + 1, |w|);
    OffsetsGrow(w, i, i + 1);
    SameSlice(a, b, n, Offset(w, i), Offset(w, i + 1));
  }

  lemma SameSlice(a: seq<Bit>, b: seq<Bit>, n: nat, lo: nat, hi: nat)
    requires lo <= hi <= n <= |a| && n <= |b| && a[..n] == b[..n]
    ensures a[lo..hi] == b[lo..hi]
  {
    assert a[lo..hi] == a[..n][lo..hi] && b[lo..hi] == b[..n][lo..hi];
  }

  lemma Room(m: FecMode)
    ensures Total(DecoderWidths(CodecMode(m))) <= CodecBits(m) && BitsPerFrame(CodecMode(m)) == CodecBits(m)
    ensures FrameLink.Spare(CodecMode(m)) == []
  {
    FrameLink.DecoderFits(CodecMode(m));
  }

  /**
   Fields packed into a frame, protected, received with a light error pattern, corrected and packed
   again are read back unchanged.
   */
  lemma FieldsRecovered(m: FecMode, fields: seq<nat>, bytes: seq<Byte>, sent: seq<Bit>, y: seq<Bit>, out: seq<Bit>,
                        back: seq<Byte>, values: seq<nat>)
    requires Fits(fields, DecoderWidths(CodecMode(m))) && |fields| == |EncoderWidths(CodecMode(m))|
    requires |bytes| == 7 && Holds(bytes, fields, EncoderWidths(CodecMode(m)), |EncoderWidths(CodecMode(m))|)
    requires Sent(m, CodecFrame(m, bytes), sent) && Light(m, sent, y) && Received(m, y, out)
    requires |back| == 7 && CodecFrame(m, back) == out && FrameLink.Reads(CodecMode(m), back, values)
    ensures values == fields
  {
    LightIsCorrected(m, CodecFrame(m, bytes), sent, y, out);
    Room(m);
    SameReads(m, bytes, back, values);
    assert fields + FrameLink.Spare(CodecMode(m)) == fields;
    FrameLink.PackedReadsBack(CodecMode(m), fields, bytes, values);
  }

  lemma SameReads(m: FecMode, bytes: seq<Byte>, back: seq<Byte>, values: seq<nat>)
    requires |bytes| == |back| == 7 && CodecFrame(m, bytes) == CodecFrame(m, back)
    requires FrameLink.Reads(CodecMode(m), back, values)
    ensures FrameLink.Reads(CodecMode(m), bytes, values)
  {
    Room(m);
    var w := DecoderWidths(CodecMode(m));
    forall i | 0 <= i < |w| ensures values[i] == ReadField(BitsOf(bytes), w, i) {
      SameFields(BitsOf(back), BitsOf(bytes), w, CodecBits(m), i);
    }
  }

  // ---- whole files over the modem

  /** The file that fec_enc writes. */
  function File(sent: seq<seq<Bit>>): (r: seq<Byte>)
    requires forall k :: 0 <= k < |sent| ==> |sent[k]| % 8 == 0
  {
    if sent == [] then [] else BytesOf(sent[0]) + File(sent[1..])
  }

  /** The modem sends each protected frame as its two halves. */
  lemma {:induction false} HalvesOfFile(sent: seq<seq<Bit>>, n: nat, k: nat)
    requires n > 0 && (2 * n) % 8 == 0 && (forall j :: 0 <= j < |sent| ==> |sent[j]| == 2 * n) && k < |sent|
    ensures var h := FramePairing.Halves(File(sent), n);
            2 * k + 1 < |h| && h[2 * k] == sent[k][..n] && h[2 * k + 1] == sent[k][n..]
    decreases |sent|
  {
    FirstOfFile(sent, n);
    if k > 0 { HalvesOfFile(sent[1..], n, k - 1); }
  }

  lemma FirstOfFile(sent: seq<seq<Bit>>, n: nat)
    requires n > 0 && (2 * n) % 8 == 0 && (forall j :: 0 <= j < |sent| ==> |sent[j]| == 2 * n) && sent != []
    ensures FramePairing.Halves(File(sent), n) == [sent[0][..n], sent[0][n..]] + FramePairing.Halves(File(sent[1..]), n)
  {
    var file, first := File(sent), BytesOf(sent[0]);
    assert file[..|first|] == first && file[|first|..] == File(sent[1..]);
    BitsOfBytes(sent[0]);
  }

  lemma {:induction false} PairsAt(rx: seq<seq<Bit>>, n: nat, j: nat)
    requires (2 * n) % 8 == 0 && (forall i :: 0 <= i < |rx| ==> |rx[i]| == n) && 2 * j + 1 < |rx|
    ensures |FramePairing.Pairs(rx, n)| == |rx| / 2 && FramePairing.Pairs(rx, n)[j] == BytesOf(rx[2 * j] + rx[2 * j + 1])
    decreases |rx|
  {
    PairsLength(rx, n);
    if j > 0 {
      PairsAt(rx[2..], n, j - 1);
      assert rx[2..][2 * (j - 1)] == rx[2 * j] && rx[2..][2 * (j - 1) + 1] == rx[2 * j + 1];
    }
  }

  lemma {:induction false} PairsLength(rx: seq<seq<Bit>>, n: nat)
    requires (2 * n) % 8 == 0 && (forall i :: 0 <= i < |rx| ==> |rx[i]| == n)
    ensures |FramePairing.Pairs(rx, n)| == |rx| / 2
    decreases |rx|
  {
    if |rx| >= 2 { PairsLength(rx[2..], n); }
  }

  /** What the modem receiver writes after the frames up to and including modem frame i. */
  function Later(p: FramePairing.Pairing, n: nat, rx: seq<seq<Bit>>, reliable: seq<bool>, i: nat): seq<seq<Byte>>
    requires FramePairing.Valid(p, n) && |rx| == |reliable| && (forall j :: 0 <= j < |rx| ==> |rx[j]| == n) && i < |rx|
  {
    var all, before := FramePairing.Outputs(p, n, rx, reliable), FramePairing.Outputs(p, n, rx[..i + 1], reliable[..i + 1]);
    if |before| <= |all| then all[|before|..] else []
  }

  /**
   Over a whole run of the modem: once the reliable bit has been raised, and as long as no frame suffers
   more than a light error pattern, the correction program writes exactly the codec frames that were
   protected, in order, whatever the receiver held at the start.
   */
  lemma ProtectedDelivery(m: FecMode, x: seq<seq<Bit>>, sent: seq<seq<Bit>>, p: FramePairing.Pairing,
                          rx: seq<seq<Bit>>, reliable: seq<bool>, i: nat, j: nat, out: seq<Bit>)
    requires |x| == |sent| && |rx| == |reliable| == 2 * |sent| && FramePairing.Valid(p, HalfBits(m))
    requires forall k :: 0 <= k < |rx| ==> |rx[k]| == HalfBits(m)
    requires FramePairing.OnSecondHalves(reliable) && i < |rx| && reliable[i]
    requires forall k {:trigger sent[k]} :: (i + 1) / 2 <= k < |sent| ==>
               Sent(m, x[k], sent[k]) && Light(m, sent[k], rx[2 * k] + rx[2 * k + 1])
    ensures |Later(p, HalfBits(m), rx, reliable, i)| == |sent| - (i + 1) / 2
    ensures j < |sent| - (i + 1) / 2 && Received(m, BitsOf(Later(p, HalfBits(m), rx, reliable, i)[j]), out) ==>
            out == x[(i + 1) / 2 + j]
  {
    var n, first := HalfBits(m), (i + 1) / 2;
    FramePairing.AfterOdd(reliable, i);
    assert 2 * first == i + 1;
    FramePairing.LockedOutput(p, n, rx, reliable, i);
    var rest := rx[i + 1..];
    assert Later(p, n, rx, reliable, i) == FramePairing.Pairs(rest, n);
    PairsLength(rest, n);
    if j < |sent| - first && Received(m, BitsOf(Later(p, n, rx, reliable, i)[j]), out) {
      var k := first + j;
      PairsAt(rest, n, j);
      var y := rx[2 * k] + rx[2 * k + 1];
      assert rest[2 * j] == rx[2 * k] && rest[2 * j + 1] == rx[2 * k + 1];
      BitsOfBytes(y);
      assert Sent(m, x[k], sent[k]) && Light(m, sent[k], y);
      LightIsCorrected(m, x[k], sent[k], y, out);
    }
  }
}
