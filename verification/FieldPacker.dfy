/**
 Packing and unpacking of Gray-coded bit fields at arbitrary bit offsets, slice by slice.
 */
module FieldPacker {
  import opened Bits
  import opened BytePacking

  /** A word combined with itself shifted down by n. */
  function Fold(x: nat, n: nat): nat {
    Xor(x, Shr(x, n))
  }

  function Gray(x: nat): nat { Fold(x, 1) }

  /** The four folding steps at the end of unpack(). */
  function UnGray(x: nat): nat {
    Fold(Fold(Fold(Fold(x, 8), 4), 2), 1)
  }

  lemma FoldBit(x: nat, n: nat, k: nat)
    ensures BitAt(Fold(x, n), k) == if BitAt(x, k) != BitAt(x, n + k) then 1 else 0
  {
    XorBit(x, Shr(x, n), k);
    ShrBit(x, n, k);
  }

  /** Folding steps commute. */
  lemma FoldsCommute(x: nat, a: nat, b: nat)
    ensures Fold(Fold(x, a), b) == Fold(Fold(x, b), a)
  {
    forall k: nat ensures BitAt(Fold(Fold(x, a), b), k) == BitAt(Fold(Fold(x, b), a), k) {
      FoldBit(Fold(x, a), b, k);
      FoldBit(x, a, k);
      FoldBit(x, a, b + k);
      FoldBit(Fold(x, b), a, k);
      FoldBit(x, b, k);
      FoldBit(x, b, a + k);
    }
    Extensional(Fold(Fold(x, a), b), Fold(Fold(x, b), a));
  }

  /** Folding twice by n is folding once by 2n. */
  lemma FoldTwice(x: nat, n: nat)
    ensures Fold(Fold(x, n), n) == Fold(x, 2 * n)
  {
    forall k: nat ensures BitAt(Fold(Fold(x, n), n), k) == BitAt(Fold(x, 2 * n), k) {
      FoldBit(Fold(x, n), n, k);
      FoldBit(x, n, k);
      FoldBit(x, n, n + k);
      FoldBit(x, 2 * n, k);
    }
    Extensional(Fold(Fold(x, n), n), Fold(x, 2 * n));
  }

  /** What decoding a Gray-coded value yields, for values of any size. */
  lemma UnGrayGray(x: nat)
    ensures UnGray(Gray(x)) == Fold(x, 16)
  {
    calc {
      Fold(Fold(Fold(Fold(Fold(x, 1), 8), 4), 2), 1);
      { FoldsCommute(x, 1, 8); FoldsCommute(Fold(x, 8), 1, 4); FoldsCommute(Fold(Fold(x, 8), 4), 1, 2); }
      Fold(Fold(Fold(Fold(Fold(x, 8), 4), 2), 1), 1);
      { FoldTwice(Fold(Fold(Fold(x, 8), 4), 2), 1); }
      Fold(Fold(Fold(Fold(x, 8), 4), 2), 2);
      { FoldTwice(Fold(Fold(x, 8), 4), 2); }
      Fold(Fold(Fold(x, 8), 4), 4);
      { FoldTwice(Fold(x, 8), 4); }
      Fold(Fold(x, 8), 8);
      { FoldTwice(x, 8); }
      Fold(x, 16);
    }
  }

  /** Decoding recovers a value exactly when it is below 2^16 (the comment in the code says 8 bits). */
  lemma GrayRoundTripIff(x: nat)
    ensures UnGray(Gray(x)) == x <==> x < 65536
  {
    UnGrayGray(x);
    assert Pow2(16) == 65536 by { Pow2Add(8, 8); assert Pow2(8) == 256; }
    if x < 65536 {
      ShrSmall(x, 16);
    } else if Fold(x, 16) == x {
      forall k: nat | k >= 16 ensures BitAt(x, k) == 0 {
        FoldBit(x, 16, k - 16);
      }
      ClearAbove(x, 16);
      assert false;
    }
  }

  lemma {:induction false} ShrSmall(x: nat, n: nat)
    requires x < Pow2(n)
    ensures Shr(x, n) == 0
  {
    if n > 0 { ShrSmall(x / 2, n - 1); }
  }

  lemma FoldBound(x: nat, n: nat, w: nat)
    requires x < Pow2(w)
    ensures Fold(x, n) < Pow2(w)
  {
    ShrShrinks(x, n);
    XorBound(x, Shr(x, n), w);
  }

  lemma {:induction false} ShrShrinks(x: nat, n: nat)
    ensures Shr(x, n) <= x
  {
    if n > 0 { ShrShrinks(x / 2, n - 1); }
  }

  lemma GrayBound(x: nat, w: nat)
    requires x < Pow2(w)
    ensures Gray(x) < Pow2(w)
  {
    FoldBound(x, 1, w);
  }

  lemma UnGrayBound(x: nat, w: nat)
    requires x < Pow2(w)
    ensures UnGray(x) < Pow2(w)
  {
    FoldBound(x, 8, w);
    FoldBound(Fold(x, 8), 4, w);
    FoldBound(Fold(Fold(x, 8), 4), 2, w);
    FoldBound(Fold(Fold(Fold(x, 8), 4), 2), 1, w);
  }

  // ---- pack

  /** How many of fw bits fit in what is left of the byte at bit index `at`. */
  function SliceWidth(at: nat, fw: nat): nat {
    if 8 - at % 8 < fw then 8 - at % 8 else fw
  }

  /** bits [start, upto) of the array are or-ed with the leading bits of the w-bit value g; no other bit changes. */
  ghost predicate Merged(before: seq<Byte>, after: seq<Byte>, start: nat, upto: nat, w: nat, g: nat)
    requires start <= upto <= start + w
  {
    |before| == |after| &&
    forall i :: 0 <= i < 8 * |before| ==>
      BitsOf(after)[i] ==
      if start <= i < upto && BitAt(g, w - 1 - (i - start)) == 1 then 1 else BitsOf(before)[i]
  }

  /** The byte that one slice ors in, bit by bit. */
  lemma SliceBits(g: nat, fw: nat, sw: nat, left: nat, k: nat)
    requires sw <= fw && sw <= left <= 8 && k < 8
    ensures BitAt(Shl(Shr(g, fw - sw), left - sw) % 256, k)
         == if k < left - sw then 0 else BitAt(g, fw + k - left)
  {
    assert Pow2(8) == 256;
    ModBit(Shl(Shr(g, fw - sw), left - sw), 8, k);
    ShlBit(Shr(g, fw - sw), left - sw, k);
    if k >= left - sw { ShrBit(g, fw - sw, k - (left - sw)); }
  }

  /** pack(): writes `field` in Gray code, most significant bit first, and advances the bit index. */
  method PackField(bitArray: array<Byte>, bitIndex: nat, field: nat, fieldWidth: nat) returns (newIndex: nat)
    requires 1 <= fieldWidth <= 31 && field < Pow2(fieldWidth) && bitIndex + fieldWidth <= 8 * bitArray.Length
    modifies bitArray
    ensures newIndex == bitIndex + fieldWidth
    ensures Merged(old(bitArray[..]), bitArray[..], bitIndex, newIndex, fieldWidth, Gray(field))
  {
    GrayBound(field, fieldWidth);
    var g := Xor(Shr(field, 1), field);
    XorSwap(Shr(field, 1), field);
    newIndex := bitIndex;
    var fw := fieldWidth;
    while fw != 0
      invariant 0 <= fw <= fieldWidth && newIndex == bitIndex + fieldWidth - fw
      invariant fw == fieldWidth || fw == 0 || newIndex % 8 == 0
      invariant Merged(old(bitArray[..]), bitArray[..], bitIndex, newIndex, fieldWidth, g)
    {
      ghost var before := bitArray[..];
      var sliceWidth := PackSlice(bitArray, newIndex, fw, g);
      MergedChain(old(bitArray[..]), before, bitArray[..], bitIndex, newIndex, sliceWidth, fieldWidth, g);
      NextByte(newIndex, fw);
      newIndex := newIndex + sliceWidth;
      fw := fw - sliceWidth;
    }
  }

  /** A slice ends the field or fills its byte. */
  lemma NextByte(at: nat, fw: nat)
    ensures SliceWidth(at, fw) == fw || (at + SliceWidth(at, fw)) % 8 == 0
  {
  }

  /** The body of the loop in pack(): as much of the field as fits in the current byte. */
  method PackSlice(bitArray: array<Byte>, at: nat, fw: nat, g: nat) returns (sliceWidth: nat)
    requires 1 <= fw && at + fw <= 8 * bitArray.Length && (g < Pow2(fw) || at % 8 == 0)
    modifies bitArray
    ensures sliceWidth == SliceWidth(at, fw)
    ensures Merged(old(bitArray[..]), bitArray[..], at, at + sliceWidth, fw, g)
  {
    var bitsLeft := 8 - at % 8;
    sliceWidth := if bitsLeft < fw then bitsLeft else fw;
    var word := at / 8;
    ghost var before := bitArray[..];
    var slice := Shl(Shr(g, fw - sliceWidth), bitsLeft - sliceWidth) % 256;
    OrByte(bitArray[word], slice);
    bitArray[word] := Or(bitArray[word], slice);
    SliceMerged(before, bitArray[..], at, fw, g);
  }

  lemma OrByte(x: nat, y: nat)
    requires x < 256 && y < 256
    ensures Or(x, y) < 256
  {
    assert Pow2(8) == 256;
    OrBound(x, y, 8);
  }

  /** One slice merges the leading bits of an fw-bit field and touches nothing else. */
  lemma SliceMerged(before: seq<Byte>, after: seq<Byte>, at: nat, fw: nat, g: nat)
    requires 1 <= fw && at + fw <= 8 * |before| && |after| == |before|
    requires g < Pow2(fw) || at % 8 == 0
    requires forall j :: 0 <= j < |before| && j != at / 8 ==> after[j] == before[j]
    requires var sw := SliceWidth(at, fw);
             after[at / 8] == Or(before[at / 8], Shl(Shr(g, fw - sw), 8 - at % 8 - sw) % 256)
    ensures Merged(before, after, at, at + SliceWidth(at, fw), fw, g)
  {
    var left, sw, word := 8 - at % 8, SliceWidth(at, fw), at / 8;
    forall i | 0 <= i < 8 * |before|
      ensures BitsOf(after)[i] ==
        if at <= i < at + sw && BitAt(g, fw - 1 - (i - at)) == 1 then 1 else BitsOf(before)[i]
    {
      if i / 8 == word {
        var k := 7 - i % 8;
        SliceBits(g, fw, sw, left, k);
        OrBit(before[word], Shl(Shr(g, fw - sw), left - sw) % 256, k);
        assert i - at == left - 1 - k;
        if k >= left { HighBits(g, fw, fw + k - left); }
      }
    }
  }

  lemma MergedChain(a: seq<Byte>, b: seq<Byte>, c: seq<Byte>, start: nat, mid: nat, sw: nat, w: nat, g: nat)
    requires start <= mid <= mid + sw <= start + w
    requires Merged(a, b, start, mid, w, g)
    requires Merged(b, c, mid, mid + sw, start + w - mid, g)
    ensures Merged(a, c, start, mid + sw, w, g)
  {
  }

  // ---- unpack

  /** unpack(): reads a field and undoes the Gray code. */
  method UnpackField(bitArray: array<Byte>, bitIndex: nat, fieldWidth: nat) returns (value: nat, newIndex: nat)
    requires 1 <= fieldWidth <= 31 && bitIndex + fieldWidth <= 8 * bitArray.Length
    ensures newIndex == bitIndex + fieldWidth
    ensures value == UnGray(FromBits(BitsOf(bitArray[..])[bitIndex..newIndex]))
  {
    var field := 0;
    newIndex := bitIndex;
    var fw := fieldWidth;
    NothingRead(bitArray[..], bitIndex, fieldWidth);
    while fw != 0
      invariant 0 <= fw <= fieldWidth && newIndex == bitIndex + fieldWidth - fw
      invariant SoFar(field, bitArray[..], bitIndex, fieldWidth, fw)
    {
      var sliceWidth;
      field, sliceWidth := UnpackSlice(bitArray, bitIndex, fieldWidth, fw, field, newIndex);
      newIndex := newIndex + sliceWidth;
      fw := fw - sliceWidth;
    }
    AllRead(field, bitArray[..], bitIndex, fieldWidth);
    var t := Xor(field, Shr(field, 8));
    t := Xor(t, Shr(t, 4));
    t := Xor(t, Shr(t, 2));
    t := Xor(t, Shr(t, 1));
    value := t;
  }

  /** The part of the field that lies in one byte. */
  method UnpackSlice(bitArray: array<Byte>, ghost bitIndex: nat, ghost fieldWidth: nat, fw: nat, field: nat, index: nat)
    returns (more: nat, sliceWidth: nat)
    requires 1 <= fw <= fieldWidth <= 31 && bitIndex + fieldWidth <= 8 * bitArray.Length && index == bitIndex + fieldWidth - fw
    requires SoFar(field, bitArray[..], bitIndex, fieldWidth, fw)
    ensures 1 <= sliceWidth <= fw && SoFar(more, bitArray[..], bitIndex, fieldWidth, fw - sliceWidth)
  {
    var bitsLeft := 8 - index % 8;
    sliceWidth := if bitsLeft < fw then bitsLeft else fw;
    var slice := Shl(Shr(bitArray[index / 8], bitsLeft - sliceWidth) % Pow2(sliceWidth), fw - sliceWidth);
    SliceRead(field, slice, bitArray[..], bitIndex, fieldWidth, fw);
    more := Or(field, slice);
  }

  /** All but the last fw bits of the w-bit field at `at` have been read into x; the others are clear. */
  ghost predicate SoFar(x: nat, bytes: seq<Byte>, at: nat, w: nat, fw: nat)
    requires at + w <= 8 * |bytes|
  {
    forall k: nat {:trigger BitAt(x, k)} :: BitAt(x, k) == if fw <= k < w then BitsOf(bytes)[at + w - 1 - k] else 0
  }

  lemma NothingRead(bytes: seq<Byte>, at: nat, w: nat)
    requires at + w <= 8 * |bytes|
    ensures SoFar(0, bytes, at, w, w)
  {
    forall k: nat ensures BitAt(0, k) == 0 { ZeroBits(k); }
  }

  lemma SliceRead(x: nat, slice: nat, bytes: seq<Byte>, at: nat, w: nat, fw: nat)
    requires 1 <= fw <= w && at + w <= 8 * |bytes| && SoFar(x, bytes, at, w, fw)
    requires var from, sw := at + w - fw, SliceWidth(at + w - fw, fw);
             slice == Shl(Shr(bytes[from / 8], 8 - from % 8 - sw) % Pow2(sw), fw - sw)
    ensures SoFar(Or(x, slice), bytes, at, w, fw - SliceWidth(at + w - fw, fw))
  {
    var from := at + w - fw;
    forall k: nat
      ensures BitAt(Or(x, slice), k) == if fw - SliceWidth(from, fw) <= k < w then BitsOf(bytes)[at + w - 1 - k] else 0
    {
      OrBit(x, slice, k);
      ReadSlice(bytes, from, fw, k);
    }
  }

  lemma AllRead(x: nat, bytes: seq<Byte>, at: nat, w: nat)
    requires at + w <= 8 * |bytes| && SoFar(x, bytes, at, w, 0)
    ensures x == FromBits(BitsOf(bytes)[at..at + w])
  {
    var field := BitsOf(bytes)[at..at + w];
    forall k: nat ensures BitAt(x, k) == BitAt(FromBits(field), k) { FromBitsBit(field, k); }
    Extensional(x, FromBits(field));
  }

  /** Moving on within a byte. */
  lemma Within(at: nat, d: nat)
    requires at % 8 + d < 8
    ensures (at + d) / 8 == at / 8 && (at + d) % 8 == at % 8 + d
  {
    ModUnique(at + d, 8, at / 8, at % 8 + d);
  }

  lemma ReadSlice(bytes: seq<Byte>, at: nat, fw: nat, k: nat)
    requires 1 <= fw && at + fw <= 8 * |bytes|
    ensures var sw := SliceWidth(at, fw);
            BitAt(Shl(Shr(bytes[at / 8], 8 - at % 8 - sw) % Pow2(sw), fw - sw), k)
            == if fw - sw <= k < fw then BitsOf(bytes)[at + fw - 1 - k] else 0
  {
    var left, sw, word := 8 - at % 8, SliceWidth(at, fw), bytes[at / 8];
    ShlBit(Shr(word, left - sw) % Pow2(sw), fw - sw, k);
    if k >= fw - sw {
      var j := k - (fw - sw);
      ModBit(Shr(word, left - sw), sw, j);
      ShrBit(word, left - sw, j);
      if j < sw {
        Within(at, sw - 1 - j);
      }
    }
  }

  // ---- the two are inverse

  /** The bits a field occupies in a cleared buffer. */
  function FieldBits(v: nat, w: nat): (r: seq<Bit>)
    ensures |r| == w
  {
    seq(w, i requires 0 <= i < w => BitAt(Gray(v), w - 1 - i))
  }

  lemma FieldBitsValue(v: nat, w: nat)
    requires v < Pow2(w)
    ensures FromBits(FieldBits(v, w)) == Gray(v)
  {
    GrayBound(v, w);
    forall k: nat ensures BitAt(FromBits(FieldBits(v, w)), k) == BitAt(Gray(v), k) {
      FromBitsBit(FieldBits(v, w), k);
      if k >= w { HighBits(Gray(v), w, k); }
    }
    Extensional(FromBits(FieldBits(v, w)), Gray(v));
  }

  /** Writing a value and reading the same field back, in any buffer and at any offset. */
  lemma FieldRoundTrip(before: seq<Byte>, after: seq<Byte>, at: nat, v: nat, w: nat)
    requires 1 <= w <= 31 && v < Pow2(w) && at + w <= 8 * |before|
    requires forall i :: at <= i < at + w ==> BitsOf(before)[i] == 0
    requires Merged(before, after, at, at + w, w, Gray(v))
    ensures BitsOf(after)[at..at + w] == FieldBits(v, w)
    ensures UnGray(FromBits(BitsOf(after)[at..at + w])) == v <==> v < 65536
  {
    FieldIsThere(before, after, at, v, w);
    ReadBack(BitsOf(after)[at..at + w], v, w);
  }

  lemma FieldIsThere(before: seq<Byte>, after: seq<Byte>, at: nat, v: nat, w: nat)
    requires at + w <= 8 * |before| && forall i :: at <= i < at + w ==> BitsOf(before)[i] == 0
    requires Merged(before, after, at, at + w, w, Gray(v))
    ensures BitsOf(after)[at..at + w] == FieldBits(v, w)
  {
    var bits, field := BitsOf(after)[at..at + w], FieldBits(v, w);
    forall i | 0 <= i < w ensures bits[i] == field[i] { assert bits[i] == BitsOf(after)[at + i]; }
  }

  lemma ReadBack(bits: seq<Bit>, v: nat, w: nat)
    requires v < Pow2(w) && bits == FieldBits(v, w)
    ensures UnGray(FromBits(bits)) == v <==> v < 65536
  {
    FieldBitsValue(v, w);
    GrayRoundTripIff(v);
  }

  // ---- why Gray code: neighbouring values differ in a single bit

  function Distance(x: nat, y: nat): nat {
    if x == 0 && y == 0 then 0 else (if x % 2 != y % 2 then 1 else 0) + Distance(x / 2, y / 2)
  }

  lemma GraySplit(x: nat)
    ensures Gray(x) / 2 == Gray(x / 2)
    ensures Gray(x) % 2 == if x % 2 != (x / 2) % 2 then 1 else 0
  {
    assert Shr(x, 1) == x / 2 && Shr(x / 2, 1) == x / 4 && (x / 2) / 2 == x / 4;
  }

  lemma {:induction false} GrayNeighbours(x: nat)
    ensures Distance(Gray(x), Gray(x + 1)) == 1
  {
    GraySplit(x);
    GraySplit(x + 1);
    DistanceSplit(Gray(x), Gray(x + 1));
    if x % 2 == 0 {
      assert (x + 1) / 2 == x / 2;
      SelfDistance(Gray(x / 2));
    } else {
      assert (x + 1) / 2 == x / 2 + 1;
      GrayNeighbours(x / 2);
    }
  }

  lemma DistanceSplit(x: nat, y: nat)
    ensures Distance(x, y) == (if x % 2 != y % 2 then 1 else 0) + Distance(x / 2, y / 2)
  {
  }

  lemma {:induction false} SelfDistance(x: nat)
    ensures Distance(x, x) == 0
  {
    if x > 0 { SelfDistance(x / 2); }
  }
}
