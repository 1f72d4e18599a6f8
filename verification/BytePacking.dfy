/**
 The MSB-first unpack and pack loops that the modem, interleaver and FEC programs share.
 */
module BytePacking {
  import opened Bits

  /** The bits of a byte string, most significant bit of byte 0 first. */
  function BitsOf(bytes: seq<Byte>): (bits: seq<Bit>)
    ensures |bits| == 8 * |bytes|
  {
    seq(8 * |bytes|, i requires 0 <= i < 8 * |bytes| => BitAt(bytes[i / 8], 7 - i % 8))
  }

  function ByteOf(b: seq<Bit>): Byte
    requires |b| == 8
  {
    assert Pow2(8) == 256;
    FromBits(b)
  }

  /** The bytes of a bit string whose length is a multiple of eight. */
  function BytesOf(bits: seq<Bit>): (bytes: seq<Byte>)
    requires |bits| % 8 == 0
    ensures |bytes| == |bits| / 8
  {
    seq(|bits| / 8, j requires 0 <= j < |bits| / 8 => ByteOf(bits[8 * j..8 * j + 8]))
  }

  lemma BitsOfBytes(bits: seq<Bit>)
    requires |bits| % 8 == 0
    ensures BitsOf(BytesOf(bits)) == bits
  {
    var bytes := BytesOf(bits);
    forall i | 0 <= i < |bits| ensures BitsOf(bytes)[i] == bits[i] {
      var j := i / 8;
      FromBitsBit(bits[8 * j..8 * j + 8], 7 - i % 8);
    }
  }

  /** A byte string is determined by its bits. */
  lemma SameBytes(s: seq<Byte>, t: seq<Byte>)
    requires BitsOf(s) == BitsOf(t)
    ensures s == t
  {
    assert |s| == |t| by { assert |BitsOf(s)| == 8 * |s|; }
    forall j | 0 <= j < |s| ensures s[j] == t[j] {
      forall k | 0 <= k < 8 ensures BitAt(s[j], k) == BitAt(t[j], k) {
        var i := 8 * j + 7 - k;
        assert i / 8 == j && i % 8 == 7 - k;
        assert BitsOf(s)[i] == BitsOf(t)[i];
      }
      assert Pow2(8) == 256;
      SameBits(s[j], t[j], 8);
    }
  }

  lemma BytesOfBits(bytes: seq<Byte>)
    ensures BytesOf(BitsOf(bytes)) == bytes
  {
    BitsOfBytes(BitsOf(bytes));
    SameBytes(BytesOf(BitsOf(bytes)), bytes);
  }

  /** The unpack loop, with a byte counter and a bit counter that runs down from 7. */
  method Unpack(packed: array<Byte>, bits: array<Bit>)
    requires bits.Length == 8 * packed.Length
    modifies bits
    ensures bits[..] == BitsOf(packed[..])
  {
    var bit, byte := 7, 0;
    for i := 0 to bits.Length
      invariant 0 <= bit <= 7 && i == 8 * byte + 7 - bit
      invariant forall j :: 0 <= j < i ==> bits[j] == BitAt(packed[j / 8], 7 - j % 8)
      invariant packed[..] == old(packed[..])
    {
      ShrBit(packed[byte], bit, 0);
      bits[i] := Shr(packed[byte], bit) % 2;
      bit := bit - 1;
      if bit < 0 {
        bit := 7;
        byte := byte + 1;
      }
    }
    assert byte == packed.Length;
  }

  /** What the pack loop has written after i bits. */
  ghost predicate Written(packed: seq<Byte>, bits: seq<Bit>, i: nat)
    requires |bits| == 8 * |packed| && i <= |bits|
  {
    forall j :: 0 <= j < |bits| ==>
      BitAt(packed[j / 8], 7 - j % 8) == if j < i then bits[j] else 0
  }

  /** The pack loop: clears the bytes, then merges the bits in with the same two counters. */
  method Pack(bits: array<Bit>, packed: array<Byte>)
    requires bits.Length == 8 * packed.Length
    modifies packed
    ensures BitsOf(packed[..]) == bits[..]
  {
    for n := 0 to packed.Length
      invariant forall j :: 0 <= j < n ==> packed[j] == 0
    {
      packed[n] := 0;
    }
    var bit, byte := 7, 0;
    forall j | 0 <= j < bits.Length ensures BitAt(packed[j / 8], 7 - j % 8) == 0 {
      ZeroBits(7 - j % 8);
    }
    for i := 0 to bits.Length
      invariant 0 <= bit <= 7 && i == 8 * byte + 7 - bit
      invariant Written(packed[..], bits[..], i)
      invariant bits[..] == old(bits[..])
    {
      ghost var before := packed[..];
      MergeBit(packed[byte], bits[i], bit);
      packed[byte] := Or(packed[byte], Shl(bits[i], bit));
      WrittenStep(before, packed[..], bits[..], i);
      bit := bit - 1;
      if bit < 0 {
        bit := 7;
        byte := byte + 1;
      }
    }
    assert byte == packed.Length;
  }

  /** Merging b in at place `bit` sets that bit of the word when b is 1 and touches no other. */
  lemma MergeBit(word: Byte, b: Bit, bit: nat)
    requires bit < 8
    ensures Or(word, Shl(b, bit)) < 256
    ensures forall k: nat {:trigger BitAt(word, k)} ::
      BitAt(Or(word, Shl(b, bit)), k) == if k == bit && b == 1 then 1 else BitAt(word, k)
  {
    assert Pow2(8) == 256;
    forall k: nat ensures BitAt(Shl(b, bit), k) == if k == bit then b else 0 {
      ShlBit(b, bit, k);
      if k > bit { assert b / 2 == 0; ZeroBits(k - bit - 1); }
    }
    forall k: nat ensures BitAt(Or(word, Shl(b, bit)), k) == if k == bit && b == 1 then 1 else BitAt(word, k) {
      OrBit(word, Shl(b, bit), k);
    }
    forall k: nat | k >= 8 ensures BitAt(Shl(b, bit), k) == 0 {}
    ClearAbove(Shl(b, bit), 8);
    OrBound(word, Shl(b, bit), 8);
  }

  lemma WrittenStep(before: seq<Byte>, after: seq<Byte>, bits: seq<Bit>, i: nat)
    requires |bits| == 8 * |before| && i < |bits| && Written(before, bits, i)
    requires |after| == |before| && after == before[i / 8 := after[i / 8]]
    requires forall k: nat {:trigger BitAt(before[i / 8], k)} ::
      BitAt(after[i / 8], k) == if k == 7 - i % 8 && bits[i] == 1 then 1 else BitAt(before[i / 8], k)
    ensures Written(after, bits, i + 1)
  {
    forall j | 0 <= j < |bits|
      ensures BitAt(after[j / 8], 7 - j % 8) == if j < i + 1 then bits[j] else 0
    {
      assert BitAt(before[j / 8], 7 - j % 8) == if j < i then bits[j] else 0;
      if j / 8 == i / 8 {
        assert BitAt(before[i / 8], 7 - j % 8) == BitAt(before[j / 8], 7 - j % 8);
      }
    }
  }
}
