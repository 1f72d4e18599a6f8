/**
 Forward error correction around a codec frame: which bits each Golay codeword protects, how the
 parity bits are laid out behind the frame, and what the receiver restores.
 */
module Fec {
  import opened Bits
  import opened GolayCode
  import opened GolayTables

  datatype FecMode = F2000 | F1850 | F1600

  function CodecBits(m: FecMode): nat { if m == F2000 then 56 else 52 }
  function ModemBits(m: FecMode): nat { if m == F1600 then 64 else 80 }

  /** The places of twelve data bits, most significant first, and of the first of their eleven parity bits. */
  datatype Block = Block(places: seq<nat>, parity: nat)

  const EXCITATION: seq<nat> := [0, 1, 2, 3, 4, 5, 6, 7, 11, 12, 13, 14]

  function Blocks(m: FecMode): seq<Block> {
    match m
    case F2000 => [Block(Range(0, 12), 56), Block(Range(12, 12), 67)]
    case F1850 => [Block(EXCITATION, 52), Block(Range(16, 12), 63)]
    case F1600 => [Block(EXCITATION, 52)]
  }

  function Places(b: Block): seq<nat> { b.places + Range(b.parity, 11) }

  ghost predicate WellPlaced(m: FecMode, b: Block) {
    |b.places| == 12 && (forall i :: 0 <= i < 12 ==> b.places[i] < CodecBits(m)) &&
    CodecBits(m) <= b.parity && b.parity + 11 <= ModemBits(m)
  }

  function Gather(y: seq<Bit>, places: seq<nat>): (r: seq<Bit>)
    requires forall i :: 0 <= i < |places| ==> places[i] < |y|
    ensures |r| == |places| && forall i :: 0 <= i < |places| ==> r[i] == y[places[i]]
  {
    seq(|places|, i requires 0 <= i < |places| => y[places[i]])
  }

  /** Binary digits [lo, hi) of c, most significant first. */
  function Digits(c: nat, lo: nat, hi: nat): (r: seq<Bit>)
    requires lo <= hi
    ensures |r| == hi - lo && forall i :: 0 <= i < hi - lo ==> r[i] == BitAt(c, hi - 1 - i)
  {
    seq(hi - lo, i requires 0 <= i < hi - lo => BitAt(c, hi - 1 - i))
  }

  // ---- words and their digits

  lemma DigitsValue(c: nat, n: nat)
    requires c < Pow2(n)
    ensures FromBits(Digits(c, 0, n)) == c
  {
    var d := Digits(c, 0, n);
    forall k: nat ensures BitAt(FromBits(d), k) == BitAt(c, k) {
      FromBitsBit(d, k);
      if k >= n { HighBits(c, n, k); }
    }
    Extensional(FromBits(d), c);
  }

  lemma {:induction false} HammingIsWeight(a: seq<Bit>, b: seq<Bit>, n: nat)
    requires n <= |a| && n <= |b|
    ensures Weight(Xor(FromBits(a[..n]), FromBits(b[..n]))) == Hamming(a, b, n)
  {
    if n > 0 {
      HammingIsWeight(a, b, n - 1);
      OneMoreDigit(a, n);
      OneMoreDigit(b, n);
      LastDigits(FromBits(a[..n]), FromBits(a[..n - 1]), a[n - 1], FromBits(b[..n]), FromBits(b[..n - 1]), b[n - 1]);
    } else {
      NoDigitsDiffer(a[..0], b[..0]);
    }
  }

  lemma NoDigitsDiffer(a: seq<Bit>, b: seq<Bit>)
    requires a == b == []
    ensures Weight(Xor(FromBits(a), FromBits(b))) == 0
  {
  }

  lemma LastDigits(p: nat, x: nat, d: Bit, q: nat, y: nat, e: Bit)
    requires p == 2 * x + d && q == 2 * y + e
    ensures Weight(Xor(p, q)) == Weight(Xor(x, y)) + if d != e then 1 else 0
  {
    LastDigit(x, d, y, e);
  }

  lemma OneMoreDigit(a: seq<Bit>, n: nat)
    requires 1 <= n <= |a|
    ensures FromBits(a[..n]) == 2 * FromBits(a[..n - 1]) + a[n - 1]
  {
    assert a[..n][..n - 1] == a[..n - 1];
  }

  /** How many of the bits in these places differ. */
  function Differences(a: seq<Bit>, b: seq<Bit>, places: seq<nat>): nat
    requires forall i :: 0 <= i < |places| ==> places[i] < |a| && places[i] < |b|
  {
    Hamming(Gather(a, places), Gather(b, places), |places|)
  }

  lemma LastDigit(x: nat, d: Bit, y: nat, e: Bit)
    ensures Weight(Xor(2 * x + d, 2 * y + e)) == Weight(Xor(x, y)) + if d != e then 1 else 0
  {
    XorHalf(2 * x + d, 2 * y + e);
    assert (2 * x + d) / 2 == x && (2 * x + d) % 2 == d;
    assert (2 * y + e) / 2 == y && (2 * y + e) % 2 == e;
  }

  // ---- what goes on the air

  /** The frame is followed by the parity bits that complete each block to a codeword. */
  ghost predicate Sent(m: FecMode, x: seq<Bit>, out: seq<Bit>) {
    |x| == CodecBits(m) && |out| == ModemBits(m) && out[..CodecBits(m)] == x &&
    forall b :: b in Blocks(m) ==> WellPlaced(m, b) && Codeword(FromBits(Gather(out, Places(b))))
  }

  lemma BlockSent(m: FecMode, b: Block, x: seq<Bit>, out: seq<Bit>, c: nat)
    requires WellPlaced(m, b) && |x| == CodecBits(m) && |out| == ModemBits(m) && out[..CodecBits(m)] == x
    requires Codeword(c) && Shr(c, 11) == FromBits(Gather(x, b.places))
    requires out[b.parity..b.parity + 11] == Digits(c, 0, 11)
    ensures Codeword(FromBits(Gather(out, Places(b))))
  {
    CodewordBound(c);
    GatherBlock(m, b, x, out);
    DataAndParity(Gather(x, b.places), Digits(c, 0, 11), c);
  }

  lemma GatherBlock(m: FecMode, b: Block, x: seq<Bit>, out: seq<Bit>)
    requires WellPlaced(m, b) && |x| == CodecBits(m) && |out| == ModemBits(m) && out[..CodecBits(m)] == x
    ensures Gather(out, Places(b)) == Gather(x, b.places) + out[b.parity..b.parity + 11]
  {
    forall i | 0 <= i < 12 ensures out[b.places[i]] == x[b.places[i]] { assert out[b.places[i]] == out[..CodecBits(m)][b.places[i]]; }
  }

  /** Data and parity bits together spell the codeword. */
  lemma DataAndParity(d: seq<Bit>, parity: seq<Bit>, c: nat)
    requires |d| == 12 && parity == Digits(c, 0, 11) && c < Pow2(23) && Shr(c, 11) == FromBits(d)
    ensures FromBits(d + parity) == c
  {
    DataDigits(d, c);
    assert d + parity == Digits(c, 0, 23);
    DigitsValue(c, 23);
  }

  lemma DataDigits(d: seq<Bit>, c: nat)
    requires |d| == 12 && Shr(c, 11) == FromBits(d)
    ensures d == Digits(c, 11, 23)
  {
    forall i | 0 <= i < 12 ensures d[i] == Digits(c, 11, 23)[i] {
      ShrBit(c, 11, 11 - i);
      FromBitsBit(d, 11 - i);
    }
  }

  /** Each protected block is replaced by the data of a codeword within three errors of what was received. */
  ghost predicate Restored(m: FecMode, b: Block, y: seq<Bit>, out: seq<Bit>)
    requires WellPlaced(m, b) && |y| == ModemBits(m) && |out| == CodecBits(m)
  {
    exists c :: Codeword(c) && Weight(Xor(c, FromBits(Gather(y, Places(b))))) <= 3 && Gather(out, b.places) == Digits(c, 11, 23)
  }

  ghost predicate Protected(m: FecMode, p: nat) { exists b :: b in Blocks(m) && p in b.places }

  ghost predicate Received(m: FecMode, y: seq<Bit>, out: seq<Bit>) {
    |y| == ModemBits(m) && |out| == CodecBits(m) &&
    (forall b :: b in Blocks(m) ==> WellPlaced(m, b) && Restored(m, b, y, out)) &&
    forall p :: 0 <= p < CodecBits(m) && !Protected(m, p) ==> out[p] == y[p]
  }

  /** Any three errors among the 23 bits of a block are corrected, whatever the rest of the frame suffered. */
  lemma BlockRecovered(m: FecMode, b: Block, x: seq<Bit>, sent: seq<Bit>, y: seq<Bit>, out: seq<Bit>)
    requires b in Blocks(m) && Sent(m, x, sent) && Received(m, y, out)
    requires Differences(sent, y, Places(b)) <= 3
    ensures Gather(out, b.places) == Gather(x, b.places)
  {
    var a, r := Gather(sent, Places(b)), Gather(y, Places(b));
    var c :| Codeword(c) && Weight(Xor(c, FromBits(r))) <= 3 && Gather(out, b.places) == Digits(c, 11, 23);
    GatherBlock(m, b, x, sent);
    DataRecovered(a, r, c);
  }

  lemma DataRecovered(a: seq<Bit>, r: seq<Bit>, c: nat)
    requires |a| == |r| == 23 && Codeword(FromBits(a)) && Hamming(a, r, 23) <= 3
    requires Codeword(c) && Weight(Xor(c, FromBits(r))) <= 3
    ensures Digits(c, 11, 23) == a[..12]
  {
    HammingIsWeight(a, r, 23);
    assert a[..23] == a && r[..23] == r;
    NearestUnique(FromBits(r), c, FromBits(a));
    DataBits(a, c);
  }

  lemma DataBits(a: seq<Bit>, c: nat)
    requires |a| == 23 && c == FromBits(a)
    ensures Digits(c, 11, 23) == a[..12]
  {
    forall i | 0 <= i < 12 ensures BitAt(c, 22 - i) == a[i] { FromBitsBit(a, 22 - i); }
  }

  /** A frame whose blocks suffer at most three errors each, and no others, comes back whole. */
  lemma FrameRecovered(m: FecMode, x: seq<Bit>, sent: seq<Bit>, y: seq<Bit>, out: seq<Bit>)
    requires Sent(m, x, sent) && Received(m, y, out)
    requires forall b :: b in Blocks(m) ==> Differences(sent, y, Places(b)) <= 3
    requires forall p :: 0 <= p < CodecBits(m) && !Protected(m, p) ==> y[p] == sent[p]
    ensures out == x
  {
    forall p | 0 <= p < CodecBits(m) ensures out[p] == x[p] {
      if Protected(m, p) {
        var b :| b in Blocks(m) && p in b.places;
        BlockRecovered(m, b, x, sent, y, out);
        var i :| 0 <= i < |b.places| && b.places[i] == p;
        assert Gather(out, b.places)[i] == Gather(x, b.places)[i];
      } else {
        assert sent[p] == sent[..CodecBits(m)][p];
      }
    }
  }

  // ---- the programs' loops over one frame

  /** Shifts bits [from, to) into a word that holds the bits `before`. */
  method ShiftIn(bits: array<Bit>, from: nat, to: nat, word: nat, ghost before: seq<Bit>,
                 ghost after: seq<Bit>) returns (data: nat)
    requires from <= to <= bits.Length && word == FromBits(before) && after == before + bits[from..to]
    ensures data == FromBits(after)
  {
    data := word;
    ghost var s := before;
    for i := from to to
      invariant s == before + bits[from..i] && data == FromBits(s)
    {
      Pushed(s, bits[i]);
      OrLow(data, bits[i]);
      data := Or(Shl(data, 1), bits[i]);
      s := s + [bits[i]];
    }
  }

  lemma Pushed(s: seq<Bit>, b: Bit)
    ensures FromBits(s + [b]) == 2 * FromBits(s) + b
  {
    assert (s + [b])[..|s|] == s;
  }

  lemma OrLow(x: nat, b: Bit)
    ensures Or(Shl(x, 1), b) == 2 * x + b
  {
    assert Shl(x, 1) == 2 * x;
    assert (2 * x) / 2 == x && (2 * x) % 2 == 0;
    assert b / 2 == 0;
  }

  /** d has been written at `at` and nothing else has changed. */
  ghost predicate Wrote(before: seq<Bit>, after: seq<Bit>, at: nat, d: seq<Bit>) {
    |after| == |before| && at + |d| <= |before| && after == before[..at] + d + before[at + |d|..]
  }

  lemma WroteThere(before: seq<Bit>, after: seq<Bit>, at: nat, d: seq<Bit>)
    requires Wrote(before, after, at, d)
    ensures after[at..at + |d|] == d
  {
  }

  lemma Kept(before: seq<Bit>, after: seq<Bit>, at: nat, d: seq<Bit>, lo: nat, hi: nat)
    requires Wrote(before, after, at, d) && lo <= hi <= |before| && (hi <= at || at + |d| <= lo)
    ensures after[lo..hi] == before[lo..hi]
  {
  }

  /** Writes binary digits [lo, hi) of a codeword, most significant first. */
  method PutDigits(out: array<Bit>, at: nat, c: nat, lo: nat, hi: nat)
    requires lo <= hi && at + hi - lo <= out.Length
    modifies out
    ensures Wrote(old(out[..]), out[..], at, Digits(c, lo, hi))
  {
    ghost var d := Digits(c, lo, hi);
    for j := 0 to hi - lo
      invariant forall i :: 0 <= i < j ==> out[at + i] == d[i]
      invariant forall i :: 0 <= i < out.Length && !(at <= i < at + j) ==> out[i] == old(out[i])
    {
      DigitIs(c, hi - 1 - j);
      out[at + j] := Shr(c, hi - 1 - j) % 2;
    }
    WroteDigits(old(out[..]), out[..], at, d);
  }

  lemma WroteDigits(before: seq<Bit>, after: seq<Bit>, at: nat, d: seq<Bit>)
    requires |before| == |after| && at + |d| <= |before| && forall i :: 0 <= i < |d| ==> after[at + i] == d[i]
    requires forall i :: 0 <= i < |before| && !(at <= i < at + |d|) ==> after[i] == before[i]
    ensures Wrote(before, after, at, d)
  {
    var whole := before[..at] + d + before[at + |d|..];
    forall i | 0 <= i < |before| ensures after[i] == whole[i] {
      if at <= i < at + |d| { assert after[at + (i - at)] == d[i - at]; }
    }
  }

  lemma DigitIs(c: nat, k: nat)
    ensures Shr(c, k) % 2 == BitAt(c, k)
  {
    ShrBit(c, k, 0);
  }

  method CopyBits(input: array<Bit>, out: array<Bit>, from: nat, to: nat)
    requires from <= to <= input.Length && to <= out.Length && input != out
    modifies out
    ensures Wrote(old(out[..]), out[..], from, input[from..to])
  {
    for i := from to to
      invariant forall j :: from <= j < i ==> out[j] == input[j]
      invariant forall j :: 0 <= j < out.Length && !(from <= j < i) ==> out[j] == old(out[j])
    {
      out[i] := input[i];
    }
    assert out[..] == old(out[..])[..from] + input[from..to] + old(out[..])[to..];
  }

  lemma TwoRuns(y: seq<Bit>, from: nat, n: nat, next: nat, k: nat)
    requires from + n <= |y| && next + k <= |y|
    ensures Gather(y, Range(from, n) + Range(next, k)) == y[from..from + n] + y[next..next + k]
  {
  }

  /** The data bits of a block, which are two runs of the frame, as a word. */
  method Data(bits: array<Bit>, from: nat, n: nat, next: nat, ghost b: Block) returns (data: nat)
    requires n <= 12 && from + n <= bits.Length && next + 12 - n <= bits.Length
    requires b.places == Range(from, n) + Range(next, 12 - n)
    ensures data == FromBits(Gather(bits[..], b.places))
  {
    ghost var y := bits[..];
    TwoRuns(y, from, n, next, 12 - n);
    data := ShiftIn(bits, from, from + n, 0, [], y[from..from + n]);
    data := ShiftIn(bits, next, next + 12 - n, data, y[from..from + n], Gather(y, b.places));
  }

  /** The codeword of a block of the frame. */
  method Protect(g: Golay23, input: array<Bit>, from: nat, n: nat, next: nat, ghost b: Block) returns (c: nat)
    requires g.Valid() && g.inited && n <= 12 && from + n <= input.Length && next + 12 - n <= input.Length
    requires b.places == Range(from, n) + Range(next, 12 - n)
    ensures Codeword(c) && Shr(c, 11) == FromBits(Gather(input[..], b.places))
  {
    var data := Data(input, from, n, next, b);
    TwelveBits(Gather(input[..], b.places));
    c := g.Encode(data);
  }

  lemma TwelveBits(b: seq<Bit>)
    requires |b| == 12
    ensures FromBits(b) <= 0xfff
  {
    assert Pow2(12) == 4096;
  }

  /** The codeword nearest to the 23 received bits of a block. */
  method Correct(g: Golay23, y: array<Bit>, from: nat, n: nat, next: nat, parity: nat, ghost b: Block) returns (c: nat)
    requires g.Valid() && g.inited && n <= 12 && from + n <= y.Length && next + 12 - n <= y.Length && parity + 11 <= y.Length
    requires b == Block(Range(from, n) + Range(next, 12 - n), parity)
    ensures Codeword(c) && Weight(Xor(c, FromBits(Gather(y[..], Places(b))))) <= 3
  {
    var word := Data(y, from, n, next, b);
    ghost var r := Gather(y[..], Places(b));
    assert r == Gather(y[..], b.places) + y[parity..parity + 11];
    word := ShiftIn(y, parity, parity + 11, word, Gather(y[..], b.places), r);
    c := g.Decode(word);
  }

  /** c completes block b of the frame x to a codeword. */
  ghost predicate Completes(m: FecMode, b: Block, x: seq<Bit>, c: nat)
    requires WellPlaced(m, b) && |x| == CodecBits(m)
  {
    Codeword(c) && Shr(c, 11) == FromBits(Gather(x, b.places))
  }

  /** The frame, followed by the parity bits of the codewords, one after the other. */
  ghost predicate Laid(m: FecMode, x: seq<Bit>, out: seq<Bit>, codewords: seq<nat>) {
    |x| == CodecBits(m) && |out| == ModemBits(m) && out[..CodecBits(m)] == x && |codewords| == |Blocks(m)| &&
    (forall i :: 0 <= i < |codewords| ==> WellPlaced(m, Blocks(m)[i]) && Completes(m, Blocks(m)[i], x, codewords[i])) &&
    forall i :: 0 <= i < |codewords| ==> out[Blocks(m)[i].parity..Blocks(m)[i].parity + 11] == Digits(codewords[i], 0, 11)
  }

  lemma LaidIsSent(m: FecMode, x: seq<Bit>, out: seq<Bit>, codewords: seq<nat>)
    requires Laid(m, x, out, codewords)
    ensures Sent(m, x, out)
  {
    forall b | b in Blocks(m) ensures WellPlaced(m, b) && Codeword(FromBits(Gather(out, Places(b)))) {
      var i :| 0 <= i < |codewords| && Blocks(m)[i] == b;
      BlockSent(m, b, x, out, codewords[i]);
    }
  }

  lemma OneRun(from: nat, n: nat)
    ensures Range(from, n) == Range(from, n) + Range(0, 0)
  {
  }

  lemma ExcitationRuns()
    ensures EXCITATION == Range(0, 8) + Range(11, 4)
  {
  }

  /** The frame and one block of parity bits. */
  method PutFrame(input: array<Bit>, out: array<Bit>, c: nat)
    requires input != out && input.Length + 11 <= out.Length
    modifies out
    ensures var n := input.Length; out[..n] == input[..] && out[n..n + 11] == Digits(c, 0, 11)
  {
    var n := input.Length;
    CopyBits(input, out, 0, n);
    ghost var copied := out[..];
    assert copied[..n] == input[..];
    PutDigits(out, n, c, 0, 11);
    WroteThere(copied, out[..], n, Digits(c, 0, 11));
    Kept(copied, out[..], n, Digits(c, 0, 11), 0, n);
  }

  /** The frame and two blocks of parity bits. */
  method PutTwo(input: array<Bit>, out: array<Bit>, c1: nat, c2: nat)
    requires input != out && input.Length + 22 <= out.Length
    modifies out
    ensures var n := input.Length;
            out[..n] == input[..] && out[n..n + 11] == Digits(c1, 0, 11) && out[n + 11..n + 22] == Digits(c2, 0, 11)
  {
    var n := input.Length;
    PutFrame(input, out, c1);
    ghost var s := out[..];
    PutDigits(out, n + 11, c2, 0, 11);
    WroteThere(s, out[..], n + 11, Digits(c2, 0, 11));
    Kept(s, out[..], n + 11, Digits(c2, 0, 11), 0, n);
    Kept(s, out[..], n + 11, Digits(c2, 0, 11), n, n + 11);
  }

  lemma TwoLaid(m: FecMode, x: seq<Bit>, out: seq<Bit>, c1: nat, c2: nat)
    requires m != F1600 && |x| == CodecBits(m) && |out| == ModemBits(m)
    requires Completes(m, Blocks(m)[0], x, c1) && Completes(m, Blocks(m)[1], x, c2)
    requires var n := CodecBits(m);
             out[..n] == x && out[n..n + 11] == Digits(c1, 0, 11) && out[n + 11..n + 22] == Digits(c2, 0, 11)
    ensures Sent(m, x, out)
  {
    LaidIsSent(m, x, out, [c1, c2]);
  }

  lemma OneLaid(x: seq<Bit>, out: seq<Bit>, c: nat)
    requires |x| == 52 && |out| == 64 && Completes(F1600, Blocks(F1600)[0], x, c)
    requires out[..52] == x && out[52..63] == Digits(c, 0, 11)
    ensures Sent(F1600, x, out)
  {
    LaidIsSent(F1600, x, out, [c]);
  }

  lemma NoDigits(out: seq<Bit>, at: nat, n: nat)
    requires at + n <= |out| && out[at..at + n] == Digits(0, 0, n)
    ensures forall i :: at <= i < at + n ==> out[i] == 0
  {
    forall i | at <= i < at + n ensures out[i] == 0 {
      assert out[i] == out[at..at + n][i - at];
      ZeroBits(n - 1 - (i - at));
    }
  }

  method AddFec2000(g: Golay23, input: array<Bit>, out: array<Bit>)
    requires g.Valid() && g.inited && input != out && input.Length == 56 && out.Length == 80
    modifies out
    ensures Sent(F2000, input[..], out[..])
  {
    OneRun(0, 12);
    OneRun(12, 12);
    var codeword1 := Protect(g, input, 0, 12, 0, Block(Range(0, 12), 56));
    var codeword2 := Protect(g, input, 12, 12, 0, Block(Range(12, 12), 67));
    PutTwo(input, out, codeword1, codeword2);
    TwoLaid(F2000, input[..], out[..], codeword1, codeword2);
  }

  method AddFec1850(g: Golay23, input: array<Bit>, out: array<Bit>)
    requires g.Valid() && g.inited && input != out && input.Length == 52 && out.Length == 80
    modifies out
    ensures Sent(F1850, input[..], out[..]) && forall i :: 74 <= i < 80 ==> out[i] == 0
  {
    ExcitationRuns();
    OneRun(16, 12);
    var codeword1 := Protect(g, input, 0, 8, 11, Block(EXCITATION, 52));
    var codeword2 := Protect(g, input, 16, 12, 0, Block(Range(16, 12), 63));
    PutTwo(input, out, codeword1, codeword2);
    ghost var s := out[..];
    PutDigits(out, 74, 0, 0, 6);
    Padded(s, out[..], 52);
    TwoLaid(F1850, input[..], out[..], codeword1, codeword2);
  }

  /** Zeros behind the parity bits leave them and the frame as they are. */
  lemma Padded(s: seq<Bit>, out: seq<Bit>, n: nat)
    requires |s| == n + 28 && Wrote(s, out, n + 22, Digits(0, 0, 6))
    ensures out[..n] == s[..n] && out[n..n + 11] == s[n..n + 11] && out[n + 11..n + 22] == s[n + 11..n + 22]
    ensures forall i :: n + 22 <= i < n + 28 ==> out[i] == 0
  {
    var d := Digits(0, 0, 6);
    Kept(s, out, n + 22, d, 0, n);
    Kept(s, out, n + 22, d, n, n + 11);
    Kept(s, out, n + 22, d, n + 11, n + 22);
    WroteThere(s, out, n + 22, d);
    NoDigits(out, n + 22, 6);
  }

  method AddFec1600(g: Golay23, input: array<Bit>, out: array<Bit>)
    requires g.Valid() && g.inited && input != out && input.Length == 52 && out.Length == 64
    modifies out
    ensures Sent(F1600, input[..], out[..]) && out[63] == 0
  {
    ExcitationRuns();
    var codeword1 := Protect(g, input, 0, 8, 11, Block(EXCITATION, 52));
    PutFrame(input, out, codeword1);
    ghost var s := out[..];
    PutDigits(out, 63, 0, 0, 1);
    Kept(s, out[..], 63, Digits(0, 0, 1), 0, 52);
    Kept(s, out[..], 63, Digits(0, 0, 1), 52, 63);
    WroteThere(s, out[..], 63, Digits(0, 0, 1));
    NoDigits(out[..], 63, 1);
    OneLaid(input[..], out[..], codeword1);
  }

  // ---- the receiver

  lemma DigitsSplit(c: nat, lo: nat, mid: nat, hi: nat)
    requires lo <= mid <= hi
    ensures Digits(c, lo, hi) == Digits(c, mid, hi) + Digits(c, lo, mid)
  {
  }

  lemma RestoredBy(m: FecMode, b: Block, y: seq<Bit>, out: seq<Bit>, c: nat)
    requires WellPlaced(m, b) && |y| == ModemBits(m) && |out| == CodecBits(m)
    requires Codeword(c) && Weight(Xor(c, FromBits(Gather(y, Places(b))))) <= 3 && Gather(out, b.places) == Digits(c, 11, 23)
    ensures Restored(m, b, y, out)
  {
  }

  lemma AllRestored(m: FecMode, blocks: seq<Block>, y: seq<Bit>, out: seq<Bit>)
    requires blocks == Blocks(m) && |y| == ModemBits(m) && |out| == CodecBits(m)
    requires forall i :: 0 <= i < |blocks| ==> WellPlaced(m, blocks[i]) && Restored(m, blocks[i], y, out)
    requires forall p :: 0 <= p < CodecBits(m) && !Protected(m, p) ==> out[p] == y[p]
    ensures Received(m, y, out)
  {
  }

  lemma BothRestored(m: FecMode, a: Block, b: Block, y: seq<Bit>, out: seq<Bit>)
    requires Blocks(m) == [a, b] && |y| == ModemBits(m) && |out| == CodecBits(m)
    requires WellPlaced(m, a) && Restored(m, a, y, out) && WellPlaced(m, b) && Restored(m, b, y, out)
    requires forall p :: 0 <= p < CodecBits(m) && !Protected(m, p) ==> out[p] == y[p]
    ensures Received(m, y, out)
  {
    AllRestored(m, [a, b], y, out);
  }

  method RemoveFec2000(g: Golay23, y: array<Bit>, out: array<Bit>)
    requires g.Valid() && g.inited && y != out && y.Length == 80 && out.Length == 56
    modifies out
    ensures Received(F2000, y[..], out[..])
  {
    OneRun(0, 12);
    OneRun(12, 12);
    var codeword1 := Correct(g, y, 0, 12, 0, 56, Block(Range(0, 12), 56));
    PutDigits(out, 0, codeword1, 11, 23);
    var codeword2 := Correct(g, y, 12, 12, 0, 67, Block(Range(12, 12), 67));
    ghost var s := out[..];
    PutDigits(out, 12, codeword2, 11, 23);
    ghost var t := out[..];
    CopyBits(y, out, 24, 56);
    assert out[..] == Digits(codeword1, 11, 23) + Digits(codeword2, 11, 23) + y[24..56];
    Received2000(y[..], out[..], codeword1, codeword2);
  }

  lemma Received2000(y: seq<Bit>, out: seq<Bit>, c1: nat, c2: nat)
    requires |y| == 80 && out == Digits(c1, 11, 23) + Digits(c2, 11, 23) + y[24..56]
    requires Codeword(c1) && Weight(Xor(c1, FromBits(Gather(y, Places(Block(Range(0, 12), 56)))))) <= 3
    requires Codeword(c2) && Weight(Xor(c2, FromBits(Gather(y, Places(Block(Range(12, 12), 67)))))) <= 3
    ensures Received(F2000, y, out)
  {
    var b1, b2 := Block(Range(0, 12), 56), Block(Range(12, 12), 67);
    assert Gather(out, b1.places) == Digits(c1, 11, 23);
    assert Gather(out, b2.places) == Digits(c2, 11, 23);
    RestoredBy(F2000, b1, y, out, c1);
    RestoredBy(F2000, b2, y, out, c2);
    forall p | 0 <= p < 56 && !Protected(F2000, p) ensures out[p] == y[p] { Unprotected2000(p); }
    BothRestored(F2000, b1, b2, y, out);
  }

  lemma Unprotected2000(p: nat)
    requires p < 56 && !Protected(F2000, p)
    ensures p >= 24
  {
    RangeHolds(0, 12);
    RangeHolds(12, 12);
    assert Block(Range(0, 12), 56) in Blocks(F2000) && Block(Range(12, 12), 67) in Blocks(F2000);
  }

  lemma RangeHolds(from: nat, n: nat)
    ensures forall p :: from <= p < from + n ==> p in Range(from, n)
  {
    forall p | from <= p < from + n ensures p in Range(from, n) { assert Range(from, n)[p - from] == p; }
  }

  /** The excitation block of the 1850 and 1600 bit/s modes. */
  method RestoreExcitation(y: array<Bit>, out: array<Bit>, c: nat)
    requires y != out && y.Length >= 52 && out.Length == 52
    modifies out
    ensures out[..] == Digits(c, 15, 23) + y[8..11] + Digits(c, 11, 15) + y[15..52]
  {
    CopyBits(y, out, 0, 52);
    ghost var s := out[..];
    assert s == y[..52];
    PutDigits(out, 0, c, 15, 23);
    ghost var t := out[..];
    PutDigits(out, 11, c, 11, 15);
    BothWrites(y[..], s, t, out[..], Digits(c, 15, 23), Digits(c, 11, 15));
  }

  lemma BothWrites(y: seq<Bit>, s: seq<Bit>, t: seq<Bit>, out: seq<Bit>, a: seq<Bit>, b: seq<Bit>)
    requires |y| >= 52 && s == y[..52] && |a| == 8 && |b| == 4 && Wrote(s, t, 0, a) && Wrote(t, out, 11, b)
    ensures out == a + y[8..11] + b + y[15..52]
  {
    assert t == a + y[8..52];
  }

  lemma ExcitationRestored(m: FecMode, y: seq<Bit>, out: seq<Bit>, c: nat)
    requires m != F2000 && |y| == ModemBits(m) && |out| == 52
    requires out[..16] == Digits(c, 15, 23) + y[8..11] + Digits(c, 11, 15) + y[15..16]
    requires Codeword(c) && Weight(Xor(c, FromBits(Gather(y, Places(Block(EXCITATION, 52)))))) <= 3
    ensures WellPlaced(m, Block(EXCITATION, 52)) && Restored(m, Block(EXCITATION, 52), y, out)
    ensures forall p :: 0 <= p < 16 && p !in EXCITATION ==> out[p] == y[p]
  {
    ExcitationPlaced(m);
    var first := out[..16];
    FirstBits(first, y, c);
    ExcitationGather(out, first, c);
    RestoredBy(m, Block(EXCITATION, 52), y, out, c);
    forall p | 0 <= p < 16 && p !in EXCITATION ensures out[p] == y[p] {
      NotExcitation(p);
      assert out[p] == first[p];
    }
  }

  lemma ExcitationPlaced(m: FecMode)
    requires m != F2000
    ensures WellPlaced(m, Block(EXCITATION, 52))
  {
    ExcitationRuns();
  }

  lemma FirstBits(first: seq<Bit>, y: seq<Bit>, c: nat)
    requires |y| >= 16 && first == Digits(c, 15, 23) + y[8..11] + Digits(c, 11, 15) + y[15..16]
    ensures first[..8] == Digits(c, 15, 23) && first[11..15] == Digits(c, 11, 15)
    ensures first[8] == y[8] && first[9] == y[9] && first[10] == y[10] && first[15] == y[15]
  {
  }

  lemma NotExcitation(p: nat)
    requires p < 16 && p !in EXCITATION
    ensures p == 8 || p == 9 || p == 10 || p == 15
  {
    assert EXCITATION == [0, 1, 2, 3, 4, 5, 6, 7, 11, 12, 13, 14];
  }

  lemma ExcitationGather(out: seq<Bit>, first: seq<Bit>, c: nat)
    requires |out| == 52 && first == out[..16] && first[..8] == Digits(c, 15, 23) && first[11..15] == Digits(c, 11, 15)
    ensures Gather(out, EXCITATION) == Digits(c, 11, 23)
  {
    ExcitationRuns();
    TwoRuns(out, 0, 8, 11, 4);
    DigitsSplit(c, 11, 15, 23);
    assert out[0..8] == first[..8] && out[11..15] == first[11..15];
  }

  method RemoveFec1600(g: Golay23, y: array<Bit>, out: array<Bit>)
    requires g.Valid() && g.inited && y != out && y.Length == 64 && out.Length == 52
    modifies out
    ensures Received(F1600, y[..], out[..])
  {
    ExcitationRuns();
    var codeword1 := Correct(g, y, 0, 8, 11, 52, Block(EXCITATION, 52));
    RestoreExcitation(y, out, codeword1);
    Received1600(y[..], out[..], codeword1);
  }

  lemma Received1600(y: seq<Bit>, out: seq<Bit>, c: nat)
    requires |y| == 64 && |out| == 52 && out == Digits(c, 15, 23) + y[8..11] + Digits(c, 11, 15) + y[15..52]
    requires Codeword(c) && Weight(Xor(c, FromBits(Gather(y, Places(Block(EXCITATION, 52)))))) <= 3
    ensures Received(F1600, y, out)
  {
    Parts1600(y, out, Digits(c, 15, 23), Digits(c, 11, 15));
    ExcitationRestored(F1600, y, out, c);
    forall p | 0 <= p < 52 && !Protected(F1600, p) ensures out[p] == y[p] { Unprotected1600(p); }
    AllRestored(F1600, [Block(EXCITATION, 52)], y, out);
  }

  lemma Unprotected1600(p: nat)
    requires p < 52 && !Protected(F1600, p)
    ensures p !in EXCITATION
  {
    assert Block(EXCITATION, 52) in Blocks(F1600);
  }

  lemma Parts1600(y: seq<Bit>, out: seq<Bit>, a: seq<Bit>, b: seq<Bit>)
    requires |y| == 64 && |a| == 8 && |b| == 4 && out == a + y[8..11] + b + y[15..52]
    ensures out[..16] == a + y[8..11] + b + y[15..16] && forall p :: 16 <= p < 52 ==> out[p] == y[p]
  {
  }

  method RemoveFec1850(g: Golay23, y: array<Bit>, out: array<Bit>)
    requires g.Valid() && g.inited && y != out && y.Length == 80 && out.Length == 52
    modifies out
    ensures Received(F1850, y[..], out[..])
  {
    ExcitationRuns();
    OneRun(16, 12);
    var codeword1 := Correct(g, y, 0, 8, 11, 52, Block(EXCITATION, 52));
    var codeword2 := Correct(g, y, 16, 12, 0, 63, Block(Range(16, 12), 63));
    RestoreExcitation(y, out, codeword1);
    ghost var s := out[..];
    PutDigits(out, 16, codeword2, 11, 23);
    Received1850(y[..], s, out[..], codeword1, codeword2);
  }

  /** The frame after both writes, part by part. */
  lemma Parts1850(y: seq<Bit>, s: seq<Bit>, out: seq<Bit>, c: nat, d: nat)
    requires |y| == 80 && |s| == 52 && s == Digits(c, 15, 23) + y[8..11] + Digits(c, 11, 15) + y[15..52]
    requires Wrote(s, out, 16, Digits(d, 11, 23))
    ensures out[..16] == Digits(c, 15, 23) + y[8..11] + Digits(c, 11, 15) + y[15..16]
    ensures Gather(out, Range(16, 12)) == Digits(d, 11, 23)
    ensures forall p :: 28 <= p < 52 ==> out[p] == y[p]
  {
  }

  lemma Received1850(y: seq<Bit>, s: seq<Bit>, out: seq<Bit>, c: nat, d: nat)
    requires |y| == 80 && |s| == 52 && s == Digits(c, 15, 23) + y[8..11] + Digits(c, 11, 15) + y[15..52]
    requires Wrote(s, out, 16, Digits(d, 11, 23))
    requires Codeword(c) && Weight(Xor(c, FromBits(Gather(y, Places(Block(EXCITATION, 52)))))) <= 3
    requires Codeword(d) && Weight(Xor(d, FromBits(Gather(y, Places(Block(Range(16, 12), 63)))))) <= 3
    ensures Received(F1850, y, out)
  {
    Parts1850(y, s, out, c, d);
    ExcitationRestored(F1850, y, out, c);
    SecondBlock(y, out, d, Block(Range(16, 12), 63));
    Joined1850(y, out, Block(EXCITATION, 52), Block(Range(16, 12), 63));
  }

  lemma SecondBlock(y: seq<Bit>, out: seq<Bit>, d: nat, b: Block)
    requires |y| == 80 && |out| == 52 && b == Block(Range(16, 12), 63) && Gather(out, b.places) == Digits(d, 11, 23)
    requires Codeword(d) && Weight(Xor(d, FromBits(Gather(y, Places(b))))) <= 3
    ensures WellPlaced(F1850, b) && Restored(F1850, b, y, out)
  {
    RestoredBy(F1850, b, y, out, d);
  }

  lemma Joined1850(y: seq<Bit>, out: seq<Bit>, a: Block, b: Block)
    requires |y| == 80 && |out| == 52 && a == Block(EXCITATION, 52) && b == Block(Range(16, 12), 63)
    requires WellPlaced(F1850, a) && Restored(F1850, a, y, out) && WellPlaced(F1850, b) && Restored(F1850, b, y, out)
    requires forall p :: 0 <= p < 16 && p !in EXCITATION ==> out[p] == y[p]
    requires forall p :: 28 <= p < 52 ==> out[p] == y[p]
    ensures Received(F1850, y, out)
  {
    Others1850(y, out);
    BothRestored(F1850, a, b, y, out);
  }

  lemma Others1850(y: seq<Bit>, out: seq<Bit>)
    requires |y| == 80 && |out| == 52 && (forall p :: 28 <= p < 52 ==> out[p] == y[p])
    requires forall p :: 0 <= p < 16 && p !in EXCITATION ==> out[p] == y[p]
    ensures forall p :: 0 <= p < CodecBits(F1850) && !Protected(F1850, p) ==> out[p] == y[p]
  {
    forall p | 0 <= p < 52 && !Protected(F1850, p) ensures out[p] == y[p] { Unprotected1850(p); }
  }

  lemma Unprotected1850(p: nat)
    requires p < 52 && !Protected(F1850, p)
    ensures p !in EXCITATION && !(16 <= p < 28)
  {
    RangeHolds(16, 12);
    assert Block(EXCITATION, 52) in Blocks(F1850) && Block(Range(16, 12), 63) in Blocks(F1850);
  }
}
