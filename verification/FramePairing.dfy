/**
 The modem programs above the sample level: the transmitter cuts each codec frame into two
 modem frames, the receiver pairs modem frames back into codec frames, guided by a sync flag
 that starts uninitialised.
 */
module FramePairing {
  import opened Bits
  import opened BytePacking

  /** The receiver's `sync` and `codec_bits`, which live across iterations. */
  datatype Pairing = Pairing(sync: int, bits: seq<Bit>)

  ghost predicate Valid(p: Pairing, n: nat) {
    |p.bits| == 2 * n && (2 * n) % 8 == 0
  }

  /** One received modem frame; returns the codec frame written out, if any. */
  function Step(p: Pairing, n: nat, rx: seq<Bit>, reliable: bool): (r: (Pairing, seq<seq<Byte>>))
    requires Valid(p, n) && |rx| == n
    ensures Valid(r.0, n)
  {
    var sync := if reliable then 1 else p.sync;
    if sync == 0 then
      (Pairing(1, rx + p.bits[n..]), [])
    else
      var all := p.bits[..n] + rx;
      (Pairing(0, all), [BytesOf(all)])
  }

  class Deframer {
    var sync: int
    const codecBits: array<Bit>
    const packedBits: array<Byte>

    ghost function Value(): Pairing
      reads this, codecBits
    {
      Pairing(sync, codecBits[..])
    }

    /** sync and the buffers hold whatever was in memory. */
    constructor (n: nat, garbage: int)
      requires (2 * n) % 8 == 0
      ensures Valid(Value(), n) && packedBits.Length == 2 * n / 8 && fresh(codecBits) && fresh(packedBits)
    {
      sync := garbage;
      codecBits := new Bit[2 * n];
      packedBits := new Byte[2 * n / 8];
    }

    method Receive(n: nat, rxBits: array<Bit>, reliable: bool) returns (out: seq<seq<Byte>>)
      requires Valid(Value(), n) && packedBits.Length == 2 * n / 8
      requires rxBits.Length == 2 * n && rxBits != codecBits
      modifies this`sync, codecBits, packedBits
      ensures Value() == Step(old(Value()), n, rxBits[..n], reliable).0
      ensures out == Step(old(Value()), n, rxBits[..n], reliable).1
    {
      ghost var before := codecBits[..];
      if reliable { sync := 1; }
      if sync == 0 {
        forall i | 0 <= i < n { codecBits[i] := rxBits[i]; }
        sync := 1;
        out := [];
        assert codecBits[..] == rxBits[..n] + before[n..];
      } else {
        forall i | 0 <= i < n { codecBits[n + i] := rxBits[i]; }
        assert codecBits[..] == before[..n] + rxBits[..n];
        Pack(codecBits, packedBits);
        BitsOfBytes(codecBits[..]);
        SameBytes(packedBits[..], BytesOf(codecBits[..]));
        out := [packedBits[..]];
        sync := 0;
      }
    }
  }

  // ---- the transmitter

  /** The modem frames sent for a file of codec frames, two per codec frame. */
  function Halves(input: seq<Byte>, n: nat): (r: seq<seq<Bit>>)
    requires n > 0 && (2 * n) % 8 == 0
    ensures forall i :: 0 <= i < |r| ==> |r[i]| == n
  {
    var b := 2 * n / 8;
    if |input| < b then []
    else
      var bits := BitsOf(input[..b]);
      [bits[..n], bits[n..]] + Halves(input[b..], n)
  }

  /** The whole codec frames of a file. */
  function Frames(input: seq<Byte>, b: nat): (r: seq<seq<Byte>>)
    requires b > 0
  {
    if |input| < b then [] else [input[..b]] + Frames(input[b..], b)
  }

  method Transmit(input: seq<Byte>, n: nat) returns (sent: seq<seq<Bit>>)
    requires n > 0 && (2 * n) % 8 == 0
    ensures sent == Halves(input, n)
  {
    var b := 2 * n / 8;
    var packed, txBits := new Byte[b], new Bit[2 * n];
    var pos := 0;
    sent := [];
    while pos + b <= |input|
      invariant 0 <= pos <= |input|
      invariant sent + Halves(input[pos..], n) == Halves(input, n)
      decreases |input| - pos
    {
      forall j | 0 <= j < b { packed[j] := input[pos + j]; }
      assert packed[..] == input[pos..][..b] && input[pos..][b..] == input[pos + b..];
      Unpack(packed, txBits);
      sent := sent + [txBits[..n], txBits[n..]];
      pos := pos + b;
    }
    assert Halves(input[pos..], n) == [];
  }

  // ---- whole runs of the receiver

  /** Everything written by a run of the receiver loop. */
  function Outputs(p: Pairing, n: nat, rx: seq<seq<Bit>>, reliable: seq<bool>): seq<seq<Byte>>
    requires Valid(p, n) && |rx| == |reliable| && forall i :: 0 <= i < |rx| ==> |rx[i]| == n
    decreases |rx|
  {
    if rx == [] then []
    else
      var r := Step(p, n, rx[0], reliable[0]);
      r.1 + Outputs(r.0, n, rx[1..], reliable[1..])
  }

  function After(p: Pairing, n: nat, rx: seq<seq<Bit>>, reliable: seq<bool>): (r: Pairing)
    requires Valid(p, n) && |rx| == |reliable| && forall i :: 0 <= i < |rx| ==> |rx[i]| == n
    ensures Valid(r, n)
    decreases |rx|
  {
    if rx == [] then p else After(Step(p, n, rx[0], reliable[0]).0, n, rx[1..], reliable[1..])
  }

  lemma {:induction false} OutputsSplit(p: Pairing, n: nat, rx: seq<seq<Bit>>, reliable: seq<bool>, k: nat)
    requires Valid(p, n) && |rx| == |reliable| && forall i :: 0 <= i < |rx| ==> |rx[i]| == n
    requires k <= |rx|
    ensures Outputs(p, n, rx, reliable) ==
      Outputs(p, n, rx[..k], reliable[..k]) + Outputs(After(p, n, rx[..k], reliable[..k]), n, rx[k..], reliable[k..])
    decreases k
  {
    if k == 0 {
      assert rx[0..] == rx && reliable[0..] == reliable;
    } else {
      var q := Step(p, n, rx[0], reliable[0]).0;
      OutputsSplit(q, n, rx[1..], reliable[1..], k - 1);
      assert rx[1..][..k - 1] == rx[..k][1..] && reliable[1..][..k - 1] == reliable[..k][1..];
      assert rx[1..][k - 1..] == rx[k..] && reliable[1..][k - 1..] == reliable[k..];
    }
  }

  /** Consecutive modem frames put together two by two. */
  function Pairs(rx: seq<seq<Bit>>, n: nat): seq<seq<Byte>>
    requires (2 * n) % 8 == 0 && forall i :: 0 <= i < |rx| ==> |rx[i]| == n
  {
    if |rx| < 2 then [] else [BytesOf(rx[0] + rx[1])] + Pairs(rx[2..], n)
  }

  /** The reliable bit is raised on second halves only. */
  ghost predicate OnSecondHalves(reliable: seq<bool>) {
    forall i :: 0 <= i < |reliable| && reliable[i] ==> i % 2 == 1
  }

  lemma SecondHalvesLater(reliable: seq<bool>, k: nat)
    requires OnSecondHalves(reliable) && k % 2 == 0 && k <= |reliable|
    ensures OnSecondHalves(reliable[k..])
  {
    forall i | 0 <= i < |reliable[k..]| && reliable[k..][i] ensures i % 2 == 1 {
      assert reliable[k + i];
    }
  }

  lemma AfterOdd(reliable: seq<bool>, i: nat)
    requires OnSecondHalves(reliable) && i < |reliable| && reliable[i]
    ensures i % 2 == 1 && OnSecondHalves(reliable[i + 1..])
  {
    SecondHalvesLater(reliable, i + 1);
  }

  /** In step, the receiver writes exactly the pairs, whenever the reliable bit is raised. */
  lemma {:induction false} InStep(p: Pairing, n: nat, rx: seq<seq<Bit>>, reliable: seq<bool>)
    requires Valid(p, n) && |rx| == |reliable| && forall i :: 0 <= i < |rx| ==> |rx[i]| == n
    requires p.sync == 0 && OnSecondHalves(reliable)
    ensures Outputs(p, n, rx, reliable) == Pairs(rx, n)
    decreases |rx|
  {
    if |rx| == 1 {
      assert !reliable[0];
    } else if |rx| >= 2 {
      assert !reliable[0];
      var p1 := Step(p, n, rx[0], reliable[0]).0;
      var s2 := Step(p1, n, rx[1], reliable[1]);
      assert p1.bits[..n] + rx[1] == rx[0] + rx[1];
      assert rx[1..][1..] == rx[2..] && reliable[1..][1..] == reliable[2..];
      assert Outputs(p1, n, rx[1..], reliable[1..]) == s2.1 + Outputs(s2.0, n, rx[2..], reliable[2..]);
      SecondHalvesLater(reliable, 2);
      InStep(s2.0, n, rx[2..], reliable[2..]);
    }
  }

  /** Raising the reliable bit on frame i leaves the receiver waiting for a first half. */
  lemma ReliableResets(p: Pairing, n: nat, rx: seq<seq<Bit>>, reliable: seq<bool>)
    requires Valid(p, n) && |rx| == |reliable| > 0 && forall i :: 0 <= i < |rx| ==> |rx[i]| == n
    requires reliable[|rx| - 1]
    ensures After(p, n, rx, reliable).sync == 0
    decreases |rx|
  {
    if |rx| > 1 { ReliableResets(Step(p, n, rx[0], reliable[0]).0, n, rx[1..], reliable[1..]); }
  }

  /**
   Whatever the receiver holds at the start, from the first reliable sync on it writes the
   received modem frames paired as they were sent: none lost, repeated or mis-paired.
   */
  lemma LockedOutput(p: Pairing, n: nat, rx: seq<seq<Bit>>, reliable: seq<bool>, i: nat)
    requires Valid(p, n) && |rx| == |reliable| && forall j :: 0 <= j < |rx| ==> |rx[j]| == n
    requires OnSecondHalves(reliable) && i < |rx| && reliable[i]
    ensures Outputs(p, n, rx, reliable) ==
      Outputs(p, n, rx[..i + 1], reliable[..i + 1]) + Pairs(rx[i + 1..], n)
  {
    var k := i + 1;
    AfterOdd(reliable, i);
    OutputsSplit(p, n, rx, reliable, k);
    ReliableResets(p, n, rx[..k], reliable[..k]);
    InStep(After(p, n, rx[..k], reliable[..k]), n, rx[k..], reliable[k..]);
  }

  /** Without the reliable bit a receiver that starts out of step never recovers. */
  lemma {:induction false} OutOfStep(p: Pairing, n: nat, rx: seq<seq<Bit>>, reliable: seq<bool>)
    requires Valid(p, n) && |rx| == |reliable| > 0 && forall i :: 0 <= i < |rx| ==> |rx[i]| == n
    requires p.sync != 0 && forall i :: 0 <= i < |reliable| ==> !reliable[i]
    ensures Outputs(p, n, rx, reliable) == [BytesOf(p.bits[..n] + rx[0])] + Pairs(rx[1..], n)
  {
    InStep(Step(p, n, rx[0], reliable[0]).0, n, rx[1..], reliable[1..]);
  }

  /** The pairs of the transmitted modem frames are the codec frames, from any frame on. */
  lemma {:induction false} PairsOfHalves(input: seq<Byte>, n: nat, k: nat)
    requires n > 0 && (2 * n) % 8 == 0
    requires 2 * k <= |Halves(input, n)|
    ensures |Halves(input, n)| == 2 * |Frames(input, 2 * n / 8)|
    ensures Pairs(Halves(input, n)[2 * k..], n) == Frames(input, 2 * n / 8)[k..]
    decreases |input|
  {
    var b := 2 * n / 8;
    if |input| >= b {
      FirstFrame(input, n, b);
      PairsOfHalves(input[b..], n, if k == 0 then 0 else k - 1);
      OneFrameMore(Halves(input, n), Halves(input[b..], n), Frames(input, b), Frames(input[b..], b), n, k);
    }
  }

  lemma OneFrameMore(all: seq<seq<Bit>>, rest: seq<seq<Bit>>, frames: seq<seq<Byte>>, later: seq<seq<Byte>>, n: nat, k: nat)
    requires (2 * n) % 8 == 0 && (forall i :: 0 <= i < |all| ==> |all[i]| == n) && (forall i :: 0 <= i < |rest| ==> |rest[i]| == n)
    requires |all| >= 2 && |frames| >= 1 && all[2..] == rest && frames[1..] == later && |rest| == 2 * |later| && 2 * k <= |all|
    requires Pairs(all, n) == [frames[0]] + Pairs(rest, n)
    requires var j := if k == 0 then 0 else k - 1; Pairs(rest[2 * j..], n) == later[j..]
    ensures |all| == 2 * |frames| && Pairs(all[2 * k..], n) == frames[k..]
  {
    if k == 0 {
      assert all[0..] == all && rest[0..] == rest && frames[0..] == frames && later[0..] == later;
    } else {
      Dropped(all, rest, 2, 2 * k);
      Dropped(frames, later, 1, k);
    }
  }

  /** The first two modem frames of a file are the halves of its first codec frame. */
  lemma FirstFrame(input: seq<Byte>, n: nat, b: nat)
    requires n > 0 && (2 * n) % 8 == 0 && b == 2 * n / 8 <= |input|
    ensures |Halves(input, n)| >= 2 && Halves(input, n)[2..] == Halves(input[b..], n)
    ensures |Frames(input, b)| >= 1 && Frames(input, b)[1..] == Frames(input[b..], b)
    ensures Pairs(Halves(input, n), n) == [Frames(input, b)[0]] + Pairs(Halves(input[b..], n), n)
  {
    var bits := BitsOf(input[..b]);
    assert bits[..n] + bits[n..] == bits;
    BytesOfBits(input[..b]);
  }

  lemma Dropped<T>(all: seq<T>, rest: seq<T>, n: nat, k: nat)
    requires n <= k <= |all| && rest == all[n..]
    ensures all[k..] == rest[k - n..]
  {
  }
}
