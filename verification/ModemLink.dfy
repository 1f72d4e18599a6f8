/**
 The modem from byte file to byte file: transmitter, carriers, pilot tracking and frame
 pairing put together.
 */
module ModemLink {
  import opened Bits
  import FramePairing
  import FreqSync
  import opened Complex
  import opened Dqpsk

  /** The reliable sync bits the tracker raises for a run of pilot decisions. */
  ghost function ReliableBits(pilots: seq<Bit>): (r: seq<bool>)
    ensures |r| == |pilots|
  {
    seq(|pilots|, i requires 0 <= i < |pilots| => FreqSync.Reliable(FreqSync.INITIAL, pilots, i))
  }

  lemma RaisedOnSecondHalves(pilots: seq<Bit>)
    requires FreqSync.SometimesRight(pilots)
    ensures FramePairing.OnSecondHalves(ReliableBits(pilots))
  {
    forall i | 0 <= i < |pilots| && ReliableBits(pilots)[i] ensures i % 2 == 1 {
      FreqSync.ReliableOnSecondHalf(pilots, i);
    }
  }

  /**
   For any file, any initial receiver state and any reliable bits that are raised on second halves
   only: once the bit has been raised on modem frame i, and as long as the data bits arrive intact,
   the bytes written are the codec frames that were sent from frame (i + 1) / 2 on, in order.
   */
  lemma FileDelivered(input: seq<Byte>, n: nat, p: FramePairing.Pairing, got: seq<seq<Bit>>, reliable: seq<bool>, i: nat)
    requires n > 0 && FramePairing.Valid(p, n)
    requires |got| == |reliable| == |FramePairing.Halves(input, n)| && forall j :: 0 <= j < |got| ==> |got[j]| == n
    requires FramePairing.OnSecondHalves(reliable) && i < |got| && reliable[i]
    requires forall j :: i < j < |got| ==> got[j] == FramePairing.Halves(input, n)[j]
    ensures i % 2 == 1 && (i + 1) / 2 <= |FramePairing.Frames(input, 2 * n / 8)|
    ensures FramePairing.Outputs(p, n, got, reliable) ==
            FramePairing.Outputs(p, n, got[..i + 1], reliable[..i + 1]) + FramePairing.Frames(input, 2 * n / 8)[(i + 1) / 2..]
  {
    var halves, k := FramePairing.Halves(input, n), (i + 1) / 2;
    FramePairing.AfterOdd(reliable, i);
    assert 2 * k == i + 1;
    FramePairing.LockedOutput(p, n, got, reliable, i);
    SameTail(got, halves, i + 1);
    FramePairing.PairsOfHalves(input, n, k);
  }

  lemma SameTail<T>(a: seq<T>, b: seq<T>, k: nat)
    requires |a| == |b| && k <= |a| && forall j :: k <= j < |a| ==> a[j] == b[j]
    ensures a[k..] == b[k..]
  {
  }

  /** The tracker's own bits are such flags, when no six pilot decisions in a row are all wrong. */
  lemma TrackedFileDelivered(input: seq<Byte>, n: nat, p: FramePairing.Pairing, got: seq<seq<Bit>>, pilots: seq<Bit>, i: nat)
    requires n > 0 && FramePairing.Valid(p, n)
    requires |got| == |pilots| == |FramePairing.Halves(input, n)| && forall j :: 0 <= j < |got| ==> |got[j]| == n
    requires FreqSync.SometimesRight(pilots) && i < |got| && ReliableBits(pilots)[i]
    requires forall j :: i < j < |got| ==> got[j] == FramePairing.Halves(input, n)[j]
    ensures i % 2 == 1 && (i + 1) / 2 <= |FramePairing.Frames(input, 2 * n / 8)|
    ensures FramePairing.Outputs(p, n, got, ReliableBits(pilots)) ==
            FramePairing.Outputs(p, n, got[..i + 1], ReliableBits(pilots)[..i + 1])
            + FramePairing.Frames(input, 2 * n / 8)[(i + 1) / 2..]
  {
    RaisedOnSecondHalves(pilots);
    FileDelivered(input, n, p, got, ReliableBits(pilots), i);
  }

  // ---- over a channel that scales and turns every carrier

  /** The carriers after i modem frames, starting from 1 + 0j; the pilot bit alternates from 0. */
  function Carriers(halves: seq<seq<Bit>>, nc: nat, i: nat, legacy: bool): (r: seq<Comp>)
    requires i <= |halves| && forall j :: 0 <= j < |halves| ==> |halves[j]| == 2 * nc
    ensures |r| == nc + 1
  {
    if i == 0 then seq(nc + 1, c => Comp(1.0, 0.0))
    else Symbols(halves[i - 1], (i - 1) % 2, Carriers(halves, nc, i - 1, legacy), legacy)
  }

  /** A complex gain for every carrier in every modem frame. */
  ghost predicate Channel(channel: seq<seq<Comp>>, nc: nat, n: nat) {
    |channel| == n && forall i :: 0 <= i < n ==> |channel[i]| == nc + 1
  }

  /** From each modem frame to the next the channel drifts by less than the decisions tolerate. */
  ghost predicate Tracking(channel: seq<seq<Comp>>, nc: nat, n: nat, piOn4: Comp)
    requires Channel(channel, nc, n)
  {
    forall i {:trigger channel[i]} :: 1 <= i < n ==> Tracks(channel[i - 1], channel[i], piOn4)
  }

  /** What a receiver at the far end of the channel decides, from the second modem frame on. */
  ghost predicate Decided(halves: seq<seq<Bit>>, got: seq<seq<Bit>>, pilots: seq<Bit>, nc: nat, channel: seq<seq<Comp>>,
                          piOn4: Comp, gain: Comp -> real, legacy: bool)
    requires |got| == |pilots| == |halves| && Channel(channel, nc, |halves|)
    requires forall j :: 0 <= j < |halves| ==> |halves[j]| == |got[j]| == 2 * nc
  {
    forall i {:trigger got[i]} :: 1 <= i < |got| ==>
      var was, now := Through(channel[i - 1], Carriers(halves, nc, i, legacy)), Through(channel[i], Carriers(halves, nc, i + 1, legacy));
      Received(got[i], now, was, piOn4, gain, legacy) &&
      (pilots[i] == 1 <==> PhaseDifference(now[nc], was[nc], gain(was[nc])).re < 0.0)
  }

  ghost predicate AllUnit(s: seq<Comp>) {
    forall c :: 0 <= c < |s| ==> Power(s[c]) == 1.0
  }

  /** Every carrier keeps unit power for ever. */
  lemma {:induction false} CarriersUnit(halves: seq<seq<Bit>>, nc: nat, i: nat, legacy: bool)
    requires i <= |halves| && forall j :: 0 <= j < |halves| ==> |halves[j]| == 2 * nc
    ensures AllUnit(Carriers(halves, nc, i, legacy)) && AllLive(Carriers(halves, nc, i, legacy))
  {
    if i > 0 {
      CarriersUnit(halves, nc, i - 1, legacy);
      SymbolsUnit(halves[i - 1], (i - 1) % 2, Carriers(halves, nc, i - 1, legacy), legacy);
    }
  }

  lemma SymbolsUnit(bits: seq<Bit>, pilot: Bit, prev: seq<Comp>, legacy: bool)
    requires |prev| > 0 && |bits| == 2 * (|prev| - 1) && AllUnit(prev)
    ensures AllUnit(Symbols(bits, pilot, prev, legacy))
  {
    var s := Symbols(bits, pilot, prev, legacy);
    forall c | 0 <= c < |s| ensures Power(s[c]) == 1.0 {
      assert Power(prev[c]) == 1.0;
      if c < |prev| - 1 {
        SymbolPower(bits[2 * c], bits[2 * c + 1], prev[c], legacy);
      } else {
        assert Power(CNeg(prev[c])) == Power(prev[c]);
      }
    }
  }

  /** Every modem frame but the first is received with its bits and its pilot. */
  lemma FramesRecovered(halves: seq<seq<Bit>>, got: seq<seq<Bit>>, pilots: seq<Bit>, nc: nat, channel: seq<seq<Comp>>,
                        piOn4: Comp, gain: Comp -> real, legacy: bool, i: nat)
    requires |got| == |pilots| == |halves| && Channel(channel, nc, |halves|)
    requires forall j :: 0 <= j < |halves| ==> |halves[j]| == |got[j]| == 2 * nc
    requires Tracking(channel, nc, |halves|, piOn4) && Positive(gain)
    requires Decided(halves, got, pilots, nc, channel, piOn4, gain, legacy)
    requires 1 <= i < |got|
    ensures got[i] == halves[i] && FreqSync.RightPilot(pilots, i)
  {
    CarriersUnit(halves, nc, i, legacy);
    assert Tracks(channel[i - 1], channel[i], piOn4);
    FrameRecovered(halves[i], got[i], i % 2, Carriers(halves, nc, i, legacy), channel[i - 1], channel[i], piOn4, gain, legacy);
  }

  lemma AllRecovered(halves: seq<seq<Bit>>, got: seq<seq<Bit>>, pilots: seq<Bit>, nc: nat, channel: seq<seq<Comp>>,
                     piOn4: Comp, gain: Comp -> real, legacy: bool)
    requires |got| == |pilots| == |halves| && Channel(channel, nc, |halves|)
    requires forall j :: 0 <= j < |halves| ==> |halves[j]| == |got[j]| == 2 * nc
    requires Tracking(channel, nc, |halves|, piOn4) && Positive(gain)
    requires Decided(halves, got, pilots, nc, channel, piOn4, gain, legacy)
    ensures forall i :: 1 <= i < |got| ==> got[i] == halves[i] && FreqSync.RightPilot(pilots, i)
    ensures FreqSync.SometimesRight(pilots)
  {
    forall i | 1 <= i < |got| ensures got[i] == halves[i] && FreqSync.RightPilot(pilots, i) {
      FramesRecovered(halves, got, pilots, nc, channel, piOn4, gain, legacy, i);
    }
    RightAfterFirst(pilots);
  }

  lemma RightAfterFirst(pilots: seq<Bit>)
    requires forall i :: 1 <= i < |pilots| ==> FreqSync.RightPilot(pilots, i)
    ensures FreqSync.SometimesRight(pilots)
  {
    forall i | 0 <= i <= |pilots| - FreqSync.NSYNC_MEM ensures FreqSync.RightWithin(pilots, i) {
      assert FreqSync.RightPilot(pilots, i + 1);
    }
  }

  /** Right decisions from the second modem frame on lock the receiver by the eighth. */
  lemma LockedBySeven(input: seq<Byte>, n: nat, p: FramePairing.Pairing, got: seq<seq<Bit>>, pilots: seq<Bit>)
    requires n > 0 && FramePairing.Valid(p, n)
    requires |got| == |pilots| == |FramePairing.Halves(input, n)| >= 8 && forall j :: 0 <= j < |got| ==> |got[j]| == n
    requires FreqSync.SometimesRight(pilots)
    requires forall i :: 1 <= i < |got| ==> got[i] == FramePairing.Halves(input, n)[i] && FreqSync.RightPilot(pilots, i)
    ensures |FramePairing.Frames(input, 2 * n / 8)| >= 4
    ensures FramePairing.Outputs(p, n, got, ReliableBits(pilots)) ==
            FramePairing.Outputs(p, n, got[..8], ReliableBits(pilots)[..8])
            + FramePairing.Frames(input, 2 * n / 8)[4..]
  {
    FreqSync.ReliableWhenRight(FreqSync.INITIAL, pilots, 7);
    TrackedFileDelivered(input, n, p, got, pilots, 7);
  }

  /**
   Over a channel that gives every carrier an unknown gain and phase, and lets them drift from frame
   to frame by less than the decisions tolerate, the receiver delivers every codec frame from the
   fifth on, whatever its initial state and first decisions.
   */
  lemma CleanLink(input: seq<Byte>, nc: nat, p: FramePairing.Pairing, got: seq<seq<Bit>>, pilots: seq<Bit>,
                  channel: seq<seq<Comp>>, piOn4: Comp, gain: Comp -> real, legacy: bool)
    requires nc > 0 && FramePairing.Valid(p, 2 * nc)
    requires |got| == |pilots| == |FramePairing.Halves(input, 2 * nc)| >= 8 && Channel(channel, nc, |got|)
    requires forall j :: 0 <= j < |got| ==> |got[j]| == 2 * nc
    requires Tracking(channel, nc, |got|, piOn4) && Positive(gain)
    requires Decided(FramePairing.Halves(input, 2 * nc), got, pilots, nc, channel, piOn4, gain, legacy)
    ensures |FramePairing.Frames(input, 2 * (2 * nc) / 8)| >= 4
    ensures FramePairing.Outputs(p, 2 * nc, got, ReliableBits(pilots)) ==
            FramePairing.Outputs(p, 2 * nc, got[..8], ReliableBits(pilots)[..8])
            + FramePairing.Frames(input, 2 * (2 * nc) / 8)[4..]
  {
    AllRecovered(FramePairing.Halves(input, 2 * nc), got, pilots, nc, channel, piOn4, gain, legacy);
    LockedBySeven(input, 2 * nc, p, got, pilots);
  }

  /** A channel that does not drift at all is one of these, whatever its gains. */
  lemma SteadyChannel(gains: seq<Comp>, nc: nat, n: nat, piOn4: Comp)
    requires |gains| == nc + 1 && AllLive(gains) && Inside(piOn4)
    ensures Channel(seq(n, i => gains), nc, n) && Tracking(seq(n, i => gains), nc, n, piOn4)
  {
    SteadyTracks(gains, piOn4);
  }
}
