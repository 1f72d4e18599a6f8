/**
 Differential QPSK: the mapping of bit pairs to phase rotations at the transmitter and the
 quadrant decisions at the receiver, over a channel that scales and turns each carrier.
 */
module Dqpsk {
  import opened Bits
  import opened Complex

  /** The symbol sent for one bit pair, given the previous symbol on that carrier. */
  function Symbol(msb: Bit, lsb: Bit, prev: Comp, legacy: bool): Comp {
    if msb == 0 && lsb == 0 then prev
    else if msb == 0 then CMult(J, prev)
    else if lsb == 0 then if legacy then CNeg(prev) else CMult(CNeg(J), prev)
    else if legacy then CMult(CNeg(J), prev) else CNeg(prev)
  }

  /** The pilot carrier turns by half a circle when the pilot bit is set. */
  function PilotSymbol(pilot: Bit, prev: Comp): Comp {
    if pilot == 1 then CNeg(prev) else prev
  }

  /** The two bits decided from a phase difference that was turned by 45 degrees. */
  function Decide(d: Comp, legacy: bool): (Bit, Bit) {
    if d.re >= 0.0 && d.im >= 0.0 then (0, 0)
    else if d.re < 0.0 && d.im >= 0.0 then (0, 1)
    else if d.re < 0.0 then if legacy then (1, 0) else (1, 1)
    else if legacy then (1, 1) else (1, 0)
  }

  /** rx * (norm * conj(prev)) */
  function PhaseDifference(rx: Comp, prev: Comp, norm: real): Comp {
    CMult(rx, FCMult(norm, CConj(prev)))
  }

  // ---- the loops over the carriers

  /** The symbols of one frame: Nc data carriers, then the pilot. */
  function Symbols(bits: seq<Bit>, pilot: Bit, prev: seq<Comp>, legacy: bool): (r: seq<Comp>)
    requires |prev| > 0 && |bits| == 2 * (|prev| - 1)
    ensures |r| == |prev|
  {
    var nc := |prev| - 1;
    seq(nc, c requires 0 <= c < nc => Symbol(bits[2 * c], bits[2 * c + 1], prev[c], legacy)) +
    [PilotSymbol(pilot, prev[nc])]
  }

  method BitsToDqpskSymbols(tx: array<Comp>, prev: array<Comp>, bits: array<Bit>, pilot: Bit, legacy: bool)
    returns (nextPilot: Bit)
    requires prev.Length > 0 && tx.Length == prev.Length && bits.Length == 2 * (prev.Length - 1) && tx != prev
    modifies tx
    ensures tx[..] == Symbols(bits[..], pilot, prev[..], legacy)
    ensures nextPilot == 1 - pilot
  {
    var nc := prev.Length - 1;
    for c := 0 to nc
      invariant forall i :: 0 <= i < c ==> tx[i] == Symbol(bits[2 * i], bits[2 * i + 1], prev[i], legacy)
    {
      var msb, lsb := bits[2 * c], bits[2 * c + 1];
      if msb == 0 && lsb == 0 { tx[c] := prev[c]; }
      if msb == 0 && lsb == 1 { tx[c] := CMult(J, prev[c]); }
      if msb == 1 && lsb == 0 {
        if legacy { tx[c] := CNeg(prev[c]); } else { tx[c] := CMult(CNeg(J), prev[c]); }
      }
      if msb == 1 && lsb == 1 {
        if legacy { tx[c] := CMult(CNeg(J), prev[c]); } else { tx[c] := CNeg(prev[c]); }
      }
    }
    if pilot != 0 { tx[nc] := CNeg(prev[nc]); } else { tx[nc] := prev[nc]; }
    nextPilot := if pilot != 0 then 0 else 1;
  }

  /** The receiver's bits for one frame; `piOn4` is the 45 degree rotation, `gain` one over the magnitude. */
  ghost predicate Received(bits: seq<Bit>, rx: seq<Comp>, prev: seq<Comp>, piOn4: Comp, gain: Comp -> real, legacy: bool)
    requires |rx| == |prev| > 0 && |bits| == 2 * (|prev| - 1)
  {
    forall c :: 0 <= c < |prev| - 1 ==>
      (bits[2 * c], bits[2 * c + 1]) ==
      Decide(CMult(PhaseDifference(rx[c], prev[c], gain(prev[c])), piOn4), legacy)
  }

  method QpskToBits(bits: array<Bit>, diff: array<Comp>, prev: array<Comp>, rx: array<Comp>,
                    piOn4: Comp, gain: Comp -> real, legacy: bool) returns (syncBit: Bit, ferr: real)
    requires prev.Length > 0 && rx.Length == diff.Length == prev.Length && bits.Length == 2 * (prev.Length - 1)
    requires diff != prev && diff != rx
    modifies bits, diff
    ensures Received(bits[..], rx[..], prev[..], piOn4, gain, legacy)
    ensures forall c :: 0 <= c < prev.Length ==> diff[c] == CMult(PhaseDifference(rx[c], prev[c], gain(prev[c])), piOn4)
    ensures var nc := prev.Length - 1;
            var d := PhaseDifference(rx[nc], prev[nc], gain(prev[nc]));
            syncBit == (if d.re < 0.0 then 1 else 0) && ferr == (if d.re < 0.0 then d.im else -d.im)
  {
    var nc := prev.Length - 1;
    for c := 0 to nc
      invariant forall i :: 0 <= i < c ==>
        diff[i] == CMult(PhaseDifference(rx[i], prev[i], gain(prev[i])), piOn4)
    {
      diff[c] := CMult(PhaseDifference(rx[c], prev[c], gain(prev[c])), piOn4);
    }
    var msb: Bit, lsb: Bit := 0, 0;
    for c := 0 to nc
      invariant forall i :: 0 <= i < c ==> (bits[2 * i], bits[2 * i + 1]) == Decide(diff[i], legacy)
      invariant forall i :: 0 <= i < nc ==>
        diff[i] == CMult(PhaseDifference(rx[i], prev[i], gain(prev[i])), piOn4)
    {
      var d := diff[c];
      if d.re >= 0.0 && d.im >= 0.0 { msb := 0; lsb := 0; }
      if d.re < 0.0 && d.im >= 0.0 { msb := 0; lsb := 1; }
      if d.re < 0.0 && d.im < 0.0 {
        if legacy { msb := 1; lsb := 0; } else { msb := 1; lsb := 1; }
      }
      if d.re >= 0.0 && d.im < 0.0 {
        if legacy { msb := 1; lsb := 1; } else { msb := 1; lsb := 0; }
      }
      bits[2 * c] := msb;
      bits[2 * c + 1] := lsb;
    }
    diff[nc] := PhaseDifference(rx[nc], prev[nc], gain(prev[nc]));
    if diff[nc].re < 0.0 {
      syncBit, ferr := 1, diff[nc].im;
    } else {
      syncBit, ferr := 0, -diff[nc].im;
    }
    diff[nc] := CMult(diff[nc], piOn4);
  }

  // ---- the receiver undoes the transmitter whatever the channel's gain and phase

  /** A transmitted symbol keeps the power of the one before it. */
  lemma SymbolPower(msb: Bit, lsb: Bit, prev: Comp, legacy: bool)
    ensures Power(Symbol(msb, lsb, prev, legacy)) == Power(prev)
  {
    var q := Comp(-prev.im, prev.re);
    assert CMult(J, prev) == q && CMult(CNeg(J), prev) == CNeg(q);
  }

  /** The rotation a bit pair stands for. */
  function Turn(msb: Bit, lsb: Bit, legacy: bool): Comp {
    Symbol(msb, lsb, Comp(1.0, 0.0), legacy)
  }

  lemma SymbolIsTurn(msb: Bit, lsb: Bit, prev: Comp, legacy: bool)
    ensures Symbol(msb, lsb, prev, legacy) == CMult(Turn(msb, lsb, legacy), prev)
  {
  }

  /** How the channel turned and scaled a carrier from one modem frame to the next. */
  function Drift(was: Comp, now: Comp): Comp { CMult(now, CConj(was)) }

  /** The phase difference is the turn that was sent times the drift, scaled by a power. */
  lemma TurnAndDrift(t: Comp, prev: Comp, was: Comp, now: Comp, norm: real)
    ensures PhaseDifference(CMult(now, CMult(t, prev)), CMult(was, prev), norm)
         == FCMult(norm * Power(prev), CMult(t, Drift(was, now)))
  {
    ConjMult(was, prev);
    var nt, w, p := CMult(now, t), CConj(was), CConj(prev);
    MultAssociates(now, t, prev);
    MultExchange(nt, prev, w, p);
    TimesConjugate(prev);
    MultCommutes(now, t);
    MultAssociates(t, now, w);
    Factored(norm, CMult(nt, prev), CMult(w, p), CMult(nt, w), Power(prev));
  }

  lemma Factored(n: real, x: Comp, y: Comp, z: Comp, power: real)
    requires CMult(x, y) == CMult(z, Comp(power, 0.0))
    ensures CMult(x, FCMult(n, y)) == FCMult(n * power, z)
  {
    FactorOut(n, x, y);
    assert CMult(z, Comp(power, 0.0)) == FCMult(power, z);
    assert FCMult(n, FCMult(power, z)) == FCMult(n * power, z);
  }

  lemma FactorOut(n: real, x: Comp, y: Comp)
    ensures CMult(x, FCMult(n, y)) == FCMult(n, CMult(x, y))
  {
    Shift(n, x.re, y.re);
    Shift(n, x.im, y.im);
    Shift(n, x.re, y.im);
    Shift(n, x.im, y.re);
  }

  lemma Shift(n: real, a: real, b: real)
    ensures a * (n * b) == n * (a * b)
  {
  }

  /**
   Where the drift, turned by 45 degrees, may lie for a turn t to be decided right: the first quadrant,
   with those of its edges that the comparisons give to t.
   */
  predicate Kept(t: Comp, q: Comp) {
    (q.re > 0.0 || (q.re == 0.0 && t.re + t.im > 0.0)) && (q.im > 0.0 || (q.im == 0.0 && t.re - t.im > 0.0))
  }

  /** One carrier, whatever the channel does between two modem frames: when the decision is the bit pair sent. */
  lemma PairRecoveredIff(msb: Bit, lsb: Bit, prev: Comp, was: Comp, now: Comp, norm: real, piOn4: Comp, legacy: bool)
    requires norm > 0.0 && Power(prev) > 0.0
    ensures Decide(CMult(PhaseDifference(CMult(now, Symbol(msb, lsb, prev, legacy)), CMult(was, prev), norm), piOn4), legacy)
         == (msb, lsb)
         <==> Kept(Turn(msb, lsb, legacy), CMult(Drift(was, now), piOn4))
  {
    var t := Turn(msb, lsb, legacy);
    SymbolIsTurn(msb, lsb, prev, legacy);
    TurnAndDrift(t, prev, was, now, norm);
    var k := norm * Power(prev);
    TimesPositive(norm, Power(prev));
    DecidedTurn(k, msb, lsb, Drift(was, now), piOn4, legacy);
  }

  lemma TimesPositive(x: real, y: real)
    requires x > 0.0 && y > 0.0
    ensures x * y > 0.0
  {
  }

  lemma DecidedTurn(k: real, msb: Bit, lsb: Bit, drift: Comp, p: Comp, legacy: bool)
    requires k > 0.0
    ensures Decide(CMult(FCMult(k, CMult(Turn(msb, lsb, legacy), drift)), p), legacy) == (msb, lsb)
         <==> Kept(Turn(msb, lsb, legacy), CMult(drift, p))
  {
    var t := Turn(msb, lsb, legacy);
    var q := CMult(drift, p);
    MultCommutes(FCMult(k, CMult(t, drift)), p);
    FactorOut(k, p, CMult(t, drift));
    MultCommutes(p, CMult(t, drift));
    MultAssociates(t, drift, p);
    TurnDecided(k, msb, lsb, q, legacy);
  }

  lemma TurnDecided(k: real, msb: Bit, lsb: Bit, q: Comp, legacy: bool)
    requires k > 0.0
    ensures Decide(FCMult(k, CMult(Turn(msb, lsb, legacy), q)), legacy) == (msb, lsb) <==> Kept(Turn(msb, lsb, legacy), q)
  {
    SymbolIsTurn(msb, lsb, q, legacy);
    SameQuadrant(k, CMult(Turn(msb, lsb, legacy), q), legacy);
    QuadrantIff(msb, lsb, q, Turn(msb, lsb, legacy), legacy);
  }

  lemma SameQuadrant(k: real, d: Comp, legacy: bool)
    requires k > 0.0
    ensures Decide(FCMult(k, d), legacy) == Decide(d, legacy)
  {
    SameSign(k, d.re);
    SameSign(k, d.im);
  }

  /** q turned by n quarters. */
  function Quarters(n: nat, q: Comp): Comp
    requires n < 4
  {
    if n == 0 then q else if n == 1 then Comp(-q.im, q.re) else if n == 2 then Comp(-q.re, -q.im) else Comp(q.im, -q.re)
  }

  function QuartersOf(msb: Bit, lsb: Bit, legacy: bool): (n: nat)
    ensures n < 4
  {
    if msb == 0 then lsb else if (lsb == 0) == legacy then 2 else 3
  }

  lemma SymbolQuarters(msb: Bit, lsb: Bit, q: Comp, legacy: bool)
    ensures Symbol(msb, lsb, q, legacy) == Quarters(QuartersOf(msb, lsb, legacy), q)
  {
    QuarterTurn(q);
  }

  lemma QuartersDecided(n: nat, q: Comp, msb: Bit, lsb: Bit, legacy: bool)
    requires n == QuartersOf(msb, lsb, legacy)
    ensures Decide(Quarters(n, q), legacy) == (msb, lsb) <==> Kept(Quarters(n, Comp(1.0, 0.0)), q)
  {
  }

  lemma QuadrantIff(msb: Bit, lsb: Bit, q: Comp, t: Comp, legacy: bool)
    requires t == Turn(msb, lsb, legacy)
    ensures Decide(Symbol(msb, lsb, q, legacy), legacy) == (msb, lsb) <==> Kept(t, q)
  {
    SymbolQuarters(msb, lsb, q, legacy);
    SymbolQuarters(msb, lsb, Comp(1.0, 0.0), legacy);
    QuartersDecided(QuartersOf(msb, lsb, legacy), q, msb, lsb, legacy);
  }

  lemma SameSign(k: real, x: real)
    requires k > 0.0
    ensures k * x >= 0.0 <==> x >= 0.0
  {
    if x > 0.0 { TimesPositive(k, x); } else if x < 0.0 { TimesPositive(k, -x); assert k * -x == -(k * x); }
  }

  lemma QuarterTurn(q: Comp)
    ensures CMult(J, q) == Comp(-q.im, q.re) && CMult(CNeg(J), q) == Comp(q.im, -q.re)
  {
  }

  /** The pilot decision is the pilot bit that was sent exactly when the drift stays on this side. */
  lemma PilotRecoveredIff(pilot: Bit, prev: Comp, was: Comp, now: Comp, norm: real)
    requires norm > 0.0 && Power(prev) > 0.0
    ensures (PhaseDifference(CMult(now, PilotSymbol(pilot, prev)), CMult(was, prev), norm).re < 0.0 <==> pilot == 1)
         <==> if pilot == 1 then Drift(was, now).re > 0.0 else Drift(was, now).re >= 0.0
  {
    var t := if pilot == 1 then Comp(-1.0, 0.0) else Comp(1.0, 0.0);
    assert PilotSymbol(pilot, prev) == CMult(t, prev);
    TurnAndDrift(t, prev, was, now, norm);
    TimesPositive(norm, Power(prev));
    var d := Drift(was, now);
    assert CMult(t, d).re == if pilot == 1 then -d.re else d.re;
    SameSign(norm * Power(prev), CMult(t, d).re);
  }

  /** The frequency error that is fed back is the opposite of the drift's imaginary part, whichever pilot bit was sent. */
  lemma FrequencyError(pilot: Bit, prev: Comp, was: Comp, now: Comp, norm: real)
    requires norm > 0.0 && Power(prev) > 0.0 && Drift(was, now).re > 0.0
    ensures var d := PhaseDifference(CMult(now, PilotSymbol(pilot, prev)), CMult(was, prev), norm);
            (if d.re < 0.0 then d.im else -d.im) == -(norm * Power(prev) * Drift(was, now).im)
  {
    var t := if pilot == 1 then Comp(-1.0, 0.0) else Comp(1.0, 0.0);
    assert PilotSymbol(pilot, prev) == CMult(t, prev);
    TurnAndDrift(t, prev, was, now, norm);
    TimesPositive(norm, Power(prev));
    var d := Drift(was, now);
    assert CMult(t, d) == if pilot == 1 then CNeg(d) else d;
    SignsCancel(norm * Power(prev), d, pilot == 1);
  }

  lemma SignsCancel(k: real, d: Comp, negated: bool)
    requires k > 0.0 && d.re > 0.0
    ensures var e := FCMult(k, if negated then CNeg(d) else d);
            (if e.re < 0.0 then e.im else -e.im) == -(k * d.im)
  {
    TimesPositive(k, d.re);
    assert k * -d.re == -(k * d.re) && k * -d.im == -(k * d.im);
  }

  /** The old mapping counts the quarter turns in binary, the new one in Gray code. */
  lemma MappingIs(msb: Bit, lsb: Bit, prev: Comp)
    ensures Symbol(msb, lsb, prev, true) == Quarters(2 * msb + lsb, prev)
    ensures Symbol(msb, lsb, prev, false) == Quarters(2 * msb + (if msb == lsb then 0 else 1), prev)
  {
    SymbolQuarters(msb, lsb, prev, true);
    SymbolQuarters(msb, lsb, prev, false);
  }

  /** With the new mapping, a carrier that slips into a neighbouring quadrant costs exactly one of its two bits. */
  lemma NeighbourCostsOneBit(msb: Bit, lsb: Bit, q: Comp)
    requires (q.re > 0.0 && q.im < 0.0) || (q.re < 0.0 && q.im > 0.0)
    ensures var d := Decide(Symbol(msb, lsb, q, false), false); (d.0 == msb) != (d.1 == lsb)
  {
    SymbolQuarters(msb, lsb, q, false);
  }

  /** One complex gain per carrier. */
  function Through(channel: seq<Comp>, symbols: seq<Comp>): (r: seq<Comp>)
    requires |channel| == |symbols|
    ensures |r| == |symbols|
  {
    seq(|symbols|, c requires 0 <= c < |symbols| => CMult(channel[c], symbols[c]))
  }

  ghost predicate AllLive(s: seq<Comp>) {
    forall c :: 0 <= c < |s| ==> Power(s[c]) > 0.0
  }

  ghost predicate Positive(gain: Comp -> real) {
    forall z: Comp :: gain(z) > 0.0
  }

  /** Between two modem frames no carrier drifts out of its quadrant, nor the pilot out of its half plane. */
  ghost predicate Tracks(was: seq<Comp>, now: seq<Comp>, piOn4: Comp)
    requires |was| == |now| > 0
  {
    (forall c :: 0 <= c < |was| - 1 ==> Inside(CMult(Drift(was[c], now[c]), piOn4))) &&
    Drift(was[|was| - 1], now[|now| - 1]).re > 0.0
  }

  predicate Inside(q: Comp) { q.re > 0.0 && q.im > 0.0 }

  /** A steady channel tracks, whatever its gains. */
  lemma SteadyTracks(channel: seq<Comp>, piOn4: Comp)
    requires |channel| > 0 && AllLive(channel) && Inside(piOn4)
    ensures Tracks(channel, channel, piOn4)
  {
    forall c | 0 <= c < |channel| ensures Drift(channel[c], channel[c]) == Comp(Power(channel[c]), 0.0) && Power(channel[c]) > 0.0 {
      TimesConjugate(channel[c]);
    }
    forall c | 0 <= c < |channel| - 1 ensures Inside(CMult(Drift(channel[c], channel[c]), piOn4)) {
      TimesPositive(Power(channel[c]), piOn4.re);
      TimesPositive(Power(channel[c]), piOn4.im);
    }
  }

  /** A whole frame: exactly when every carrier stays where its own turn is decided right, the bits are those sent. */
  lemma FrameRecoveredIff(sent: seq<Bit>, got: seq<Bit>, pilot: Bit, prev: seq<Comp>, was: seq<Comp>, now: seq<Comp>,
                          piOn4: Comp, gain: Comp -> real, legacy: bool)
    requires |prev| == |was| == |now| > 0 && |sent| == |got| == 2 * (|prev| - 1) && AllLive(prev) && Positive(gain)
    requires Received(got, Through(now, Symbols(sent, pilot, prev, legacy)), Through(was, prev), piOn4, gain, legacy)
    ensures got == sent <==>
            forall c {:trigger was[c]} :: 0 <= c < |prev| - 1 ==>
              Kept(Turn(sent[2 * c], sent[2 * c + 1], legacy), CMult(Drift(was[c], now[c]), piOn4))
  {
    forall c {:trigger was[c]} | 0 <= c < |prev| - 1
      ensures (got[2 * c], got[2 * c + 1]) == (sent[2 * c], sent[2 * c + 1])
              <==> Kept(Turn(sent[2 * c], sent[2 * c + 1], legacy), CMult(Drift(was[c], now[c]), piOn4))
    {
      assert Power(prev[c]) > 0.0;
      PairRecoveredIff(sent[2 * c], sent[2 * c + 1], prev[c], was[c], now[c], gain(CMult(was[c], prev[c])), piOn4, legacy);
    }
    PairsAndBits(sent, got, |prev| - 1);
  }

  lemma PairsAndBits(a: seq<Bit>, b: seq<Bit>, n: nat)
    requires |a| == |b| == 2 * n
    ensures a == b <==> forall c :: 0 <= c < n ==> (b[2 * c], b[2 * c + 1]) == (a[2 * c], a[2 * c + 1])
  {
    if forall c :: 0 <= c < n ==> (b[2 * c], b[2 * c + 1]) == (a[2 * c], a[2 * c + 1]) {
      forall i | 0 <= i < |a| ensures a[i] == b[i] {
        assert (b[2 * (i / 2)], b[2 * (i / 2) + 1]) == (a[2 * (i / 2)], a[2 * (i / 2) + 1]);
      }
    }
  }

  /** A whole frame: as long as the channel tracks, the received bits and pilot are the transmitted ones. */
  lemma FrameRecovered(sent: seq<Bit>, got: seq<Bit>, pilot: Bit, prev: seq<Comp>, was: seq<Comp>, now: seq<Comp>,
                       piOn4: Comp, gain: Comp -> real, legacy: bool)
    requires |prev| == |was| == |now| > 0 && |sent| == |got| == 2 * (|prev| - 1)
    requires AllLive(prev) && Tracks(was, now, piOn4) && Positive(gain)
    requires Received(got, Through(now, Symbols(sent, pilot, prev, legacy)), Through(was, prev), piOn4, gain, legacy)
    ensures got == sent
    ensures var nc := |prev| - 1;
            var before, after := Through(was, prev)[nc], Through(now, Symbols(sent, pilot, prev, legacy))[nc];
            PhaseDifference(after, before, gain(before)).re < 0.0 <==> pilot == 1
  {
    var nc := |prev| - 1;
    FrameRecoveredIff(sent, got, pilot, prev, was, now, piOn4, gain, legacy);
    assert Power(prev[nc]) > 0.0;
    PilotRecoveredIff(pilot, prev[nc], was[nc], now[nc], gain(CMult(was[nc], prev[nc])));
  }
}
