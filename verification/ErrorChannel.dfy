/**
 The simulated channel of the decoder program: random bit flips over a bit range, their
 accounting, and the two-state burst machine driven by a timer.
 */
module ErrorChannel {
  import opened Bits
  import opened BytePacking

  // ---- flipping bits

  /** Flips bit i of the frame, counted from the most significant bit of byte 0, and no other. */
  lemma FlipBit(before: seq<Byte>, i: nat)
    requires i < 8 * |before|
    ensures Xor(before[i / 8], Shl(1, 7 - i % 8)) < 256
    ensures var after := before[i / 8 := Xor(before[i / 8], Shl(1, 7 - i % 8))];
            BitsOf(after) == BitsOf(before)[i := 1 - BitsOf(before)[i]]
  {
    var word, s := before[i / 8], 7 - i % 8;
    MaskBound(s);
    XorBound(word, Shl(1, s), 8);
    var after := before[i / 8 := Xor(word, Shl(1, s))];
    forall j | 0 <= j < 8 * |before|
      ensures BitsOf(after)[j] == (if j == i then 1 - BitsOf(before)[i] else BitsOf(before)[j])
    {
      if j / 8 == i / 8 { FlipOne(word, s, 7 - j % 8); }
    }
  }

  lemma FlipOne(word: nat, s: nat, k: nat)
    ensures BitAt(Xor(word, Shl(1, s)), k) == if k == s then 1 - BitAt(word, k) else BitAt(word, k)
  {
    XorBit(word, Shl(1, s), k);
    MaskBit(s, k);
  }

  lemma MaskBit(s: nat, k: nat)
    ensures BitAt(Shl(1, s), k) == if k == s then 1 else 0
  {
    ShlBit(1, s, k);
    if k > s { assert 1 / 2 == 0; ZeroBits(k - s - 1); }
  }

  lemma MaskBound(s: nat)
    requires s < 8
    ensures Shl(1, s) < Pow2(8) == 256
  {
    forall k: nat | k >= 8 ensures BitAt(Shl(1, s), k) == 0 { MaskBit(s, k); }
    ClearAbove(Shl(1, s), 8);
  }

  /** The frame after the bits [start, upto) for which the draw hit have been flipped. */
  ghost predicate Flipped(before: seq<Bit>, after: seq<Bit>, start: nat, upto: nat, hit: int -> bool) {
    |before| == |after| &&
    forall i :: 0 <= i < |before| ==> after[i] == if start <= i < upto && hit(i) then 1 - before[i] else before[i]
  }

  function Hits(start: nat, upto: nat, hit: int -> bool): (n: nat)
    ensures n <= if upto > start then upto - start else 0
    decreases upto
  {
    if upto <= start then 0 else Hits(start, upto - 1, hit) + (if hit(upto - 1) then 1 else 0)
  }

  /** Every hit is one changed bit, and there are no others. */
  lemma {:induction false} HitsAreErrors(before: seq<Bit>, after: seq<Bit>, start: nat, upto: nat, hit: int -> bool, n: nat)
    requires Flipped(before, after, start, upto, hit) && n <= |before|
    ensures Hamming(before, after, n) == Hits(start, if n < upto then n else upto, hit)
  {
    if n > 0 { HitsAreErrors(before, after, start, upto, hit, n - 1); }
  }

  /** bits[byte] ^= mask */
  method Flip(bits: array<Byte>, i: nat)
    requires i < 8 * bits.Length
    modifies bits
    ensures BitsOf(bits[..]) == BitsOf(old(bits[..]))[i := 1 - BitsOf(old(bits[..]))[i]]
  {
    var byte := i / 8;
    ghost var was := bits[..];
    FlipBit(was, i);
    assert 7 - i + byte * 8 == 7 - i % 8;
    bits[byte] := Xor(bits[byte], Shl(1, 7 - i + byte * 8));
    assert bits[..] == was[i / 8 := Xor(was[i / 8], Shl(1, 7 - i % 8))];
  }

  /** The error loop of the UNIFORM modes and of the burst state. */
  method Inject(bits: array<Byte>, start: nat, upto: nat, hit: int -> bool, errors: nat, proc: nat)
    returns (newErrors: nat, newProc: nat)
    requires upto <= 8 * bits.Length
    modifies bits
    ensures Flipped(BitsOf(old(bits[..])), BitsOf(bits[..]), start, upto, hit)
    ensures newErrors == errors + Hamming(BitsOf(old(bits[..])), BitsOf(bits[..]), 8 * bits.Length)
    ensures newProc == proc + if upto > start then upto - start else 0
    ensures newErrors - errors <= newProc - proc
  {
    newErrors, newProc := errors, proc;
    ghost var before := BitsOf(bits[..]);
    var i := start;
    while i < upto
      invariant start <= i && (i <= upto || i == start)
      invariant Flipped(before, BitsOf(bits[..]), start, i, hit)
      invariant newErrors == errors + Hits(start, i, hit) && newProc == proc + (i - start)
    {
      if hit(i) {
        Flip(bits, i);
        newErrors := newErrors + 1;
      }
      newProc := newProc + 1;
      i := i + 1;
    }
    InjectedErrors(before, BitsOf(bits[..]), start, upto, i, hit);
  }

  lemma InjectedErrors(before: seq<Bit>, after: seq<Bit>, start: nat, upto: nat, i: nat, hit: int -> bool)
    requires Flipped(before, after, start, i, hit) && upto <= |before| && start <= i && (i == upto || (i == start && upto <= start))
    ensures Flipped(before, after, start, upto, hit) && Hamming(before, after, |before|) == Hits(start, i, hit)
  {
    HitsAreErrors(before, after, start, i, hit, |before|);
    NoHits(start, hit, i, |before|);
  }

  lemma NoHits(start: nat, hit: int -> bool, i: nat, n: nat)
    requires i == start || i <= n
    ensures Hits(start, if n < i then n else i, hit) == Hits(start, i, hit)
  {
  }

  // ---- the burst machine

  datatype Burst = Burst(state: int, timer: real)

  const QUIET := Burst(0, 0.0)

  /** One frame of the TWO_STATE mode; errors are injected exactly in frames that start in state 1. */
  function Step(b: Burst, dt: real, period: real, length: real): Burst {
    var t := b.timer + dt;
    if b.state == 0 then Burst(if t > period - length then 1 else 0, t)
    else if b.state == 1 then if t > period then QUIET else Burst(1, t)
    else Burst(b.state, t)
  }

  function After(n: nat, dt: real, period: real, length: real): Burst {
    if n == 0 then QUIET else Step(After(n - 1, dt, period, length), dt, period, length)
  }

  function Time(n: nat, dt: real): real { n as real * dt }

  /** n is the least positive number of frames that takes more than `limit`. */
  predicate Least(n: nat, dt: real, limit: real) {
    n >= 1 && Time(n, dt) > limit && (n > 1 ==> Time(n - 1, dt) <= limit)
  }

  lemma LeastExists(dt: real, limit: real) returns (n: nat)
    requires dt > 0.0
    ensures Least(n, dt, limit)
  {
    if dt > limit {
      n := 1;
    } else {
      var q := limit / dt;
      assert q * dt == limit;
      assert q >= 1.0 by { if q < 1.0 { Scale(q, 1.0, dt); } }
      n := q.Floor + 1;
      Scale((n - 1) as real, q, dt);
      Scale(q, n as real, dt);
      assert q < n as real;
      StrictScale(q, n as real, dt);
    }
  }

  lemma Scale(x: real, y: real, d: real)
    requires d > 0.0 && x <= y
    ensures x * d <= y * d
  {
  }

  lemma StrictScale(x: real, y: real, d: real)
    requires d > 0.0 && x < y
    ensures x * d < y * d
  {
  }

  lemma TimeStep(n: nat, dt: real)
    ensures Time(n + 1, dt) == Time(n, dt) + dt
  {
  }

  lemma TimeGrows(m: nat, n: nat, dt: real)
    requires dt > 0.0 && m <= n
    ensures Time(m, dt) <= Time(n, dt)
  {
    Scale(m as real, n as real, dt);
  }

  /** The number of frames in a cycle: the clear ones, at least one burst frame, and the whole period. */
  function Cycle(j: nat, k: nat): nat { if j + 1 > k then j + 1 else k }

  /** Within the first cycle the channel is clear for j frames and bursting for the rest. */
  lemma {:induction false} FirstCycle(i: nat, j: nat, k: nat, dt: real, period: real, length: real)
    requires dt > 0.0 && Least(j, dt, period - length) && Least(k, dt, period) && i < Cycle(j, k)
    ensures After(i, dt, period, length) == Burst(if i < j then 0 else 1, Time(i, dt))
  {
    if i > 0 {
      FirstCycle(i - 1, j, k, dt, period, length);
      TimeStep(i - 1, dt);
      if i < j { TimeGrows(i, j - 1, dt); } else if i > j { TimeGrows(i, k - 1, dt); }
    }
  }

  /** At the end of the cycle the machine is back where it started. */
  lemma CycleEnds(j: nat, k: nat, dt: real, period: real, length: real)
    requires dt > 0.0 && Least(j, dt, period - length) && Least(k, dt, period)
    ensures After(Cycle(j, k), dt, period, length) == QUIET
  {
    var c := Cycle(j, k);
    FirstCycle(c - 1, j, k, dt, period, length);
    TimeStep(c - 1, dt);
    TimeGrows(k, c, dt);
  }

  lemma {:induction false} Periodic(n: nat, j: nat, k: nat, dt: real, period: real, length: real)
    requires dt > 0.0 && Least(j, dt, period - length) && Least(k, dt, period)
    ensures After(n + Cycle(j, k), dt, period, length) == After(n, dt, period, length)
  {
    if n == 0 { CycleEnds(j, k, dt, period, length); } else { Periodic(n - 1, j, k, dt, period, length); }
  }

  /**
   For ever after: in every cycle of max(j + 1, k) frames the first j are clear and all others inject
   errors.  j and k are the least positive frame counts that
   take longer than period - length and than period.
   */
  lemma {:induction false} BurstPattern(n: nat, q: nat, i: nat, j: nat, k: nat, dt: real, period: real, length: real)
    requires dt > 0.0 && Least(j, dt, period - length) && Least(k, dt, period)
    requires i < Cycle(j, k) && n == q * Cycle(j, k) + i
    ensures After(n, dt, period, length) == Burst(if i < j then 0 else 1, Time(i, dt))
    decreases q
  {
    if q == 0 {
      FirstCycle(i, j, k, dt, period, length);
    } else {
      var c := Cycle(j, k);
      Unrolled(q, c);
      BurstPattern(n - c, q - 1, i, j, k, dt, period, length);
      Periodic(n - c, j, k, dt, period, length);
    }
  }

  lemma Unrolled(q: nat, c: nat)
    requires q >= 1
    ensures q * c == (q - 1) * c + c && (q - 1) * c >= 0
  {
  }

  /** Whatever the times, every burst and every clear spell ends: after any frame come a clear and a bad one. */
  lemma SpellsEnd(n: nat, dt: real, period: real, length: real) returns (clear: nat, bad: nat)
    requires dt > 0.0
    ensures clear > n && After(clear, dt, period, length).state == 0
    ensures bad > n && After(bad, dt, period, length).state == 1
  {
    var j := LeastExists(dt, period - length);
    var k := LeastExists(dt, period);
    var c := Cycle(j, k);
    var q, i := DivMod(n, c);
    clear := (q + 1) * c;
    bad := clear + j;
    assert clear == c * q + c;
    BurstPattern(clear, q + 1, 0, j, k, dt, period, length);
    BurstPattern(bad, q + 1, j, j, k, dt, period, length);
  }

  /**
   The timer left at the end of a frame never exceeds the largest of period, period - length + dt and dt;
   with length at most period, the last of the three is the least.
   */
  lemma TimerBound(n: nat, j: nat, k: nat, dt: real, period: real, length: real)
    requires dt > 0.0 && Least(j, dt, period - length) && Least(k, dt, period)
    ensures var t := After(n, dt, period, length).timer; 0.0 <= t && (t <= period || t <= period - length + dt || t <= dt)
  {
    var c := Cycle(j, k);
    var q, i := DivMod(n, c);
    assert n == q * c + i by { assert c * q == q * c; }
    BurstPattern(n, q, i, j, k, dt, period, length);
    TimeGrows(0, i, dt);
    if i > j { TimeGrows(i, k - 1, dt); }
    else if i >= 1 { TimeStep(i - 1, dt); TimeGrows(i - 1, j - 1, dt); }
  }

  /** The frames with errors among the first n. */
  function Bad(n: nat, dt: real, period: real, length: real): nat {
    if n == 0 then 0
    else Bad(n - 1, dt, period, length) + (if After(n - 1, dt, period, length).state == 1 then 1 else 0)
  }

  lemma {:induction false} BadInCycle(m: nat, i: nat, j: nat, k: nat, dt: real, period: real, length: real)
    requires dt > 0.0 && Least(j, dt, period - length) && Least(k, dt, period) && i <= Cycle(j, k)
    ensures Bad(m * Cycle(j, k) + i, dt, period, length) == Bad(m * Cycle(j, k), dt, period, length) + (if i <= j then 0 else i - j)
  {
    if i > 0 {
      BadInCycle(m, i - 1, j, k, dt, period, length);
      BurstPattern(m * Cycle(j, k) + i - 1, m, i - 1, j, k, dt, period, length);
    }
  }

  /** Over q whole cycles, exactly q * (cycle - j) frames carry errors. */
  lemma {:induction false} BadFrames(q: nat, j: nat, k: nat, dt: real, period: real, length: real)
    requires dt > 0.0 && Least(j, dt, period - length) && Least(k, dt, period)
    ensures Bad(q * Cycle(j, k), dt, period, length) == q * (Cycle(j, k) - j)
  {
    if q > 0 {
      var c := Cycle(j, k);
      BadFrames(q - 1, j, k, dt, period, length);
      BadInCycle(q - 1, c, j, k, dt, period, length);
      assert q * c == (q - 1) * c + c && q * (c - j) == (q - 1) * (c - j) + (c - j);
    }
  }

  // ---- the decoder's loop

  datatype ErrorMode = None | Uniform | TwoState

  class Channel {
    var burst: Burst
    var bitErrors: nat
    var bitsProc: nat
    ghost var flips: nat
    ghost var frames: nat

    /** The error count is the number of bits changed so far and never exceeds the bits processed. */
    ghost predicate Valid()
      reads this
    {
      bitErrors == flips && bitErrors <= bitsProc
    }

    constructor ()
      ensures Valid() && burst == QUIET && flips == frames == 0 && bitsProc == 0
    {
      burst, bitErrors, bitsProc, flips, frames := QUIET, 0, 0, 0, 0;
    }

    /** One frame: bits [start, upto) may be flipped, all others arrive as sent. */
    method Frame(mode: ErrorMode, bits: array<Byte>, start: nat, upto: nat, hit: int -> bool,
                 dt: real, period: real, length: real)
      requires Valid() && upto <= 8 * bits.Length
      modifies this, bits
      ensures Valid() && frames == old(frames) + 1
      ensures flips == old(flips) + Hamming(BitsOf(old(bits[..])), BitsOf(bits[..]), 8 * bits.Length)
      ensures mode.TwoState? ==> burst == Step(old(burst), dt, period, length)
      ensures !mode.TwoState? ==> burst == old(burst)
      ensures if mode.Uniform? || (mode.TwoState? && old(burst.state) == 1)
              then Flipped(BitsOf(old(bits[..])), BitsOf(bits[..]), start, upto, hit) &&
                   bitsProc == old(bitsProc) + (if upto > start then upto - start else 0)
              else bits[..] == old(bits[..]) && bitsProc == old(bitsProc)
    {
      ghost var before := BitsOf(bits[..]);
      NoDistance(before, 8 * bits.Length);
      if mode.Uniform? {
        bitErrors, bitsProc := Inject(bits, start, upto, hit, bitErrors, bitsProc);
      }
      if mode.TwoState? {
        burst := burst.(timer := burst.timer + dt);
        var nextState := burst.state;
        if burst.state == 0 {
          if burst.timer > period - length { nextState := 1; }
        } else if burst.state == 1 {
          bitErrors, bitsProc := Inject(bits, start, upto, hit, bitErrors, bitsProc);
          if burst.timer > period {
            burst := burst.(timer := 0.0);
            nextState := 0;
          }
        }
        burst := burst.(state := nextState);
      }
      flips, frames := flips + Hamming(before, BitsOf(bits[..]), 8 * bits.Length), frames + 1;
    }
  }

  lemma {:induction false} NoDistance(a: seq<Bit>, n: nat)
    requires n <= |a|
    ensures Hamming(a, a, n) == 0
  {
    if n > 0 { NoDistance(a, n - 1); }
  }
}
