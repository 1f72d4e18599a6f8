/**
 The receiver's sync state machine: the six-symbol pilot memory, the unique-word test that
 raises the reliable sync bit, and the four states that decide when data is valid.
 */
module FreqSync {
  import opened Bits

  const NSYNC_MEM := 6
  const SYNC_UW: seq<int> := [1, -1, 1, -1, 1, -1]

  /** The variables freq_state keeps between calls. */
  datatype Tracker = Tracker(state: int, timer: int, mem: seq<int>)

  ghost predicate ValidMem(mem: seq<int>) {
    |mem| == NSYNC_MEM && forall i :: 0 <= i < |mem| ==> -1 <= mem[i] <= 1
  }

  /** State 1 has counted fewer than 25 good frames, state 3 fewer than 50 bad ones. */
  ghost predicate Valid(t: Tracker) {
    ValidMem(t.mem) && 0 <= t.state <= 3 &&
    (t.state == 1 ==> 0 <= t.timer < 25) && (t.state == 3 ==> 0 <= t.timer < 50)
  }

  const INITIAL := Tracker(0, 0, [0, 0, 0, 0, 0, 0])

  function Sign(b: Bit): int { 1 - 2 * b as int }

  function Negated(s: seq<int>): (r: seq<int>)
    ensures |r| == |s|
  {
    seq(|s|, i requires 0 <= i < |s| => -s[i])
  }

  function ShiftIn(mem: seq<int>, b: Bit): seq<int>
    requires |mem| == NSYNC_MEM
  {
    mem[1..] + [Sign(b)]
  }

  /** One step of the state machine; `seen` says whether the unique word was in the memory. */
  function Advance(state: int, timer: int, seen: bool): (int, int) {
    if state == 0 then if seen then (1, 0) else (0, timer)
    else if state == 1 then
      if seen then if timer + 1 == 25 then (2, 25) else (1, timer + 1) else (0, timer)
    else if state == 2 then if seen then (2, timer) else (3, 0)
    else if state == 3 then
      if seen then (2, timer) else if timer + 1 == 50 then (0, 50) else (3, timer + 1)
    else (state, timer)
  }

  function Next(t: Tracker, b: Bit): Tracker
    requires |t.mem| == NSYNC_MEM
  {
    var mem := ShiftIn(t.mem, b);
    var a := Advance(t.state, t.timer, UniqueWord(mem));
    Tracker(a.0, a.1, mem)
  }

  /** The pilot pattern in either phase. */
  predicate UniqueWord(mem: seq<int>) {
    mem == SYNC_UW || mem == Negated(SYNC_UW)
  }

  /** The unique word is six signs that alternate. */
  lemma AlternatesIff(mem: seq<int>)
    requires |mem| == NSYNC_MEM
    ensures UniqueWord(mem) <==> (mem[0] == 1 || mem[0] == -1) && forall i :: 0 <= i < NSYNC_MEM - 1 ==> mem[i + 1] == -mem[i]
  {
    var n := Negated(SYNC_UW);
    assert n == [-1, 1, -1, 1, -1, 1];
    if (mem[0] == 1 || mem[0] == -1) && forall i :: 0 <= i < NSYNC_MEM - 1 ==> mem[i + 1] == -mem[i] {
      assert mem[0 + 1] == -mem[0] && mem[1 + 1] == -mem[1] && mem[2 + 1] == -mem[2] && mem[3 + 1] == -mem[3] && mem[4 + 1] == -mem[4];
      assert mem == if mem[0] == 1 then SYNC_UW else n;
    }
  }

  class FreqState {
    var state: int
    var timer: int
    var syncMem: array<int>

    ghost function Value(): Tracker
      reads this, syncMem
    {
      Tracker(state, timer, syncMem[..])
    }

    constructor ()
      ensures Value() == INITIAL && Valid(Value()) && fresh(syncMem)
    {
      state, timer := 0, 0;
      syncMem := new int[NSYNC_MEM](i => 0);
    }

    method ShiftMemory(syncBit: Bit)
      requires syncMem.Length == NSYNC_MEM
      modifies syncMem
      ensures syncMem[..] == ShiftIn(old(syncMem[..]), syncBit)
    {
      for i := 0 to NSYNC_MEM - 1
        invariant forall j :: 0 <= j < i ==> syncMem[j] == old(syncMem[j + 1])
        invariant forall j :: i <= j < NSYNC_MEM ==> syncMem[j] == old(syncMem[j])
      {
        syncMem[i] := syncMem[i + 1];
      }
      syncMem[NSYNC_MEM - 1] := 1 - 2 * syncBit as int;
    }

    method Correlate() returns (corr: int)
      requires syncMem.Length == NSYNC_MEM
      ensures corr == Correlation(syncMem[..], NSYNC_MEM)
    {
      corr := 0;
      for i := 0 to NSYNC_MEM
        invariant corr == Correlation(syncMem[..], i)
      {
        corr := corr + syncMem[i] * SYNC_UW[i];
      }
    }

    /** freq_state(): returns the sync flag and the reliable sync bit. */
    method Step(syncBit: Bit) returns (sync: Bit, reliable: bool)
      requires Valid(Value())
      modifies this`state, this`timer, syncMem
      ensures Value() == Next(old(Value()), syncBit) && Valid(Value())
      ensures reliable <==> syncMem[..] == SYNC_UW
      ensures sync == if state == 0 then 0 else 1
    {
      ShiftMemory(syncBit);
      var corr := Correlate();
      FullCorrelation(syncMem[..]);
      var uniqueWord := corr == NSYNC_MEM || corr == -NSYNC_MEM;
      reliable := corr == NSYNC_MEM;

      var nextState := state;
      match state {
        case 0 =>
          if uniqueWord { nextState := 1; timer := 0; }
        case 1 =>
          if uniqueWord {
            timer := timer + 1;
            if timer == 25 { nextState := 2; }
          } else {
            nextState := 0;
          }
        case 2 =>
          if !uniqueWord { timer := 0; nextState := 3; }
        case 3 =>
          if uniqueWord {
            nextState := 2;
          } else {
            timer := timer + 1;
            if timer == 50 { nextState := 0; }
          }
        case _ =>
      }
      state := nextState;
      sync := if state != 0 then 1 else 0;
    }
  }

  function Correlation(mem: seq<int>, n: nat): int
    requires n <= |mem| && n <= NSYNC_MEM
  {
    if n == 0 then 0 else Correlation(mem, n - 1) + mem[n - 1] * SYNC_UW[n - 1]
  }

  /** The correlation reaches plus or minus six exactly on the two phases of the pattern. */
  lemma FullCorrelation(mem: seq<int>)
    requires ValidMem(mem)
    ensures Correlation(mem, 6) == 6 <==> mem == SYNC_UW
    ensures Correlation(mem, 6) == -6 <==> mem == Negated(SYNC_UW)
  {
    assert SYNC_UW == [1, -1, 1, -1, 1, -1];
    calc {
      Correlation(mem, 6);
      Correlation(mem, 5) - mem[5];
      Correlation(mem, 4) + mem[4] - mem[5];
      Correlation(mem, 3) - mem[3] + mem[4] - mem[5];
      Correlation(mem, 2) + mem[2] - mem[3] + mem[4] - mem[5];
      Correlation(mem, 1) - mem[1] + mem[2] - mem[3] + mem[4] - mem[5];
      mem[0] - mem[1] + mem[2] - mem[3] + mem[4] - mem[5];
    }
    if Correlation(mem, 6) == -6 {
      assert mem == [-1, 1, -1, 1, -1, 1];
      assert mem == Negated(SYNC_UW);
    }
  }

  // ---- runs

  function Run(t: Tracker, pilots: seq<Bit>): (r: Tracker)
    requires |t.mem| == NSYNC_MEM
    ensures |r.mem| == NSYNC_MEM
  {
    if pilots == [] then t else Next(Run(t, pilots[..|pilots| - 1]), pilots[|pilots| - 1])
  }

  /** Whether the reliable sync bit is raised on frame i. */
  ghost predicate Reliable(t: Tracker, pilots: seq<Bit>, i: nat)
    requires |t.mem| == NSYNC_MEM && i < |pilots|
  {
    Run(t, pilots[..i + 1]).mem == SYNC_UW
  }

  /** After any run the memory holds the last six pilot decisions, oldest first. */
  lemma {:induction false} Window(t: Tracker, pilots: seq<Bit>, k: nat)
    requires |t.mem| == NSYNC_MEM && k < NSYNC_MEM
    ensures |pilots| + k >= NSYNC_MEM ==> Run(t, pilots).mem[k] == Sign(pilots[|pilots| + k - NSYNC_MEM])
    ensures |pilots| + k < NSYNC_MEM ==> Run(t, pilots).mem[k] == t.mem[|pilots| + k]
    decreases |pilots|
  {
    if pilots != [] && k < NSYNC_MEM - 1 { Window(t, pilots[..|pilots| - 1], k + 1); }
  }

  /** A pilot decision on frame i is right when it is 1 on second halves and 0 on first halves. */
  predicate RightPilot(pilots: seq<Bit>, i: nat)
    requires i < |pilots|
  {
    pilots[i] == i % 2
  }

  /** No six consecutive pilot decisions are all wrong. */
  ghost predicate SometimesRight(pilots: seq<Bit>) {
    forall i :: 0 <= i <= |pilots| - NSYNC_MEM ==> RightWithin(pilots, i)
  }

  /** One of the six decisions from frame i on is right. */
  ghost predicate RightWithin(pilots: seq<Bit>, i: nat)
    requires i + NSYNC_MEM <= |pilots|
  {
    exists j :: i <= j < i + NSYNC_MEM && RightPilot(pilots, j)
  }

  /** Even with wrong pilot decisions, the reliable bit is raised on second halves only. */
  lemma ReliableOnSecondHalf(pilots: seq<Bit>, i: nat)
    requires i < |pilots| && SometimesRight(pilots) && Reliable(INITIAL, pilots, i)
    ensures i % 2 == 1 && i >= 5
  {
    NotEarly(pilots, i);
    assert RightWithin(pilots, i - 5);
    var j :| i - 5 <= j <= i && RightPilot(pilots, j);
    SameParity(pilots, i, j);
  }

  /** The memory is full before the unique word can be seen in it. */
  lemma NotEarly(pilots: seq<Bit>, i: nat)
    requires i < |pilots| && Reliable(INITIAL, pilots, i)
    ensures i >= 5
  {
    Window(INITIAL, pilots[..i + 1], 0);
    assert Run(INITIAL, pilots[..i + 1]).mem[0] == 1;
  }

  /** One right decision among the six fixes the parity of the frame. */
  lemma SameParity(pilots: seq<Bit>, i: nat, j: nat)
    requires 5 <= i < |pilots| && Reliable(INITIAL, pilots, i) && i - 5 <= j <= i && RightPilot(pilots, j)
    ensures i % 2 == 1
  {
    var seen, k := pilots[..i + 1], j - (i - 5);
    Window(INITIAL, seen, k);
    assert Run(INITIAL, seen).mem[k] == Sign(pilots[j]);
    WordSign(k);
    ParityOf(i, j, k, pilots[j]);
  }

  lemma WordSign(k: nat)
    requires k < NSYNC_MEM
    ensures SYNC_UW[k] == if k % 2 == 0 then 1 else -1
  {
  }

  lemma ParityOf(i: nat, j: nat, k: nat, b: Bit)
    requires i >= 5 && k == j - (i - 5) && b == j % 2 && Sign(b) == if k % 2 == 0 then 1 else -1
    ensures i % 2 == 1
  {
  }

  /** Six right decisions in a row ending on a second half do raise it. */
  lemma ReliableWhenRight(t: Tracker, pilots: seq<Bit>, i: nat)
    requires |t.mem| == NSYNC_MEM && 5 <= i < |pilots| && i % 2 == 1
    requires forall j :: i - 5 <= j <= i ==> RightPilot(pilots, j)
    ensures Reliable(t, pilots, i)
  {
    var seen := pilots[..i + 1];
    var mem := Run(t, seen).mem;
    forall k | 0 <= k < NSYNC_MEM ensures mem[k] == SYNC_UW[k] {
      Window(t, seen, k);
      assert RightPilot(pilots, i - 5 + k);
    }
  }

  // ---- acquiring and losing sync

  function Machine(state: int, timer: int, seen: seq<bool>): (int, int) {
    if seen == [] then (state, timer)
    else var p := Machine(state, timer, seen[..|seen| - 1]); Advance(p.0, p.1, seen[|seen| - 1])
  }

  lemma {:induction false} RunIsMachine(t: Tracker, pilots: seq<Bit>)
    requires |t.mem| == NSYNC_MEM
    ensures var r := Run(t, pilots); (r.state, r.timer) == Machine(t.state, t.timer, Sightings(t, pilots))
  {
    if pilots != [] {
      RunIsMachine(t, pilots[..|pilots| - 1]);
      var all := Sightings(t, pilots);
      assert all[..|all| - 1] == Sightings(t, pilots[..|pilots| - 1]);
    }
  }

  function Sightings(t: Tracker, pilots: seq<Bit>): (s: seq<bool>)
    requires |t.mem| == NSYNC_MEM
    ensures |s| == |pilots|
  {
    if pilots == [] then []
    else Sightings(t, pilots[..|pilots| - 1]) + [UniqueWord(Run(t, pilots).mem)]
  }

  /** The number of equal flags at the end of a run. */
  function Tail(seen: seq<bool>, flag: bool): (n: nat)
    ensures n <= |seen|
  {
    if seen == [] || seen[|seen| - 1] != flag then 0 else 1 + Tail(seen[..|seen| - 1], flag)
  }

  /** Somewhere in the run n flags in a row equal `flag`. */
  predicate Streak(seen: seq<bool>, flag: bool, n: nat) {
    Tail(seen, flag) >= n || (seen != [] && Streak(seen[..|seen| - 1], flag, n))
  }

  /** While fewer than 51 frames in a row miss the unique word, the state counts them. */
  lemma {:induction false} MissesCounted(timer: int, seen: seq<bool>)
    requires !Streak(seen, false, 51)
    ensures var m := Machine(2, timer, seen); var n := Tail(seen, false);
            if n == 0 then m.0 == 2 else m == (3, n - 1)
  {
    if seen != [] { MissesCounted(timer, seen[..|seen| - 1]); }
  }

  /** The 51st miss in a row loses sync. */
  lemma LostNow(timer: int, seen: seq<bool>)
    requires seen != [] && !Streak(seen[..|seen| - 1], false, 51)
    ensures Streak(seen, false, 51) <==> Machine(2, timer, seen).0 == 0
  {
    var init := seen[..|seen| - 1];
    MissesCounted(timer, init);
    assert Tail(init, false) < 51;
  }

  /**
   From the good-sync state, sync is kept throughout a run exactly when the unique word is
   never missing from 51 consecutive frames: one to become suspicious and 50 of waiting.
   */
  lemma {:induction false} SyncKeptIff(timer: int, seen: seq<bool>)
    ensures Streak(seen, false, 51) <==> exists k :: 0 <= k <= |seen| && Machine(2, timer, seen[..k]).0 == 0
  {
    if seen == [] {
      assert Machine(2, timer, seen[..0]).0 == 2;
    } else {
      var last := |seen| - 1;
      var init := seen[..last];
      SyncKeptIff(timer, init);
      assert seen[..|seen|] == seen;
      assert forall k :: 0 <= k <= last ==> init[..k] == seen[..k];
      if Streak(init, false, 51) {
        var k :| 0 <= k <= |init| && Machine(2, timer, init[..k]).0 == 0;
        assert Machine(2, timer, seen[..k]).0 == 0;
      } else {
        forall k | 0 <= k <= last ensures Machine(2, timer, seen[..k]).0 != 0 {
          assert init[..k] == seen[..k];
        }
        LostNow(timer, seen);
      }
    }
  }

  /** From the out-of-sync state, good sync is first reached by 26 consecutive sightings. */
  lemma {:induction false} GoodSyncNeeds26(timer: int, seen: seq<bool>)
    ensures !Streak(seen, true, 26) ==> var m := Machine(0, timer, seen); var n := Tail(seen, true);
                                        if n == 0 then m.0 == 0 else m == (1, n - 1)
    ensures Streak(seen, true, 26) <==> exists k :: 0 <= k <= |seen| && Machine(0, timer, seen[..k]).0 == 2
  {
    if seen == [] {
      assert Machine(0, timer, seen[..0]).0 == 0;
    } else {
      var last := |seen| - 1;
      var init := seen[..last];
      GoodSyncNeeds26(timer, init);
      assert seen[..|seen|] == seen;
      if Streak(init, true, 26) {
        var k :| 0 <= k <= |init| && Machine(0, timer, init[..k]).0 == 2;
        assert init[..k] == seen[..k];
      } else {
        assert Tail(init, true) < 26;
        forall k | 0 <= k <= last ensures Machine(0, timer, seen[..k]).0 != 2 {
          assert init[..k] == seen[..k];
        }
        if Streak(seen, true, 26) {
          assert Machine(0, timer, seen[..|seen|]).0 == 2;
        }
      }
    }
  }
}
