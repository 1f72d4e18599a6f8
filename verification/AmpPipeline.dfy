/**
 The amplitude quantiser across calls: a three-slot delay line of quantised models, gains and
 codebook indexes, and the interpolation that replaces every other frame.
 */
module AmpPipeline {
  import opened SplitVq
  import opened HarmonicBins

  const TWO_PI: real := 6.283185307

  /** The parameters of one 10 ms frame; a[0] and phi[0] are unused. */
  datatype Model = Model(wo: real, l: nat, a: seq<real>, phi: seq<real>, voiced: int)

  /** 20*log10(x), pow(10, x/20), pow(x, 0.8) and the normalised frame energy in dB. */
  datatype Maths = Maths(toDb: real -> real, fromDb: real -> real, weight: real -> real, energy: Model -> real)

  ghost predicate Lawful(f: Maths) {
    forall x: real :: f.fromDb(x) > 0.0
  }

  /** A frame the quantiser accepts: its assertions A[m] > 0 and index < MAX_AMP hold. */
  ghost predicate Acceptable(x: Model) {
    x.l <= MAX_AMP && |x.a| == MAX_AMP + 1 && Fits(x.l, x.wo) && forall m :: 1 <= m <= x.l ==> x.a[m] > 0.0
  }

  const INITIAL_WO: real := TWO_PI * 100.0 / 8000.0
  const INITIAL := Model(INITIAL_WO, 40, Filled(81, 10.0), [], 0)

  function Filled(n: nat, v: real): (r: seq<real>)
    ensures |r| == n && forall i :: 0 <= i < n ==> r[i] == v
  {
    seq(n, i => v)
  }

  lemma InitialAcceptable()
    ensures Acceptable(INITIAL)
  {
    assert INITIAL.l as real * INITIAL.wo == 40.0 * (TWO_PI * 100.0 / 8000.0);
  }

  /** What one call leaves in the delay line. */
  datatype Slot = Slot(model: Model, mag: real, idx: seq<nat>)

  const FIRST := Slot(INITIAL, 1.0, [0, 0, 0, 0, 0])

  ghost predicate Bank(vqs: seq<Codebook>) {
    |vqs| == 5 && Stages(vqs, MAX_AMP)
  }

  ghost predicate ValidSlot(s: Slot, vqs: seq<Codebook>) {
    Acceptable(s.model) && |s.idx| == 5 && Indexes(vqs, s.idx, |vqs|)
  }

  // ---- quantising one frame

  /** The levels in dB relative to the frame's mean, by harmonic. */
  function Levels(x: Model, f: Maths): (r: seq<real>)
    ensures |r| == |x.a|
  {
    seq(|x.a|, m requires 0 <= m < |x.a| => f.toDb(x.a[m]) - f.energy(x))
  }

  /** The levels by bin, zero where there is no harmonic. */
  ghost function Spectrum(x: Model, f: Maths): seq<real>
    requires Acceptable(x)
  {
    Stored(Filled(MAX_AMP, 0.0), Levels(x, f), x.l, x.wo)
  }

  /** w holds, in the bin of every harmonic, the weight of the last harmonic there. */
  ghost predicate WeighedBy(x: Model, f: Maths, w: seq<real>)
    requires Acceptable(x)
  {
    |w| == MAX_AMP && forall m :: 1 <= m <= x.l ==> w[BinOf(m, x.l, x.wo)] == f.weight(x.a[LastIn(m, x.l, x.wo)])
  }

  /** Each of the five indexes is the one its stage's weighted search picks for the frame's spectrum. */
  ghost predicate PickedAll(x: Model, f: Maths, vqs: seq<Codebook>, w: seq<real>, idx: seq<nat>)
    requires Acceptable(x) && Bank(vqs) && |w| == MAX_AMP && |idx| == 5
  {
    forall s :: 0 <= s < 5 ==> Picked(vqs[s], Band(vqs[s], Spectrum(x, f)), Band(vqs[s], w), idx[s])
  }

  /** The weighted search for x, whatever the bins without a harmonic weigh, gives idx. */
  ghost predicate SearchedFor(x: Model, f: Maths, vqs: seq<Codebook>, idx: seq<nat>)
    requires Acceptable(x) && Bank(vqs) && |idx| == 5
  {
    exists w :: WeighedBy(x, f, w) && PickedAll(x, f, vqs, w, idx)
  }

  /** s is the outcome of sparse_vq_amp() on x: same pitch and phases, levels taken from the codewords its search picks. */
  ghost predicate QuantisedAs(x: Model, s: Slot, vqs: seq<Codebook>, f: Maths)
    requires Acceptable(x) && Bank(vqs)
  {
    ValidSlot(s, vqs) && s.mag == f.energy(x) && SearchedFor(x, f, vqs, s.idx) &&
    s.model.wo == x.wo && s.model.l == x.l && s.model.phi == x.phi && s.model.voiced == x.voiced &&
    (forall m :: 1 <= m <= x.l ==>
      s.model.a[m] == f.fromDb(Rebuilt(vqs, s.idx, 5, BinOf(m, x.l, x.wo), Spectrum(x, f)[BinOf(m, x.l, x.wo)]) + s.mag)) &&
    forall m :: 0 <= m <= MAX_AMP && !(1 <= m <= x.l) ==> s.model.a[m] == x.a[m]
  }

  method SparseVqAmp(x: Model, vqs: seq<Codebook>, f: Maths, garbage: seq<real>) returns (s: Slot)
    requires Acceptable(x) && Bank(vqs) && Lawful(f) && |garbage| == MAX_AMP
    ensures QuantisedAs(x, s, vqs, f)
  {
    var output, idx := QuantiseSpectrum(x, vqs, f, garbage);
    var a := Restore(x, output, f.energy(x), f);
    s := Slot(x.(a := a), f.energy(x), idx);
  }

  /** The sparse arrays and the five searches; `garbage` is what the uninitialised weights hold. */
  method QuantiseSpectrum(x: Model, vqs: seq<Codebook>, f: Maths, garbage: seq<real>)
    returns (output: seq<real>, idx: seq<nat>)
    requires Acceptable(x) && Bank(vqs) && |garbage| == MAX_AMP
    ensures |output| == MAX_AMP && |idx| == 5 && Indexes(vqs, idx, 5) && SearchedFor(x, f, vqs, idx)
    ensures forall b :: 0 <= b < MAX_AMP ==> output[b] == Rebuilt(vqs, idx, 5, b, Spectrum(x, f)[b])
  {
    var peIn, peOut := new real[MAX_AMP](i => 0.0), new real[MAX_AMP](i => 0.0);
    var weights := new real[MAX_AMP](i requires 0 <= i < MAX_AMP => garbage[i]);
    assert peIn[..] == Filled(MAX_AMP, 0.0) && weights[..] == garbage;
    Store(peIn, Levels(x, f), x.l, x.wo);
    Store(weights, PowerWeights(x, f), x.l, x.wo);
    WeightsStored(x, f, garbage, weights[..]);
    ghost var spectrum := peIn[..];
    var w := weights[..];
    idx := FiveStages(peOut, vqs, w, peIn);
    output := peOut[..];
    SearchDone(x, f, vqs, spectrum, w, peIn[..], output, idx);
  }

  function PowerWeights(x: Model, f: Maths): (r: seq<real>)
    ensures |r| == |x.a|
  {
    seq(|x.a|, m requires 0 <= m < |x.a| => f.weight(x.a[m]))
  }

  lemma WeightsStored(x: Model, f: Maths, garbage: seq<real>, w: seq<real>)
    requires Acceptable(x) && |garbage| == MAX_AMP && w == Stored(garbage, PowerWeights(x, f), x.l, x.wo)
    ensures WeighedBy(x, f, w)
  {
    forall m | 1 <= m <= x.l ensures w[BinOf(m, x.l, x.wo)] == f.weight(x.a[LastIn(m, x.l, x.wo)]) {
      StoredAt(garbage, PowerWeights(x, f), x.l, x.wo, m);
    }
  }

  lemma SearchDone(x: Model, f: Maths, vqs: seq<Codebook>, spectrum: seq<real>, w: seq<real>, left: seq<real>,
                   output: seq<real>, idx: seq<nat>)
    requires Acceptable(x) && Bank(vqs) && spectrum == Spectrum(x, f) && WeighedBy(x, f, w) && |idx| == 5
    requires Progress(spectrum, w, left, output, vqs, idx)
    ensures SearchedFor(x, f, vqs, idx)
  {
    assert PickedAll(x, f, vqs, w, idx);
  }

  /** Gives every harmonic the amplitude for the level in its bin, raised by the offset. */
  method Restore(x: Model, sparse: seq<real>, offset: real, f: Maths) returns (a: seq<real>)
    requires Acceptable(x) && |sparse| == MAX_AMP
    ensures |a| == |x.a| && forall m :: 1 <= m <= x.l ==> a[m] == f.fromDb(sparse[BinOf(m, x.l, x.wo)] + offset)
    ensures forall m :: 0 <= m < |a| && !(1 <= m <= x.l) ==> a[m] == x.a[m]
  {
    a := x.a;
    for m := 1 to x.l + 1
      invariant |a| == |x.a|
      invariant forall j :: 1 <= j < m ==> a[j] == f.fromDb(sparse[BinOf(j, x.l, x.wo)] + offset)
      invariant forall j :: 0 <= j < |a| && !(1 <= j < m) ==> a[j] == x.a[j]
    {
      a := a[m := f.fromDb(sparse[BinOf(m, x.l, x.wo)] + offset)];
    }
  }

  // ---- what the search finds

  /** A bin that is not zero holds a harmonic. */
  lemma {:induction false} HarmonicOf(base: seq<real>, value: seq<real>, n: nat, wo: real, b: nat) returns (m: nat)
    requires |base| == MAX_AMP && HarmonicBins.Fits(n, wo) && n < |value| && b < MAX_AMP
    requires Stored(base, value, n, wo)[b] != base[b]
    ensures 1 <= m <= n && Bin(m, wo) == b
  {
    if Bin(n, wo) == b {
      m := n;
    } else {
      HarmonicFits(n, n, wo);
      FewerFit(n, wo);
      m := HarmonicOf(base, value, n - 1, wo, b);
    }
  }

  /** The two weightings agree wherever the spectrum is not zero. */
  lemma WeightsAgree(x: Model, f: Maths, v: seq<real>, w: seq<real>, b: nat)
    requires Acceptable(x) && WeighedBy(x, f, v) && WeighedBy(x, f, w) && b < MAX_AMP && Spectrum(x, f)[b] != 0.0
    ensures v[b] == w[b]
  {
    var m := HarmonicOf(Filled(MAX_AMP, 0.0), Levels(x, f), x.l, x.wo, b);
    assert BinOf(m, x.l, x.wo) == b;
  }

  /** What the bins without a harmonic weigh does not matter to the search. */
  lemma AnyWeighting(x: Model, f: Maths, vqs: seq<Codebook>, v: seq<real>, w: seq<real>, idx: seq<nat>)
    requires Acceptable(x) && Bank(vqs) && |idx| == 5 && WeighedBy(x, f, v) && WeighedBy(x, f, w) && PickedAll(x, f, vqs, v, idx)
    ensures PickedAll(x, f, vqs, w, idx)
  {
    var spectrum := Spectrum(x, f);
    forall s | 0 <= s < 5 ensures Picked(vqs[s], Band(vqs[s], spectrum), Band(vqs[s], w), idx[s]) {
      forall i | 0 <= i < vqs[s].k && Band(vqs[s], spectrum)[i] != 0.0 ensures Band(vqs[s], v)[i] == Band(vqs[s], w)[i] {
        WeightsAgree(x, f, v, w, vqs[s].offset + i);
      }
      PickedSame(vqs[s], Band(vqs[s], spectrum), Band(vqs[s], v), Band(vqs[s], w), idx[s]);
    }
  }

  /** There is one outcome only: it does not depend on what the uninitialised weights hold. */
  lemma QuantisedUnique(x: Model, s: Slot, t: Slot, vqs: seq<Codebook>, f: Maths)
    requires Acceptable(x) && Bank(vqs) && QuantisedAs(x, s, vqs, f) && QuantisedAs(x, t, vqs, f)
    ensures s == t
  {
    SearchUnique(x, f, vqs, s.idx, t.idx);
    assert s.model.a == t.model.a;
  }

  lemma SearchUnique(x: Model, f: Maths, vqs: seq<Codebook>, idx: seq<nat>, other: seq<nat>)
    requires Acceptable(x) && Bank(vqs) && |idx| == |other| == 5 && SearchedFor(x, f, vqs, idx) && SearchedFor(x, f, vqs, other)
    ensures idx == other
  {
    var v :| WeighedBy(x, f, v) && PickedAll(x, f, vqs, v, idx);
    var w :| WeighedBy(x, f, w) && PickedAll(x, f, vqs, w, other);
    AnyWeighting(x, f, vqs, v, w, idx);
    forall i | 0 <= i < 5 ensures idx[i] == other[i] {
      PickedUnique(vqs[i], Band(vqs[i], Spectrum(x, f)), Band(vqs[i], w), idx[i], other[i]);
    }
  }

  /** The same inputs leave the same slots behind, call after call. */
  lemma RecordedUnique(inputs: seq<Model>, h: seq<Slot>, g: seq<Slot>, vqs: seq<Codebook>, f: Maths)
    requires Bank(vqs) && Recorded(inputs, h, vqs, f) && Recorded(inputs, g, vqs, f)
    ensures h == g
  {
    forall k | 0 <= k < |inputs| ensures h[k] == g[k] { QuantisedUnique(inputs[k], h[k], g[k], vqs, f); }
  }

  /**
   No other five codewords represent the frame with less weighted distortion, as long as every stage
   has a codeword whose metric is below 1E32.
   */
  lemma QuantisedBest(x: Model, s: Slot, vqs: seq<Codebook>, f: Maths, w: seq<real>, other: seq<nat>)
    requires Acceptable(x) && Bank(vqs) && QuantisedAs(x, s, vqs, f) && WeighedBy(x, f, w)
    requires forall i :: 0 <= i < 5 ==> !NoneReached(vqs[i], Band(vqs[i], Spectrum(x, f)), Band(vqs[i], w), vqs[i].m)
    requires |other| == 5 && Indexes(vqs, other, 5)
    ensures Distortion(Spectrum(x, f), w, vqs, s.idx, 0, MAX_AMP) <= Distortion(Spectrum(x, f), w, vqs, other, 0, MAX_AMP)
  {
    var v :| WeighedBy(x, f, v) && PickedAll(x, f, vqs, v, s.idx);
    AnyWeighting(x, f, vqs, v, w, s.idx);
    assert Chosen(Spectrum(x, f), w, vqs, s.idx);
    SplitIsExhaustive(Spectrum(x, f), w, vqs, s.idx, other);
  }

  /** The frame's gain cancels: a harmonic's level comes back changed by its bin's quantisation error alone. */
  lemma GainCancels(x: Model, s: Slot, vqs: seq<Codebook>, f: Maths, m: nat)
    requires Acceptable(x) && Bank(vqs) && QuantisedAs(x, s, vqs, f) && 1 <= m <= x.l
    ensures var b := BinOf(m, x.l, x.wo);
            var error := Rebuilt(vqs, s.idx, 5, b, Spectrum(x, f)[b]) - Spectrum(x, f)[b];
            s.model.a[m] == f.fromDb(f.toDb(x.a[LastIn(m, x.l, x.wo)]) + error)
  {
    StoredAt(Filled(MAX_AMP, 0.0), Levels(x, f), x.l, x.wo, m);
    var b, last := BinOf(m, x.l, x.wo), LastIn(m, x.l, x.wo);
    var r, e := Rebuilt(vqs, s.idx, 5, b, Spectrum(x, f)[b]), f.energy(x);
    assert r + e == f.toDb(x.a[last]) + (r - (f.toDb(x.a[last]) - e));
  }

  // ---- interpolating between two quantised frames

  /** The level in dB that a slot's gain and indexes give bin i of stage s. */
  function SlotLevel(vqs: seq<Codebook>, slot: Slot, s: nat, i: nat): real
    requires ValidSlot(slot, vqs) && s < |vqs| && |vqs| == 5 && i < vqs[s].k
  {
    slot.mag + Entry(vqs[s], slot.idx[s], i)
  }

  /** Bin b after the first n interp_split_vq() calls: the midpoint of the two slots in the band that holds b. */
  ghost function Midpoint(vqs: seq<Codebook>, older: Slot, newer: Slot, n: nat, b: nat, x: real): real
    requires |vqs| == 5 && n <= 5 && ValidSlot(older, vqs) && ValidSlot(newer, vqs)
  {
    if n == 0 then 0.0
    else if InBand(vqs[n - 1], b) && x != 0.0 then
      var i := b - vqs[n - 1].offset;
      0.5 * SlotLevel(vqs, older, n - 1, i) + 0.5 * SlotLevel(vqs, newer, n - 1, i)
    else Midpoint(vqs, older, newer, n - 1, b, x)
  }

  /** interp_split_vq() for stage n, in place. */
  method InterpStage(peOut: array<real>, vqs: seq<Codebook>, n: nat, older: Slot, newer: Slot, peIn: array<real>)
    requires Bank(vqs) && n < 5 && ValidSlot(older, vqs) && ValidSlot(newer, vqs)
    requires peIn != peOut && peIn.Length == peOut.Length == MAX_AMP
    requires forall b :: 0 <= b < MAX_AMP ==> peOut[b] == Midpoint(vqs, older, newer, n, b, peIn[b])
    modifies peOut
    ensures forall b :: 0 <= b < MAX_AMP ==> peOut[b] == Midpoint(vqs, older, newer, n + 1, b, peIn[b])
  {
    var vq := vqs[n];
    ghost var x := peIn[..];
    for i := 0 to vq.k
      invariant peIn[..] == x
      invariant forall b :: 0 <= b < vq.offset + i ==> peOut[b] == Midpoint(vqs, older, newer, n + 1, b, x[b])
      invariant forall b :: vq.offset + i <= b < MAX_AMP ==> peOut[b] == Midpoint(vqs, older, newer, n, b, x[b])
    {
      var j := vq.offset + i;
      if peIn[j] != 0.0 {
        var ampDb := 0.5 * (older.mag + Entry(vq, older.idx[n], i));
        ampDb := ampDb + 0.5 * (newer.mag + Entry(vq, newer.idx[n], i));
        peOut[j] := ampDb;
      }
    }
  }

  /**
   The amplitudes between two slots: every harmonic of the middle frame gets the midpoint of its bin, or
   0 dB where its bin's own level is 0 dB or outside every band.
   */
  ghost predicate Between(middle: Model, a: seq<real>, vqs: seq<Codebook>, older: Slot, newer: Slot, f: Maths)
    requires Acceptable(middle) && Bank(vqs) && ValidSlot(older, vqs) && ValidSlot(newer, vqs)
  {
    |a| == |middle.a| && (forall m :: 0 <= m < |a| && !(1 <= m <= middle.l) ==> a[m] == middle.a[m]) &&
    forall m :: 1 <= m <= middle.l ==>
      a[m] == f.fromDb(Midpoint(vqs, older, newer, 5, BinOf(m, middle.l, middle.wo),
                                f.toDb(middle.a[LastIn(m, middle.l, middle.wo)])))
  }

  method FiveInterpStages(peOut: array<real>, vqs: seq<Codebook>, older: Slot, newer: Slot, peIn: array<real>)
    requires Bank(vqs) && ValidSlot(older, vqs) && ValidSlot(newer, vqs) && peIn != peOut
    requires peIn.Length == peOut.Length == MAX_AMP && forall b :: 0 <= b < MAX_AMP ==> peOut[b] == 0.0
    modifies peOut
    ensures forall b :: 0 <= b < MAX_AMP ==> peOut[b] == Midpoint(vqs, older, newer, 5, b, peIn[b])
  {
    for s := 0 to 5
      invariant forall b :: 0 <= b < MAX_AMP ==> peOut[b] == Midpoint(vqs, older, newer, s, b, peIn[b])
    {
      InterpStage(peOut, vqs, s, older, newer, peIn);
    }
  }

  /** The amplitudes of the frame in between; `garbage` is what the uninitialised array holds. */
  method Interpolate(middle: Model, vqs: seq<Codebook>, older: Slot, newer: Slot, f: Maths, garbage: seq<real>)
    returns (a: seq<real>)
    requires Acceptable(middle) && Bank(vqs) && ValidSlot(older, vqs) && ValidSlot(newer, vqs)
    requires |garbage| == MAX_AMP
    ensures |a| == |middle.a|
    ensures Between(middle, a, vqs, older, newer, f)
  {
    var peIn := new real[MAX_AMP](i requires 0 <= i < MAX_AMP => garbage[i]);
    var peOut := new real[MAX_AMP](i => 0.0);
    assert peIn[..] == garbage;
    Store(peIn, Decibels(middle, f), middle.l, middle.wo);
    ghost var x := peIn[..];
    FiveInterpStages(peOut, vqs, older, newer, peIn);
    ghost var out := peOut[..];
    a := Restore(middle, peOut[..], 0.0, f);
    forall m | 1 <= m <= middle.l
      ensures a[m] == f.fromDb(Midpoint(vqs, older, newer, 5, BinOf(m, middle.l, middle.wo),
                                        f.toDb(middle.a[LastIn(m, middle.l, middle.wo)])))
    {
      StoredAt(garbage, Decibels(middle, f), middle.l, middle.wo, m);
      assert out[BinOf(m, middle.l, middle.wo)] + 0.0 == out[BinOf(m, middle.l, middle.wo)];
    }
  }

  /** The amplitudes in dB, by harmonic. */
  function Decibels(x: Model, f: Maths): (r: seq<real>)
    ensures |r| == |x.a|
  {
    seq(|x.a|, m requires 0 <= m < |x.a| => f.toDb(x.a[m]))
  }

  /** In the band of a stage the result is the midpoint of what the two slots quantised there. */
  lemma {:induction false} MidpointInBand(vqs: seq<Codebook>, older: Slot, newer: Slot, n: nat, s: nat, b: nat, x: real)
    requires Bank(vqs) && s < n <= 5 && ValidSlot(older, vqs) && ValidSlot(newer, vqs)
    requires InBand(vqs[s], b) && x != 0.0
    ensures var i := b - vqs[s].offset;
            Midpoint(vqs, older, newer, n, b, x) == (SlotLevel(vqs, older, s, i) + SlotLevel(vqs, newer, s, i)) / 2.0
  {
    if s < n - 1 {
      assert Disjoint(vqs[s], vqs[n - 1]);
      MidpointInBand(vqs, older, newer, n - 1, s, b, x);
    }
  }

  // ---- the delay line across calls

  /** The slot call k left behind; before the first call, the initial one. */
  function At(history: seq<Slot>, k: int): Slot
    requires k < |history|
  {
    if k < 0 then FIRST else history[k]
  }

  function InputAt(inputs: seq<Model>, k: int): Model
    requires k < |inputs|
  {
    if k < 0 then INITIAL else inputs[k]
  }

  /** Each call quantised its own input. */
  ghost predicate Recorded(inputs: seq<Model>, history: seq<Slot>, vqs: seq<Codebook>, f: Maths)
    requires Bank(vqs)
  {
    |inputs| == |history| &&
    forall k :: 0 <= k < |inputs| ==> Acceptable(inputs[k]) && QuantisedAs(inputs[k], history[k], vqs, f)
  }

  lemma RecordedNext(inputs: seq<Model>, history: seq<Slot>, vqs: seq<Codebook>, f: Maths, x: Model, s: Slot)
    requires Bank(vqs) && Recorded(inputs, history, vqs, f) && Acceptable(x) && QuantisedAs(x, s, vqs, f)
    ensures Recorded(inputs + [x], history + [s], vqs, f)
    ensures var n := |inputs|;
            At(history + [s], n) == s && At(history + [s], n - 1) == At(history, n - 1) && At(history + [s], n - 2) == At(history, n - 2)
  {
  }

  class AmpExperiment {
    const vqs: seq<Codebook>
    const f: Maths
    var frames: nat
    var model: seq<Model>
    var modelUq: seq<Model>
    var mag: seq<real>
    var indexes: seq<seq<nat>>

    ghost var inputs: seq<Model>
    ghost var history: seq<Slot>

    /** Slots 0 and 1 hold what the last two calls quantised, slot 1 of model_uq the last input. */
    ghost predicate Valid()
      reads this
    {
      && Bank(vqs) && Lawful(f)
      && |model| == |modelUq| == |mag| == |indexes| == 3
      && frames == |inputs| && Recorded(inputs, history, vqs, f)
      && Slot(model[0], mag[0], indexes[0]) == At(history, frames - 2)
      && Slot(model[1], mag[1], indexes[1]) == At(history, frames - 1)
      && modelUq[1] == InputAt(inputs, frames - 1)
    }

    /** amp_experiment_create() */
    constructor (bank: seq<Codebook>, maths: Maths)
      requires Bank(bank) && Lawful(maths)
      ensures Valid() && inputs == [] && vqs == bank && f == maths
    {
      vqs, f, frames := bank, maths, 0;
      model, modelUq := [INITIAL, INITIAL, INITIAL], [INITIAL, INITIAL, INITIAL];
      mag := [1.0, 1.0, 1.0];
      indexes := [[0, 0, 0, 0, 0], [0, 0, 0, 0, 0], [0, 0, 0, 0, 0]];
      inputs, history := [], [];
    }

    /**
     amp_experiment() with "vq" (interpolate == false) or "vqi" (true), in any mixture.  `beyond` is
     what the last step of the model_uq shift reads past the end of the array.
     */
    method Call(x: Model, interpolate: bool, garbage: seq<real>, beyond: Model) returns (out: Model)
      requires Valid() && Acceptable(x) && |garbage| == MAX_AMP
      modifies this
      ensures Valid() && inputs == old(inputs) + [x] && |history| == old(|history|) + 1 && history[..old(frames)] == old(history)
      ensures var was := InputAt(inputs, old(frames) - 1);
              out.wo == was.wo && out.l == was.l && out.phi == was.phi && out.voiced == was.voiced
      ensures !(interpolate && old(frames) % 2 == 0) ==> out == At(history, old(frames) - 1).model
      ensures interpolate && old(frames) % 2 == 0 ==>
        var n := old(frames);
        ValidSlot(At(history, n - 2), vqs) && ValidSlot(At(history, n - 1), vqs) && ValidSlot(At(history, n), vqs) &&
        Between(At(history, n - 1).model, out.a, vqs, At(history, n - 2), At(history, n), f)
    {
      ghost var older, last := At(history, frames - 2), At(history, frames - 1);
      SlotsValid();
      modelUq := modelUq[2 := x];
      var s := SparseVqAmp(x, vqs, f, garbage);
      mag, indexes := mag[2 := s.mag], indexes[2 := s.idx];
      out := VqInterp(s.model, interpolate, garbage);
      assert Held(0) == last && Held(1) == s;
      assert modelUq[1].l == out.l; // update_snr_calc()
      EndCall(x, s, beyond);
    }

    /** Counts the call and shifts the inputs down. */
    method EndCall(x: Model, ghost s: Slot, beyond: Model)
      requires Bank(vqs) && Lawful(f) && |model| == |modelUq| == |mag| == |indexes| == 3 && frames == |inputs|
      requires Recorded(inputs, history, vqs, f) && Acceptable(x) && QuantisedAs(x, s, vqs, f) && modelUq[2] == x
      requires Held(0) == At(history, frames - 1) && Held(1) == s
      modifies this`frames, this`modelUq, this`inputs, this`history
      ensures Valid() && inputs == old(inputs) + [x] && history == old(history) + [s]
    {
      RecordedNext(inputs, history, vqs, f, x, s);
      frames := frames + 1;
      modelUq := [modelUq[1], modelUq[2], beyond];
      inputs, history := inputs + [x], history + [s];
    }

    /** Slot i of the delay line. */
    ghost function Held(i: nat): Slot
      requires i < |model| == |mag| == |indexes|
      reads this
    {
      Slot(model[i], mag[i], indexes[i])
    }

    /** vq_interp(): returns the previous frame, interpolated on even counts, and shifts the slots down. */
    method VqInterp(x: Model, on: bool, garbage: seq<real>) returns (out: Model)
      requires Bank(vqs) && |model| == |mag| == |indexes| == 3 && |garbage| == MAX_AMP
      requires ValidSlot(Held(0), vqs) && ValidSlot(Held(1), vqs) && ValidSlot(Slot(x, mag[2], indexes[2]), vqs)
      modifies this`model, this`mag, this`indexes
      ensures |model| == |mag| == |indexes| == 3
      ensures Held(0) == old(Held(1)) && Held(1) == Slot(x, old(mag[2]), old(indexes[2]))
      ensures !(on && frames % 2 == 0) ==> out == old(Held(1)).model
      ensures on && frames % 2 == 0 ==> out == old(Held(1)).model.(a := out.a)
      ensures on && frames % 2 == 0 ==> Between(old(Held(1)).model, out.a, vqs, old(Held(0)), Held(1), f)
    {
      model := model[2 := x];
      out := model[1];
      if on && frames % 2 == 0 {
        var older, newer := Slot(model[0], mag[0], indexes[0]), Slot(model[2], mag[2], indexes[2]);
        var a := Interpolate(out, vqs, older, newer, f, garbage);
        out := out.(a := a);
      }
      for i := 0 to 2
        invariant |model| == |mag| == |indexes| == 3 && Held(2) == Slot(x, old(mag[2]), old(indexes[2]))
        invariant i >= 1 ==> Held(0) == old(Held(1))
        invariant i <= 1 ==> Held(1) == old(Held(1))
        invariant i == 2 ==> Held(1) == Held(2)
      {
        model, mag := model[i := model[i + 1]], mag[i := mag[i + 1]];
        indexes := indexes[i := indexes[i + 1]];
      }
    }

    /** Every slot in the delay line can be interpolated from, and slot 1 has the last input's pitch and phases. */
    lemma SlotsValid()
      requires Valid()
      ensures ValidSlot(At(history, frames - 2), vqs) && ValidSlot(At(history, frames - 1), vqs)
      ensures var was, got := InputAt(inputs, frames - 1), At(history, frames - 1).model;
              got.wo == was.wo && got.l == was.l && got.phi == was.phi && got.voiced == was.voiced
    {
      InitialAcceptable();
      assert frames >= 1 ==> QuantisedAs(inputs[frames - 1], history[frames - 1], vqs, f);
      assert frames >= 2 ==> QuantisedAs(inputs[frames - 2], history[frames - 2], vqs, f);
    }
  }

  /** A harmonic whose bin holds it alone: at even counts its output level is the midpoint of calls n - 2 and n. */
  lemma MidpointOfNeighbours(middle: Model, a: seq<real>, vqs: seq<Codebook>, older: Slot, newer: Slot, f: Maths, m: nat, s: nat)
    requires Acceptable(middle) && Bank(vqs) && ValidSlot(older, vqs) && ValidSlot(newer, vqs)
    requires Between(middle, a, vqs, older, newer, f) && 1 <= m <= middle.l && s < 5
    requires middle.l as real * Spacing(middle.wo) >= (middle.l - 1) as real
    requires InBand(vqs[s], BinOf(m, middle.l, middle.wo)) && f.toDb(middle.a[m]) != 0.0
    ensures var i := BinOf(m, middle.l, middle.wo) - vqs[s].offset;
            a[m] == f.fromDb((SlotLevel(vqs, older, s, i) + SlotLevel(vqs, newer, s, i)) / 2.0)
  {
    DistinctIff(middle.l, middle.wo);
    LastIsSelf(m, middle.l, middle.wo);
    MidpointInBand(vqs, older, newer, 5, s, BinOf(m, middle.l, middle.wo), f.toDb(middle.a[m]));
  }

  /** What a call quantised at harmonic m is exactly the slot's level there, where its own level is not the mean. */
  lemma QuantisedLevel(x: Model, q: Slot, vqs: seq<Codebook>, f: Maths, m: nat, s: nat)
    requires Acceptable(x) && Bank(vqs) && QuantisedAs(x, q, vqs, f) && 1 <= m <= x.l && s < 5
    requires x.l as real * Spacing(x.wo) >= (x.l - 1) as real
    requires InBand(vqs[s], BinOf(m, x.l, x.wo)) && f.toDb(x.a[m]) != f.energy(x)
    ensures q.model.a[m] == f.fromDb(SlotLevel(vqs, q, s, BinOf(m, x.l, x.wo) - vqs[s].offset))
  {
    var b := BinOf(m, x.l, x.wo);
    OwnLevel(x, f, m);
    RebuiltInside(vqs, q.idx, 5, s, b, Spectrum(x, f)[b], MAX_AMP);
    assert Rebuilt(vqs, q.idx, 5, b, Spectrum(x, f)[b]) + q.mag == q.mag + Entry(vqs[s], q.idx[s], b - vqs[s].offset);
  }

  lemma OwnLevel(x: Model, f: Maths, m: nat)
    requires Acceptable(x) && 1 <= m <= x.l && x.l as real * Spacing(x.wo) >= (x.l - 1) as real
    ensures Spectrum(x, f)[BinOf(m, x.l, x.wo)] == f.toDb(x.a[m]) - f.energy(x)
  {
    DistinctIff(x.l, x.wo);
    LastIsSelf(m, x.l, x.wo);
    StoredAt(Filled(MAX_AMP, 0.0), Levels(x, f), x.l, x.wo, m);
  }
}
