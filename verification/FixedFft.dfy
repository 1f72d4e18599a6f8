/**
 The fixed-point transform over any number of stages: every value that the butterflies of any radix
 compute, from samples in a disc, and the proof that none of them leaves the sample range.
 */
module FixedFft {
  import opened Complex
  import opened FixedPoint
  import opened FixedRange

  function Plus(a: Cpx, b: Cpx): Cpx { Cpx(a.r + b.r, a.i + b.i) }
  function Minus(a: Cpx, b: Cpx): Cpx { Cpx(a.r - b.r, a.i - b.i) }

  /** A quarter turn swaps the parts. */
  function Quarter(a: Cpx): Cpx { Cpx(-a.i, a.r) }

  /** C_MULBYSCALAR, or S_MUL on both parts. */
  function ByScalar(a: Cpx, s: int, f: nat): Cpx
    requires f >= 1
  {
    Cpx(Round(a.r * s, f), Round(a.i * s, f))
  }

  /** HALF_OF on both parts: an arithmetic shift. */
  function Halved(a: Cpx): Cpx { Cpx(a.r / 2, a.i / 2) }

  // ---- what the butterflies store

  /** Which butterfly, with the table entries that it reads beside the running twiddle factors. */
  datatype Fly = Two | Three(epi: Cpx) | Four(inverse: bool) | Five(ya: Cpx, yb: Cpx) | Other

  ghost predicate Fitting(fly: Fly, k: nat, f: nat) {
    match fly
    case Two => k == 2
    case Three(epi) => k == 3 && Third(epi, f)
    case Four(_) => k == 4
    case Five(ya, yb) => k == 5 && Twiddle(ya, f) && Twiddle(yb, f)
    case Other => k >= 1
  }

  /** The table entry for a third of a turn, in either direction. */
  ghost predicate Third(t: Cpx, f: nat) {
    exists c: Comp :: Power(c) == 1.0 && c.re == -0.5 && Rounds(t, FCMult(SampMax(f) as real, c))
  }

  /** The scaled samples, all but the first rotated. */
  function Terms(x: seq<Cpx>, tw: seq<Cpx>, f: nat): (t: seq<Cpx>)
    requires f >= 1 && 1 <= |x| == |tw|
    ensures |t| == |x|
  {
    seq(|x|, i requires 0 <= i < |x| =>
      if i == 0 then Scaled(x[0], |x|, f) else CMul(Scaled(x[i], |x|, f), tw[i], f))
  }

  function Prefix(t: seq<Cpx>, n: nat): Cpx
    requires 1 <= n <= |t|
  {
    if n == 1 then t[0] else Plus(Prefix(t, n - 1), t[n - 1])
  }

  /** A single term that is not zero is the sum from there on. */
  lemma {:induction false} PrefixAlone(t: seq<Cpx>, i: nat, n: nat)
    requires i < |t| && 1 <= n <= |t| && forall j :: 0 <= j < |t| && j != i ==> t[j] == Cpx(0, 0)
    ensures Prefix(t, n) == if i < n then t[i] else Cpx(0, 0)
  {
    if n > 1 { PrefixAlone(t, i, n - 1); }
  }

  /** Everything that kf_bfly2() stores after the products; the last two are its outputs. */
  function StoredTwo(t: seq<Cpx>): seq<Cpx>
    requires |t| == 2
  {
    [Plus(t[0], t[1]), Minus(t[0], t[1])]
  }

  /** kf_bfly3() */
  function StoredThree(t: seq<Cpx>, epi: Cpx, f: nat): seq<Cpx>
    requires |t| == 3 && f >= 1
  {
    var s3, s0 := Plus(t[1], t[2]), Minus(t[1], t[2]);
    var mid, z := Minus(t[0], Halved(s3)), ByScalar(s0, epi.i, f);
    [s3, s0, mid, z, Plus(t[0], s3), Plus(mid, Quarter(z)), Minus(mid, Quarter(z))]
  }

  /** kf_bfly4() */
  function StoredFour(t: seq<Cpx>, inverse: bool): seq<Cpx>
    requires |t| == 4
  {
    var s5, sum, s3, s4 := Minus(t[0], t[2]), Plus(t[0], t[2]), Plus(t[1], t[3]), Minus(t[1], t[3]);
    var back, ahead := Minus(s5, Quarter(s4)), Plus(s5, Quarter(s4));
    [s5, sum, s3, s4, Plus(sum, s3), if inverse then ahead else back, Minus(sum, s3), if inverse then back else ahead]
  }

  /** kf_bfly5() */
  function StoredFive(t: seq<Cpx>, ya: Cpx, yb: Cpx, f: nat): seq<Cpx>
    requires |t| == 5 && f >= 1
  {
    var s7, s10, s8, s9 := Plus(t[1], t[4]), Minus(t[1], t[4]), Plus(t[2], t[3]), Minus(t[2], t[3]);
    var a7, b8, a10, b9 := ByScalar(s7, ya.r, f), ByScalar(s8, yb.r, f), ByScalar(s10, ya.i, f), ByScalar(s9, yb.i, f);
    var b7, a8, b10, a9 := ByScalar(s7, yb.r, f), ByScalar(s8, ya.r, f), ByScalar(s10, yb.i, f), ByScalar(s9, ya.i, f);
    var s5, n6, s11, s12 := Plus(Plus(t[0], a7), b8), Quarter(Plus(a10, b9)), Plus(Plus(t[0], b7), a8), Quarter(Minus(b10, a9));
    [s7, s10, s8, s9] + [a7, b8, a10, b9, b7, a8, b10, a9] + [s5, n6, s11, s12] +
    [Plus(t[0], Plus(s7, s8)), Plus(s5, n6), Plus(s11, s12), Minus(s11, s12), Minus(s5, n6)]
  }

  /** Every value that a butterfly stores, in the end its outputs. */
  ghost predicate Stored(fly: Fly, t: seq<Cpx>, f: nat, v: Cpx)
    requires Fitting(fly, |t|, f) && f >= 1
  {
    v in t ||
    match fly
    case Two => v in StoredTwo(t)
    case Three(epi) => v in StoredThree(t, epi, f)
    case Four(inverse) => v in StoredFour(t, inverse)
    case Five(ya, yb) => v in StoredFive(t, ya, yb, f)
    case Other => exists n :: 1 <= n <= |t| && v == Prefix(t, n)
  }

  // ---- distances

  ghost predicate Near0(c: Cpx, r: real) { Within(Exact(c), r) }

  lemma PlusNear(a: Cpx, r: real, b: Cpx, s: real, l: real)
    requires Near0(a, r) && Near0(b, s) && r + s <= l
    ensures Near0(Plus(a, b), l) && Near0(Minus(a, b), l)
  {
    var x, y := Exact(a), Exact(b);
    WithinSum(x, r, y, s);
    WithinTurn(y, s);
    WithinSum(x, r, CNeg(y), s);
    assert CAdd(x, y) == Exact(Plus(a, b)) && CAdd(x, CNeg(y)) == Exact(Minus(a, b));
    WithinMore(Exact(Plus(a, b)), r + s, l);
    WithinMore(Exact(Minus(a, b)), r + s, l);
  }

  lemma QuarterNear(a: Cpx, r: real)
    requires Near0(a, r)
    ensures Near0(Quarter(a), r)
  {
    WithinTurn(Exact(a), r);
    assert Turned(Exact(a)) == Exact(Quarter(a));
  }

  /** Multiplied by the real part of a number y of length at most 1, or by its imaginary part, and rounded. */
  ghost predicate Part(x: Cpx, k: real, a: Cpx) {
    -1.0 <= k <= 1.0 && Near(x.r, k * a.r as real) && Near(x.i, k * a.i as real)
  }

  lemma PartNear(x: Cpx, k: real, a: Cpx, r: real)
    requires Part(x, k, a) && Near0(a, r)
    ensures Near0(x, r + SLACK)
  {
    WithinReal(k);
    WithinProduct(Comp(k, 0.0), 1.0, Exact(a), r);
    assert CMult(Comp(k, 0.0), Exact(a)) == FCMult(k, Exact(a));
    WithinRounded(FCMult(k, Exact(a)), r, x);
  }

  lemma WithinReal(k: real)
    requires -1.0 <= k <= 1.0
    ensures Within(Comp(k, 0.0), 1.0)
  {
    if k >= 0.0 { ProductOrder(k, k, 1.0, 1.0); } else { ProductOrder(-k, -k, 1.0, 1.0); assert (-k) * (-k) == k * k; }
  }

  lemma Collected(a: Comp, b: Comp, c: Comp, d: Comp)
    ensures CAdd(CAdd(a, Turned(b)), CAdd(c, Turned(CNeg(d)))) == CAdd(CAdd(a, c), Turned(CAdd(b, CNeg(d))))
  {
  }

  /** A number and its conjugate act on two terms through their sum and difference. */
  lemma PairIdentity(y: Comp, p: Comp, q: Comp)
    ensures CAdd(CMult(y, p), CMult(CConj(y), q))
         == CAdd(FCMult(y.re, CAdd(p, q)), Turned(FCMult(y.im, CAdd(p, CNeg(q)))))
  {
    var a, b, c, d := FCMult(y.re, p), FCMult(y.im, p), FCMult(y.re, q), FCMult(y.im, q);
    InParts(y, p, a, b);
    InParts(y, q, c, d);
    FactorSum(y.re, p, q);
    FactorSum(y.im, p, q);
    Collected(a, b, c, d);
  }

  /** y times p, and the conjugate of y times q. */
  function PairOf(y: Comp, p: Cpx, q: Cpx): Comp { CAdd(CMult(y, Exact(p)), CMult(CConj(y), Exact(q))) }

  lemma PairWithin(y: Comp, p: Cpx, q: Cpx, r: real)
    requires Within(y, 1.0) && Near0(p, r) && Near0(q, r)
    ensures Within(PairOf(y, p, q), r + r)
  {
    WithinConj(y, 1.0);
    WithinProduct(y, 1.0, Exact(p), r);
    WithinProduct(CConj(y), 1.0, Exact(q), r);
    WithinSum(CMult(y, Exact(p)), r, CMult(CConj(y), Exact(q)), r);
  }

  /** c is z up to an error of length r. */
  ghost predicate Off(c: Cpx, z: Comp, r: real) { exists e: Comp :: Within(e, r) && Exact(c) == CAdd(z, e) }

  lemma OffBy(c: Cpx, z: Comp, r: real, e: Comp)
    requires Within(e, r) && Exact(c) == CAdd(z, e)
    ensures Off(c, z, r)
  {
  }

  lemma OffPlus(a: Cpx, y: Comp, r: real, b: Cpx, z: Comp, s: real)
    requires Off(a, y, r) && Off(b, z, s)
    ensures Off(Plus(a, b), CAdd(y, z), r + s)
  {
    var e: Comp :| Within(e, r) && Exact(a) == CAdd(y, e);
    var g: Comp :| Within(g, s) && Exact(b) == CAdd(z, g);
    WithinSum(e, r, g, s);
    OffBy(Plus(a, b), CAdd(y, z), r + s, CAdd(e, g));
  }

  lemma OffNone(a: Cpx)
    ensures Off(a, Exact(a), 0.0)
  {
    NothingWithin();
    OffBy(a, Exact(a), 0.0, Comp(0.0, 0.0));
  }

  lemma NothingWithin()
    ensures Within(Comp(0.0, 0.0), 0.0)
  {
  }

  lemma OffNear(c: Cpx, z: Comp, r: real, s: real)
    requires Off(c, z, r) && Within(z, s)
    ensures Near0(c, s + r)
  {
    var e: Comp :| Within(e, r) && Exact(c) == CAdd(z, e);
    WithinSum(z, s, e, r);
  }

  /** Rounded separately, the two products are off by twice the rounding error. */
  lemma PairOff(y: Comp, p: Cpx, q: Cpx, x: Cpx, z: Cpx)
    requires Part(x, y.re, Plus(p, q)) && Part(z, y.im, Minus(p, q))
    ensures Off(Plus(x, Quarter(z)), PairOf(y, p, q), 2.0 * SLACK)
  {
    var a, b := FCMult(y.re, Exact(Plus(p, q))), FCMult(y.im, Exact(Minus(p, q)));
    var e := RoundingError(x, a);
    var g := RoundingError(z, b);
    PairIdentity(y, Exact(p), Exact(q));
    assert Exact(Plus(p, q)) == CAdd(Exact(p), Exact(q)) && Exact(Minus(p, q)) == CAdd(Exact(p), CNeg(Exact(q)));
    WithinTurn(g, SLACK);
    WithinSum(e, SLACK, Turned(g), SLACK);
    Reassembled(a, b, e, g, x, z);
    OffBy(Plus(x, Quarter(z)), PairOf(y, p, q), 2.0 * SLACK, CAdd(e, Turned(g)));
  }

  lemma PairNear(y: Comp, p: Cpx, q: Cpx, r: real, x: Cpx, z: Cpx)
    requires Within(y, 1.0) && Near0(p, r) && Near0(q, r)
    requires Part(x, y.re, Plus(p, q)) && Part(z, y.im, Minus(p, q))
    ensures Near0(Plus(x, Quarter(z)), r + r + 2.0 * SLACK)
  {
    PairOff(y, p, q, x, z);
    PairWithin(y, p, q, r);
    OffNear(Plus(x, Quarter(z)), PairOf(y, p, q), 2.0 * SLACK, r + r);
  }

  lemma RoundingError(x: Cpx, a: Comp) returns (e: Comp)
    requires Near(x.r, a.re) && Near(x.i, a.im)
    ensures Within(e, SLACK) && Exact(x) == CAdd(a, e)
  {
    e := Comp(x.r as real - a.re, x.i as real - a.im);
    WithinHalf(e);
  }

  lemma Reassembled(a: Comp, b: Comp, e: Comp, g: Comp, x: Cpx, z: Cpx)
    requires Exact(x) == CAdd(a, e) && Exact(z) == CAdd(b, g)
    ensures CAdd(CAdd(a, Turned(b)), CAdd(e, Turned(g))) == Exact(Plus(x, Quarter(z)))
  {
  }

  ghost predicate AllNear(s: seq<Cpx>, l: real) {
    forall i :: 0 <= i < |s| ==> Near0(s[i], l)
  }

  lemma MoreNear(c: Cpx, r: real, l: real)
    requires Near0(c, r) && r <= l
    ensures Near0(c, l)
  {
    WithinMore(Exact(c), r, l);
  }

  // ---- radix 2, 4 and any other

  lemma TwoNear(t: seq<Cpx>, r: real, l: real)
    requires |t| == 2 && AllNear(t, r) && 2.0 * r <= l
    ensures AllNear(StoredTwo(t), l)
  {
    PlusNear(t[0], r, t[1], r, l);
  }

  lemma FourNear(t: seq<Cpx>, inverse: bool, r: real, l: real)
    requires |t| == 4 && AllNear(t, r) && 0.0 <= r && 4.0 * r <= l
    ensures AllNear(StoredFour(t, inverse), l)
  {
    var s5, sum, s3, s4 := Minus(t[0], t[2]), Plus(t[0], t[2]), Plus(t[1], t[3]), Minus(t[1], t[3]);
    var h := 2.0 * r;
    PlusNear(t[0], r, t[2], r, h);
    PlusNear(t[1], r, t[3], r, h);
    QuarterNear(s4, h);
    PlusNear(sum, h, s3, h, l);
    PlusNear(s5, h, Quarter(s4), h, l);
    MoreNear(s5, h, l);
    MoreNear(sum, h, l);
    MoreNear(s3, h, l);
    MoreNear(s4, h, l);
  }

  /** k times r, as k additions. */
  function Repeat(k: nat, r: real): real { if k == 0 then 0.0 else Repeat(k - 1, r) + r }

  lemma {:induction false} RepeatIs(k: nat, r: real)
    ensures Repeat(k, r) == k as real * r
  {
    if k > 0 {
      RepeatIs(k - 1, r);
      assert (k - 1) as real * r + r == k as real * r;
    }
  }

  lemma {:induction false} RepeatMore(n: nat, k: nat, r: real)
    requires n <= k && r >= 0.0
    ensures Repeat(n, r) <= Repeat(k, r)
  {
    if n < k { RepeatMore(n, k - 1, r); }
  }

  lemma {:induction false} PrefixNear(t: seq<Cpx>, n: nat, r: real)
    requires 1 <= n <= |t| && AllNear(t, r)
    ensures Near0(Prefix(t, n), Repeat(n, r))
  {
    if n > 1 {
      PrefixNear(t, n - 1, r);
      PlusNear(Prefix(t, n - 1), Repeat(n - 1, r), t[n - 1], r, Repeat(n, r));
    } else {
      assert Repeat(1, r) == r;
    }
  }

  // ---- radix 3

  function Neg(a: Cpx): Cpx { Cpx(-a.r, -a.i) }

  lemma NegPart(x: Cpx, k: real, a: Cpx)
    requires Part(x, k, a)
    ensures Part(Neg(x), -k, a)
  {
    Distribute(k, 0.0, a.r as real);
    Distribute(k, 0.0, a.i as real);
  }

  /** Both results of a pair, with the imaginary part added and subtracted. */
  lemma BothNear(y: Comp, p: Cpx, q: Cpx, r: real, x: Cpx, z: Cpx, l: real)
    requires Within(y, 1.0) && Near0(p, r) && Near0(q, r) && r + r + 2.0 * SLACK <= l
    requires Part(x, y.re, Plus(p, q)) && Part(z, y.im, Minus(p, q))
    ensures Near0(Plus(x, Quarter(z)), l) && Near0(Minus(x, Quarter(z)), l)
  {
    PairNear(y, p, q, r, x, z);
    NegPart(z, y.im, Minus(p, q));
    WithinConj(y, 1.0);
    PairNear(CConj(y), p, q, r, x, Neg(z));
    assert Plus(x, Quarter(Neg(z))) == Minus(x, Quarter(z));
    MoreNear(Plus(x, Quarter(z)), r + r + 2.0 * SLACK, l);
    MoreNear(Minus(x, Quarter(z)), r + r + 2.0 * SLACK, l);
  }

  lemma HalfPart(a: Cpx)
    ensures Part(Neg(Halved(a)), -0.5, a)
  {
  }

  lemma ScalarPart(a: Cpx, s: int, f: nat, p: real, u: real, k: real)
    requires Scale(f, p, u) && k == u * s as real && -1.0 <= k <= 1.0
    ensures Part(ByScalar(a, s, f), k, a)
  {
    Regroup(u, p, s as real);
    assert k * p == s as real;
    RoundedTimes(a.r, s, f, p, u, k, Round(a.r * s, f));
    RoundedTimes(a.i, s, f, p, u, k, Round(a.i * s, f));
  }

  lemma ThreeNear(t: seq<Cpx>, epi: Cpx, f: nat, y: Comp, r: real, l: real)
    requires |t| == 3 && f >= 1 && AllNear(t, r) && 0.0 <= r && 3.0 * r + 2.0 * SLACK <= l
    requires Within(y, 1.0) && y.re == -0.5 && Part(ByScalar(Minus(t[1], t[2]), epi.i, f), y.im, Minus(t[1], t[2]))
    ensures AllNear(StoredThree(t, epi, f), l)
  {
    var s3, s0 := Plus(t[1], t[2]), Minus(t[1], t[2]);
    var x, z := Neg(Halved(s3)), ByScalar(s0, epi.i, f);
    var h := r + r;
    PlusNear(t[1], r, t[2], r, h);
    HalfPart(s3);
    PartNear(x, -0.5, s3, h);
    PartNear(z, y.im, s0, h);
    BothNear(y, t[1], t[2], r, x, z, h + 2.0 * SLACK);
    PlusNear(t[0], r, s3, h, l);
    PlusNear(t[0], r, x, h + SLACK, l);
    PlusNear(t[0], r, Plus(x, Quarter(z)), h + 2.0 * SLACK, l);
    PlusNear(t[0], r, Minus(x, Quarter(z)), h + 2.0 * SLACK, l);
    MoreNear(s3, h, l);
    MoreNear(s0, h, l);
    MoreNear(z, h + SLACK, l);
    var mid := Minus(t[0], Halved(s3));
    assert mid == Plus(t[0], x);
    assert Plus(mid, Quarter(z)) == Plus(t[0], Plus(x, Quarter(z)));
    assert Minus(mid, Quarter(z)) == Plus(t[0], Minus(x, Quarter(z)));
  }

  // ---- radix 5

  lemma EntryParts(s: Cpx, y: Cpx, f: nat, p: real, u: real, a: Comp)
    requires Scale(f, p, u) && a == FCMult(u, Exact(y)) && Within(a, 1.0)
    ensures Part(ByScalar(s, y.r, f), a.re, s) && Part(ByScalar(s, y.i, f), a.im, s)
  {
    WithinPart(a, 1.0);
    ScalarPart(s, y.r, f, p, u, a.re);
    ScalarPart(s, y.i, f, p, u, a.im);
  }

  /** The products of the sum and the difference of two terms with the parts of a table entry. */
  ghost predicate Products(y: Comp, p: Cpx, q: Cpx, x: Cpx, z: Cpx) {
    Within(y, 1.0) && Part(x, y.re, Plus(p, q)) && Part(z, y.im, Minus(p, q))
  }

  lemma EntryProducts(t: Cpx, q: Cpx, y: Cpx, f: nat, p: real, u: real, a: Comp)
    requires Scale(f, p, u) && a == FCMult(u, Exact(y)) && Within(a, 1.0)
    ensures Products(a, t, q, ByScalar(Plus(t, q), y.r, f), ByScalar(Minus(t, q), y.i, f))
  {
    EntryParts(Plus(t, q), y, f, p, u, a);
    EntryParts(Minus(t, q), y, f, p, u, a);
  }

  /** What is made of one pair of products. */
  lemma ProductsNear(y: Comp, p: Cpx, q: Cpx, x: Cpx, z: Cpx, r: real, h: real)
    requires Products(y, p, q, x, z) && Near0(p, r) && Near0(q, r) && h == r + r
    ensures Near0(x, h + SLACK) && Near0(z, h + SLACK)
    ensures Near0(Plus(x, Quarter(z)), h + 2.0 * SLACK) && Near0(Minus(x, Quarter(z)), h + 2.0 * SLACK)
  {
    PlusNear(p, r, q, r, h);
    PartNear(x, y.re, Plus(p, q), h);
    PartNear(z, y.im, Minus(p, q), h);
    BothNear(y, p, q, r, x, z, h + 2.0 * SLACK);
  }

  /**
   Two outputs of the radix-5 butterfly and what they are made of; `sign` tells whether the second
   pair's difference is added or subtracted.
   */
  lemma HalfOfFive(t0: Cpx, x: Cpx, z: Cpx, v: Cpx, w: Cpx, minus: bool, r: real, h: real, l: real)
    requires Near0(t0, r) && 0.0 <= r && h == r + r && 5.0 * r + 4.0 * SLACK <= l
    requires Near0(x, h + SLACK) && Near0(z, h + SLACK) && Near0(v, h + SLACK) && Near0(w, h + SLACK)
    requires Near0(Plus(x, Quarter(z)), h + 2.0 * SLACK) && Near0(Minus(x, Quarter(z)), h + 2.0 * SLACK)
    requires Near0(Plus(v, Quarter(w)), h + 2.0 * SLACK) && Near0(Minus(v, Quarter(w)), h + 2.0 * SLACK)
    ensures var s, n := Plus(Plus(t0, x), v), Quarter(if minus then Minus(z, w) else Plus(z, w));
            Near0(s, l) && Near0(n, l) && Near0(Plus(s, n), l) && Near0(Minus(s, n), l)
  {
    var g := h + 2.0 * SLACK;
    var s, n := Plus(Plus(t0, x), v), Quarter(if minus then Minus(z, w) else Plus(z, w));
    PlusNear(t0, r, x, h + SLACK, r + h + SLACK);
    PlusNear(Plus(t0, x), r + h + SLACK, v, h + SLACK, l);
    PlusNear(z, h + SLACK, w, h + SLACK, l);
    QuarterNear(if minus then Minus(z, w) else Plus(z, w), l);
    var a, b := Plus(x, Quarter(z)), Minus(x, Quarter(z));
    var c, d := Plus(v, Quarter(w)), Minus(v, Quarter(w));
    PlusNear(t0, r, a, g, r + g);
    PlusNear(t0, r, b, g, r + g);
    PlusNear(Plus(t0, a), r + g, c, g, l);
    PlusNear(Plus(t0, a), r + g, d, g, l);
    PlusNear(Plus(t0, b), r + g, c, g, l);
    PlusNear(Plus(t0, b), r + g, d, g, l);
    Regrouped(t0, x, z, v, w);
  }

  lemma Regrouped(t0: Cpx, x: Cpx, z: Cpx, v: Cpx, w: Cpx)
    ensures var s := Plus(Plus(t0, x), v);
            var a, b, c, d := Plus(x, Quarter(z)), Minus(x, Quarter(z)), Plus(v, Quarter(w)), Minus(v, Quarter(w));
            Plus(s, Quarter(Plus(z, w))) == Plus(Plus(t0, a), c) && Minus(s, Quarter(Plus(z, w))) == Plus(Plus(t0, b), d) &&
            Plus(s, Quarter(Minus(z, w))) == Plus(Plus(t0, a), d) && Minus(s, Quarter(Minus(z, w))) == Plus(Plus(t0, b), c)
  {
  }

  lemma FiveNear(t: seq<Cpx>, ya: Cpx, yb: Cpx, f: nat, p: real, u: real, a: Comp, b: Comp, r: real, l: real)
    requires |t| == 5 && Scale(f, p, u) && AllNear(t, r) && 0.0 <= r && 5.0 * r + 4.0 * SLACK <= l
    requires a == FCMult(u, Exact(ya)) && b == FCMult(u, Exact(yb)) && Within(a, 1.0) && Within(b, 1.0)
    ensures AllNear(StoredFive(t, ya, yb, f), l)
  {
    var s7, s10, s8, s9 := Plus(t[1], t[4]), Minus(t[1], t[4]), Plus(t[2], t[3]), Minus(t[2], t[3]);
    var a7, b8, a10, b9 := ByScalar(s7, ya.r, f), ByScalar(s8, yb.r, f), ByScalar(s10, ya.i, f), ByScalar(s9, yb.i, f);
    var b7, a8, b10, a9 := ByScalar(s7, yb.r, f), ByScalar(s8, ya.r, f), ByScalar(s10, yb.i, f), ByScalar(s9, ya.i, f);
    var h := r + r;
    EntryProducts(t[1], t[4], ya, f, p, u, a);
    EntryProducts(t[1], t[4], yb, f, p, u, b);
    EntryProducts(t[2], t[3], ya, f, p, u, a);
    EntryProducts(t[2], t[3], yb, f, p, u, b);
    ProductsNear(a, t[1], t[4], a7, a10, r, h);
    ProductsNear(b, t[1], t[4], b7, b10, r, h);
    ProductsNear(a, t[2], t[3], a8, a9, r, h);
    ProductsNear(b, t[2], t[3], b8, b9, r, h);
    HalfOfFive(t[0], a7, a10, b8, b9, false, r, h, l);
    HalfOfFive(t[0], b7, b10, a8, a9, true, r, h, l);
    FiveSums(t, r, h, l);
    AllMore([a7, b8, a10, b9, b7, a8, b10, a9], h + SLACK, l);
  }

  lemma AllMore(s: seq<Cpx>, r: real, l: real)
    requires AllNear(s, r) && r <= l
    ensures AllNear(s, l)
  {
    forall i | 0 <= i < |s| ensures Near0(s[i], l) { MoreNear(s[i], r, l); }
  }

  lemma FiveSums(t: seq<Cpx>, r: real, h: real, l: real)
    requires |t| == 5 && AllNear(t, r) && 0.0 <= r && h == r + r && 5.0 * r <= l
    ensures AllNear([Plus(t[1], t[4]), Minus(t[1], t[4]), Plus(t[2], t[3]), Minus(t[2], t[3])], l)
    ensures Near0(Plus(t[0], Plus(Plus(t[1], t[4]), Plus(t[2], t[3]))), l)
  {
    PlusNear(t[1], r, t[4], r, h);
    PlusNear(t[2], r, t[3], r, h);
    PlusNear(Plus(t[1], t[4]), h, Plus(t[2], t[3]), h, h + h);
    PlusNear(t[0], r, Plus(Plus(t[1], t[4]), Plus(t[2], t[3])), h + h, l);
    AllMore([Plus(t[1], t[4]), Minus(t[1], t[4]), Plus(t[2], t[3]), Minus(t[2], t[3])], h, l);
  }

  // ---- one stage

  lemma ScaledNear(x: Cpx, r: real, k: nat, f: nat, p: real, u: real, v: real, h: real)
    requires Scale(f, p, u) && k >= 1 && v >= 0.0 && v * p == Step(f, k) as real && Near0(x, r) && h == v * r + SLACK
    ensures Near0(Scaled(x, k, f), h)
  {
    ScaledWithin(x, r, k, f, p, u, v);
  }

  lemma RotatedNear(x: Cpx, h: real, t: Cpx, f: nat, p: real, u: real)
    requires Scale(f, p, u) && Near0(x, h) && Twiddle(t, f)
    ensures Near0(CMul(x, t, f), h + SLACK)
  {
    TwiddleWithin(t, f, p);
    RotatedWithin(x, h, t, p - 1.0 + SLACK, f, p, u);
  }

  lemma TermsNear(x: seq<Cpx>, tw: seq<Cpx>, f: nat, p: real, u: real, v: real, r: real, h: real)
    requires Scale(f, p, u) && 1 <= |x| == |tw| && AllNear(x, r) && forall i :: 0 <= i < |tw| ==> Twiddle(tw[i], f)
    requires v >= 0.0 && v * p == Step(f, |x|) as real && h == v * r + SLACK
    ensures AllNear(Terms(x, tw, f), h + SLACK)
  {
    forall i | 0 <= i < |x| ensures Near0(Terms(x, tw, f)[i], h + SLACK) {
      ScaledNear(x[i], r, |x|, f, p, u, v, h);
      if i == 0 { MoreNear(Scaled(x[0], |x|, f), h, h + SLACK); } else { RotatedNear(Scaled(x[i], |x|, f), h, tw[i], f, p, u); }
    }
  }

  lemma EntryLength(y: Cpx, f: nat, p: real, u: real)
    requires Scale(f, p, u) && Twiddle(y, f)
    ensures Within(FCMult(u, Exact(y)), 1.0)
  {
    TwiddleWithin(y, f, p);
    var w := p - 1.0 + SLACK;
    WithinMore(Exact(y), w, p);
    WithinFactor(u, Exact(y), p);
  }

  /** The imaginary part of a third of a turn, rounded, goes with the exact real part -1/2. */
  lemma ThirdLength(epi: Cpx, f: nat, p: real, u: real) returns (y: Comp)
    requires Scale(f, p, u) && Third(epi, f)
    ensures y.re == -0.5 && y.im == u * epi.i as real && Within(y, 1.0) && -1.0 <= y.im <= 1.0
  {
    var s := SampMax(f) as real;
    var c := ThirdEntry(epi, f, s);
    y := ThirdOf(epi.i, c, s, p, u);
  }

  lemma ThirdEntry(epi: Cpx, f: nat, s: real) returns (c: real)
    requires Third(epi, f) && s == SampMax(f) as real
    ensures c * c == 0.75 && epi.i == (0.5 + s * c).Floor
  {
    var z: Comp :| Power(z) == 1.0 && z.re == -0.5 && Rounds(epi, FCMult(SampMax(f) as real, z));
    c := z.im;
  }

  lemma ThirdOf(n: int, c: real, s: real, p: real, u: real) returns (y: Comp)
    requires s >= 0.0 && s + 1.0 == p && u > 0.0 && u * p == 1.0 && c * c == 0.75 && n == (0.5 + s * c).Floor
    ensures y == Comp(-0.5, u * n as real) && Within(y, 1.0) && -1.0 <= y.im <= 1.0
  {
    var d := if c >= 0.0 then c else -c;
    assert d * d == 0.75 by { assert (-c) * (-c) == c * c; }
    AtLeastHalf(d);
    ThirdFloor(n, s, c, d, p, p * d);
    var k := u * n as real;
    ScaledDown(n as real, p * d, d, p, u, k);
    ThirdWithin(k, d);
    y := Comp(-0.5, k);
  }

  lemma ThirdFloor(n: int, s: real, c: real, d: real, p: real, x: real)
    requires s >= 0.0 && s + 1.0 == p && d >= 0.5 && (c == d || c == -d) && x == p * d && n == (0.5 + s * c).Floor
    ensures -x <= n as real <= x
  {
    var m := s * d;
    assert m == x - d && m >= 0.0;
    assert s * c == m || s * c == -m;
  }

  lemma ScaledDown(n: real, x: real, d: real, p: real, u: real, k: real)
    requires u > 0.0 && u * p == 1.0 && x == p * d && -x <= n <= x && k == u * n
    ensures -d <= k <= d
  {
    Regroup(u, p, d);
    Spread(u, 0.0, n, x);
  }

  lemma ThirdWithin(k: real, d: real)
    requires -d <= k <= d <= 1.0 && d * d == 0.75
    ensures Within(Comp(-0.5, k), 1.0) && -1.0 <= k <= 1.0
  {
    if k >= 0.0 { ProductOrder(k, k, d, d); } else { ProductOrder(-k, -k, d, d); assert (-k) * (-k) == k * k; }
  }

  lemma AtLeastHalf(d: real)
    requires d * d == 0.75 && d >= 0.0
    ensures 0.5 <= d <= 1.0
  {
    if d < 0.5 { ProductOrder(d, d, 0.5, 0.5); } else if d > 1.0 { ProductOrder(1.0, 1.0, d, d); }
  }

  lemma ThreeCase(t: seq<Cpx>, epi: Cpx, f: nat, r: real, l: real)
    requires |t| == 3 && f >= 1 && Third(epi, f) && AllNear(t, r) && 0.0 <= r && 3.0 * r + 2.0 * SLACK <= l
    ensures AllNear(StoredThree(t, epi, f), l)
  {
    var p, u := ScaleOf(f);
    var y := ThirdLength(epi, f, p, u);
    ScalarPart(Minus(t[1], t[2]), epi.i, f, p, u, y.im);
    ThreeNear(t, epi, f, y, r, l);
  }

  lemma FiveCase(t: seq<Cpx>, ya: Cpx, yb: Cpx, f: nat, r: real, l: real)
    requires |t| == 5 && f >= 1 && Twiddle(ya, f) && Twiddle(yb, f)
    requires AllNear(t, r) && 0.0 <= r && 5.0 * r + 4.0 * SLACK <= l
    ensures AllNear(StoredFive(t, ya, yb, f), l)
  {
    var p, u := ScaleOf(f);
    EntryLength(ya, f, p, u);
    EntryLength(yb, f, p, u);
    FiveNear(t, ya, yb, f, p, u, FCMult(u, Exact(ya)), FCMult(u, Exact(yb)), r, l);
  }

  lemma OtherCase(t: seq<Cpx>, n: nat, r: real, l: real)
    requires 1 <= n <= |t| && AllNear(t, r) && 0.0 <= r && Repeat(|t|, r) <= l
    ensures Near0(Prefix(t, n), l)
  {
    PrefixNear(t, n, r);
    RepeatMore(n, |t|, r);
    MoreNear(Prefix(t, n), Repeat(n, r), l);
  }

  lemma TermCase(t: seq<Cpx>, v: Cpx, r: real, l: real)
    requires v in t && AllNear(t, r) && 0.0 <= r && Repeat(|t|, r) <= l
    ensures Near0(v, l)
  {
    RepeatMore(1, |t|, r);
    assert Repeat(1, r) == r;
    MoreNear(v, r, l);
  }

  lemma OneNear(s: seq<Cpx>, v: Cpx, l: real)
    requires AllNear(s, l) && v in s
    ensures Near0(v, l)
  {
  }

  lemma FewTimes(r: real)
    ensures Repeat(2, r) == 2.0 * r && Repeat(3, r) == 3.0 * r && Repeat(4, r) == 4.0 * r && Repeat(5, r) == 5.0 * r
  {
    assert Repeat(1, r) == r;
    assert Repeat(2, r) == Repeat(1, r) + r;
    assert Repeat(3, r) == Repeat(2, r) + r;
    assert Repeat(4, r) == Repeat(3, r) + r;
    assert Repeat(5, r) == Repeat(4, r) + r;
  }

  /** Whatever a butterfly stores is no farther from zero than all its terms together, and the rounding. */
  lemma StoredNear(fly: Fly, t: seq<Cpx>, f: nat, r: real, l: real, v: Cpx)
    requires f >= 1 && Fitting(fly, |t|, f) && AllNear(t, r) && 0.0 <= r && Repeat(|t|, r) + 4.0 * SLACK <= l
    requires Stored(fly, t, f, v)
    ensures Near0(v, l)
  {
    FewTimes(r);
    if v in t {
      TermCase(t, v, r, l);
    } else {
      match fly
      case Two => TwoNear(t, r, l); OneNear(StoredTwo(t), v, l);
      case Three(epi) => ThreeCase(t, epi, f, r, l); OneNear(StoredThree(t, epi, f), v, l);
      case Four(inverse) => FourNear(t, inverse, r, l); OneNear(StoredFour(t, inverse), v, l);
      case Five(ya, yb) => FiveCase(t, ya, yb, f, r, l); OneNear(StoredFive(t, ya, yb, f), v, l);
      case Other =>
        var n :| 1 <= n <= |t| && v == Prefix(t, n);
        OtherCase(t, n, r, l);
    }
  }

  /** What one stage of radix k can add to the distance from zero. */
  function Rise(k: nat): nat { 2 * k + 3 }

  lemma StageRise(k: nat, v: real, r: real, h: real)
    requires k >= 1 && v >= 0.0 && r >= 0.0 && k as real * v <= 1.0 && h == v * r + SLACK
    ensures Repeat(k, h + SLACK) + 4.0 * SLACK <= r + Rise(k) as real
  {
    RepeatIs(k, h + SLACK);
    Regroup(k as real, v, r);
    ProductOrder(k as real * v, r, 1.0, r);
    Distribute(k as real, v * r, 2.0 * SLACK);
  }

  /** One stage: values within r of zero give values within r + 2k + 3. */
  lemma StageStays(fly: Fly, x: seq<Cpx>, tw: seq<Cpx>, f: nat, r: real, v: Cpx)
    requires f >= 1 && 1 <= |x| == |tw| && Fitting(fly, |x|, f) && Stored(fly, Terms(x, tw, f), f, v)
    requires r >= 0.0 && AllNear(x, r) && forall i :: 0 <= i < |tw| ==> Twiddle(tw[i], f)
    ensures Near0(v, r + Rise(|x|) as real)
  {
    var h := StageTerms(x, tw, f, r);
    StoredNear(fly, Terms(x, tw, f), f, h, r + Rise(|x|) as real, v);
  }

  lemma StageTerms(x: seq<Cpx>, tw: seq<Cpx>, f: nat, r: real) returns (h: real)
    requires f >= 1 && 1 <= |x| == |tw| && r >= 0.0 && AllNear(x, r) && forall i :: 0 <= i < |tw| ==> Twiddle(tw[i], f)
    ensures AllNear(Terms(x, tw, f), h) && 0.0 <= h && Repeat(|x|, h) + 4.0 * SLACK <= r + Rise(|x|) as real
  {
    var p, u := ScaleOf(f);
    var a := FactorOf(|x|, f, p, u);
    var g := a * r + SLACK;
    ProductOrder(0.0, 0.0, a, r);
    TermsNear(x, tw, f, p, u, a, r, g);
    StageRise(|x|, a, r, g);
    h := g + SLACK;
  }

  // ---- any number of stages

  /** A value of a transform: a sample, or what some butterfly stores when it is given other such values. */
  datatype Node = Input(value: Cpx) | Value(from: seq<Node>, tw: seq<Cpx>, fly: Fly, value: Cpx)

  ghost function Values(from: seq<Node>): seq<Cpx> {
    seq(|from|, i requires 0 <= i < |from| => from[i].value)
  }

  /** Every butterfly below a value is made as the source makes it, and every sample lies in the disc. */
  ghost predicate Made(n: Node, f: nat, r: nat) {
    match n
    case Input(c) => Disc(c, r)
    case Value(from, tw, fly, v) =>
      f >= 1 && 1 <= |from| == |tw| && Fitting(fly, |from|, f) && (forall i :: 0 <= i < |tw| ==> Twiddle(tw[i], f)) &&
      Stored(fly, Terms(Values(from), tw, f), f, v) && forall i :: 0 <= i < |from| ==> Made(from[i], f, r)
  }

  /** The stages below a value cannot add more than m to the distance from zero. */
  ghost predicate Rises(n: Node, m: nat) {
    n.Value? ==> Rise(|n.from|) <= m && forall i :: 0 <= i < |n.from| ==> Rises(n.from[i], m - Rise(|n.from|))
  }

  /**
   No value of a whole transform, whatever its length and its factors, leaves the sample range, if the
   samples lie in a disc that leaves room for 2k + 3 per stage of radix k.
   */
  lemma TransformStays(n: Node, f: nat, r: nat, m: nat)
    requires Made(n, f, r) && Rises(n, m) && r + m <= SampMax(f)
    ensures Disc(n.value, r + m) && Inside(n.value, f)
  {
    TransformNear(n, f, r, m);
    DiscWithin(n.value, r + m);
    DiscInside(n.value, r + m, f);
  }

  lemma {:induction false} TransformNear(n: Node, f: nat, r: nat, m: nat)
    requires Made(n, f, r) && Rises(n, m)
    ensures Near0(n.value, (r + m) as real)
    decreases n
  {
    if n.Value? {
      var k := |n.from|;
      forall i | 0 <= i < k ensures Near0(Values(n.from)[i], (r + m - Rise(k)) as real) {
        TransformNear(n.from[i], f, r, m - Rise(k));
      }
      StageStays(n.fly, Values(n.from), n.tw, f, (r + m - Rise(k)) as real, n.value);
    } else {
      DiscWithin(n.value, r);
      MoreNear(n.value, r as real, (r + m) as real);
    }
  }

  // ---- a single butterfly on full-scale samples

  /** The radix-2 butterfly stays in range exactly when these comparisons on the exact product hold. */
  lemma ButterflyTwoIff(x: seq<Cpx>, tw: seq<Cpx>, f: nat)
    requires f >= 1 && |x| == |tw| == 2
    ensures var g, y := Scaled(x[0], 2, f), Product(Scaled(x[1], 2, f), tw[1]);
            (forall v :: v in StoredTwo(Terms(x, tw, f)) ==> Inside(v, f)) <==>
            SumFits(g.r, y.r, f) && SumFits(g.i, y.i, f) && DifferenceFits(g.r, y.r, f) && DifferenceFits(g.i, y.i, f)
  {
    var g, y := Scaled(x[0], 2, f), Product(Scaled(x[1], 2, f), tw[1]);
    SumInRangeIff(g.r, y.r, f);
    SumInRangeIff(g.i, y.i, f);
    DifferenceInRangeIff(g.r, y.r, f);
    DifferenceInRangeIff(g.i, y.i, f);
    var t := Terms(x, tw, f);
    assert t[0] == g && t[1] == Cpx(Round(y.r, f), Round(y.i, f));
    assert Plus(t[0], t[1]) in StoredTwo(t) && Minus(t[0], t[1]) in StoredTwo(t);
  }

  /** The first sample may be anywhere in the range, the rotated ones anywhere in the full disc. */
  ghost predicate FullScale(x: seq<Cpx>, tw: seq<Cpx>, f: nat) {
    1 <= |x| == |tw| && Inside(x[0], f) &&
    forall i :: 1 <= i < |x| ==> Disc(x[i], SampMax(f)) && Twiddle(tw[i], f)
  }

  lemma TermsBounded(x: seq<Cpx>, tw: seq<Cpx>, f: nat, i: nat)
    requires f >= 1 && FullScale(x, tw, f) && 2 <= |x| <= 5 && i < |x|
    ensures Bounded(Terms(x, tw, f)[i], Step(f, |x|))
  {
    if i == 0 {
      DivScalarBound(x[0].r, |x|, f);
      DivScalarBound(x[0].i, |x|, f);
    } else {
      RotatedBound(x[i], tw[i], |x|, f);
    }
  }

  /** In radix 2 the scaling is enough for a rotated sample of the full disc. */
  lemma FullScaleTwo(x: seq<Cpx>, tw: seq<Cpx>, f: nat, v: Cpx)
    requires f >= 1 && |x| == 2 && FullScale(x, tw, f) && Stored(Two, Terms(x, tw, f), f, v)
    ensures Inside(v, f)
  {
    TermsBounded(x, tw, f, 0);
    TermsBounded(x, tw, f, 1);
    StepAtMost(SampMax(f), 2);
  }

  /** So it is in radix 4, in both directions and for every intermediate value. */
  lemma FullScaleFour(x: seq<Cpx>, tw: seq<Cpx>, f: nat, inverse: bool, v: Cpx)
    requires f >= 1 && |x| == 4 && FullScale(x, tw, f) && Stored(Four(inverse), Terms(x, tw, f), f, v)
    ensures Inside(v, f)
  {
    forall i | 0 <= i < 4 ensures Bounded(Terms(x, tw, f)[i], Step(f, 4)) { TermsBounded(x, tw, f, i); }
    StepAtMost(SampMax(f), 4);
    FourBounded(Terms(x, tw, f), inverse, Step(f, 4), SampMax(f));
  }

  lemma FourBounded(t: seq<Cpx>, inverse: bool, q: int, s: int)
    requires |t| == 4 && 0 <= q && 4 * q <= s && forall i :: 0 <= i < 4 ==> Bounded(t[i], q)
    ensures forall i :: 0 <= i < 8 ==> Bounded(StoredFour(t, inverse)[i], s)
  {
    var s5, sum, s3, s4 := Minus(t[0], t[2]), Plus(t[0], t[2]), Plus(t[1], t[3]), Minus(t[1], t[3]);
    assert Bounded(s5, 2 * q) && Bounded(sum, 2 * q) && Bounded(s3, 2 * q) && Bounded(s4, 2 * q);
  }

  // ---- what the butterflies compute

  /** A number with its conjugate, and the rounded parts it stands for. */
  lemma BothOff(y: Comp, p: Cpx, q: Cpx, x: Cpx, z: Cpx)
    requires Part(x, y.re, Plus(p, q)) && Part(z, y.im, Minus(p, q))
    ensures Off(Plus(x, Quarter(z)), PairOf(y, p, q), 2.0 * SLACK)
    ensures Off(Minus(x, Quarter(z)), PairOf(CConj(y), p, q), 2.0 * SLACK)
  {
    PairOff(y, p, q, x, z);
    NegPart(z, y.im, Minus(p, q));
    PairOff(CConj(y), p, q, x, Neg(z));
    assert Plus(x, Quarter(Neg(z))) == Minus(x, Quarter(z));
  }

  /** The sum of the first term and one pair. */
  lemma FirstAndPair(t0: Cpx, c: Cpx, z: Comp, out: Cpx)
    requires Off(c, z, 2.0 * SLACK) && out == Plus(t0, c)
    ensures Off(out, CAdd(Exact(t0), z), 2.0 * SLACK)
  {
    OffNone(t0);
    OffPlus(t0, Exact(t0), 0.0, c, z, 2.0 * SLACK);
  }

  /** The radix-4 butterfly is exact: its outputs are the terms turned by multiples of a quarter. */
  lemma FourTurns(t: seq<Cpx>, inverse: bool)
    requires |t| == 4
    ensures var s, turn := StoredFour(t, inverse), if inverse then Quarter(Minus(t[1], t[3])) else Quarter(Minus(t[3], t[1]));
            s[4] == Plus(Plus(t[0], t[1]), Plus(t[2], t[3])) && s[5] == Plus(Minus(t[0], t[2]), turn) &&
            s[6] == Minus(Plus(t[0], t[2]), Plus(t[1], t[3])) && s[7] == Minus(Minus(t[0], t[2]), turn)
  {
  }

  /** The radix-3 butterfly: the terms turned by thirds, up to two rounding errors. */
  lemma ThreeTurns(t: seq<Cpx>, epi: Cpx, f: nat, y: Comp)
    requires |t| == 3 && f >= 1 && y.re == -0.5
    requires Part(ByScalar(Minus(t[1], t[2]), epi.i, f), y.im, Minus(t[1], t[2]))
    ensures StoredThree(t, epi, f)[4] == Plus(t[0], Plus(t[1], t[2]))
    ensures Off(StoredThree(t, epi, f)[5], CAdd(Exact(t[0]), PairOf(y, t[1], t[2])), 2.0 * SLACK)
    ensures Off(StoredThree(t, epi, f)[6], CAdd(Exact(t[0]), PairOf(CConj(y), t[1], t[2])), 2.0 * SLACK)
  {
    var s3, s0 := Plus(t[1], t[2]), Minus(t[1], t[2]);
    var x, z := Neg(Halved(s3)), ByScalar(s0, epi.i, f);
    HalfPart(s3);
    BothOff(y, t[1], t[2], x, z);
    FirstAndPair(t[0], Plus(x, Quarter(z)), PairOf(y, t[1], t[2]), StoredThree(t, epi, f)[5]);
    FirstAndPair(t[0], Minus(x, Quarter(z)), PairOf(CConj(y), t[1], t[2]), StoredThree(t, epi, f)[6]);
  }

  /** The exact value of an output of radix 5: y on the outer pair of terms, z on the inner pair. */
  function FiveSum(t: seq<Cpx>, y: Comp, z: Comp): Comp
    requires |t| == 5
  {
    CAdd(Exact(t[0]), CAdd(PairOf(y, t[1], t[4]), PairOf(z, t[2], t[3])))
  }

  lemma TwoPairs(t: seq<Cpx>, c: Cpx, y: Comp, d: Cpx, z: Comp, out: Cpx)
    requires |t| == 5 && Off(c, PairOf(y, t[1], t[4]), 2.0 * SLACK) && Off(d, PairOf(z, t[2], t[3]), 2.0 * SLACK)
    requires out == Plus(t[0], Plus(c, d))
    ensures Off(out, FiveSum(t, y, z), 4.0 * SLACK)
  {
    OffNone(t[0]);
    OffPlus(c, PairOf(y, t[1], t[4]), 2.0 * SLACK, d, PairOf(z, t[2], t[3]), 2.0 * SLACK);
    OffPlus(t[0], Exact(t[0]), 0.0, Plus(c, d), CAdd(PairOf(y, t[1], t[4]), PairOf(z, t[2], t[3])), 4.0 * SLACK);
  }

  /** The radix-5 butterfly: the terms turned by fifths, up to four rounding errors. */
  lemma FiveTurns(t: seq<Cpx>, ya: Cpx, yb: Cpx, f: nat, p: real, u: real, a: Comp, b: Comp)
    requires |t| == 5 && Scale(f, p, u) && a == FCMult(u, Exact(ya)) && b == FCMult(u, Exact(yb))
    requires Within(a, 1.0) && Within(b, 1.0)
    ensures var s := StoredFive(t, ya, yb, f);
            s[16] == Plus(t[0], Plus(Plus(t[1], t[4]), Plus(t[2], t[3]))) &&
            Off(s[17], FiveSum(t, a, b), 4.0 * SLACK) && Off(s[18], FiveSum(t, b, CConj(a)), 4.0 * SLACK) &&
            Off(s[19], FiveSum(t, CConj(b), a), 4.0 * SLACK) && Off(s[20], FiveSum(t, CConj(a), CConj(b)), 4.0 * SLACK)
  {
    var s := StoredFive(t, ya, yb, f);
    var s7, s10, s8, s9 := Plus(t[1], t[4]), Minus(t[1], t[4]), Plus(t[2], t[3]), Minus(t[2], t[3]);
    var a7, b8, a10, b9 := ByScalar(s7, ya.r, f), ByScalar(s8, yb.r, f), ByScalar(s10, ya.i, f), ByScalar(s9, yb.i, f);
    var b7, a8, b10, a9 := ByScalar(s7, yb.r, f), ByScalar(s8, ya.r, f), ByScalar(s10, yb.i, f), ByScalar(s9, ya.i, f);
    EntryProducts(t[1], t[4], ya, f, p, u, a);
    EntryProducts(t[1], t[4], yb, f, p, u, b);
    EntryProducts(t[2], t[3], ya, f, p, u, a);
    EntryProducts(t[2], t[3], yb, f, p, u, b);
    BothOff(a, t[1], t[4], a7, a10);
    BothOff(b, t[1], t[4], b7, b10);
    BothOff(a, t[2], t[3], a8, a9);
    BothOff(b, t[2], t[3], b8, b9);
    Regrouped(t[0], a7, a10, b8, b9);
    Regrouped(t[0], b7, b10, a8, a9);
    TwoPairs(t, Plus(a7, Quarter(a10)), a, Plus(b8, Quarter(b9)), b, s[17]);
    TwoPairs(t, Plus(b7, Quarter(b10)), b, Minus(a8, Quarter(a9)), CConj(a), s[18]);
    TwoPairs(t, Minus(b7, Quarter(b10)), CConj(b), Plus(a8, Quarter(a9)), a, s[19]);
    TwoPairs(t, Minus(a7, Quarter(a10)), CConj(a), Minus(b8, Quarter(b9)), CConj(b), s[20]);
  }

  /** Dividing a sample by the radix multiplies it by v, and rounds. */
  lemma ScaledOff(c: Cpx, k: nat, f: nat, p: real, u: real, v: real)
    requires Scale(f, p, u) && k >= 1 && v * p == Step(f, k) as real
    ensures Off(Scaled(c, k, f), FCMult(v, Exact(c)), SLACK)
  {
    PartScaled(c.r, k, f, p, u, v);
    PartScaled(c.i, k, f, p, u, v);
    var e := RoundingError(Scaled(c, k, f), FCMult(v, Exact(c)));
    OffBy(Scaled(c, k, f), FCMult(v, Exact(c)), SLACK, e);
  }

  /** C_MUL multiplies by the table entry over 2^F, and rounds. */
  lemma RotatedOff(a: Cpx, t: Cpx, f: nat, p: real, u: real)
    requires Scale(f, p, u)
    ensures Off(CMul(a, t, f), CMult(Exact(a), FCMult(u, Exact(t))), SLACK)
  {
    var x := Product(a, t);
    RoundIsNear(x.r, f, p, u);
    RoundIsNear(x.i, f, p, u);
    ProductExact(a, t);
    FactorInside(u, Exact(a), Exact(t));
    var e := RoundingError(CMul(a, t, f), FCMult(u, Exact(x)));
    OffBy(CMul(a, t, f), CMult(Exact(a), FCMult(u, Exact(t))), SLACK, e);
  }

  lemma FactorInside(u: real, a: Comp, t: Comp)
    ensures FCMult(u, CMult(a, t)) == CMult(a, FCMult(u, t))
  {
    OneProduct(u, a.re, t.re);
    OneProduct(u, a.im, t.im);
    OneProduct(u, a.re, t.im);
    OneProduct(u, a.im, t.re);
  }

  lemma OneProduct(u: real, x: real, y: real)
    ensures u * (x * y) == x * (u * y)
  {
  }

  lemma OffTimes(a: Cpx, z: Comp, d: Cpx, t: Comp)
    requires Off(a, z, SLACK) && Within(t, 1.0) && Off(d, CMult(Exact(a), t), SLACK)
    ensures Off(d, CMult(z, t), 2.0 * SLACK)
  {
    var e: Comp :| Within(e, SLACK) && Exact(a) == CAdd(z, e);
    var g: Comp :| Within(g, SLACK) && Exact(d) == CAdd(CMult(Exact(a), t), g);
    MultDistributes(z, e, t);
    WithinProduct(e, SLACK, t, 1.0);
    WithinSum(CMult(e, t), SLACK, g, SLACK);
    OffBy(d, CMult(z, t), 2.0 * SLACK, CAdd(CMult(e, t), g));
  }

  /** Term i of a butterfly is sample i, divided by the radix and turned by twiddle factor i, up to two rounding errors. */
  lemma TermIs(x: seq<Cpx>, tw: seq<Cpx>, f: nat, p: real, u: real, v: real, i: nat)
    requires Scale(f, p, u) && 1 <= |x| == |tw| && v * p == Step(f, |x|) as real && i < |x| && (i > 0 ==> Twiddle(tw[i], f))
    ensures var t := Terms(x, tw, f)[i];
            if i == 0 then Off(t, FCMult(v, Exact(x[0])), SLACK)
            else Off(t, CMult(FCMult(v, Exact(x[i])), FCMult(u, Exact(tw[i]))), 2.0 * SLACK)
  {
    ScaledOff(x[i], |x|, f, p, u, v);
    if i > 0 {
      var a := Scaled(x[i], |x|, f);
      EntryLength(tw[i], f, p, u);
      RotatedOff(a, tw[i], f, p, u);
      OffTimes(a, FCMult(v, Exact(x[i])), Terms(x, tw, f)[i], FCMult(u, Exact(tw[i])));
    }
  }
}
