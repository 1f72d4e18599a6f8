/**
 The butterflies of radix 3 and 5, which use that the powers of a root of unity come in conjugate pairs.
 */
module OddRadix {
  import opened Fourier
  import opened Butterfly
  import opened KissFft

  // ---- conjugate pairs

  lemma TurnAt<T(!new)>(c: Cfg<T>, w: int -> T, e: int, x: T, y: T)
    requires Exact(c, w)
    ensures TurnLaws(c, w, e, x, y)
  {
    assert AtTurn(e, x, y);
  }

  /** An additive operation keeps zero and negatives. */
  lemma SideNeg<T(!new)>(c: Cfg<T>, w: int -> T, e: int, x: T)
    requires Exact(c, w)
    ensures c.side(w(e), c.ring.neg(x)) == c.ring.neg(c.side(w(e), x))
  {
    var r, t := c.ring, w(e);
    TurnAt(c, w, e, r.zero, r.zero);
    TurnAt(c, w, e, x, r.neg(x));
    Laws(r, r.zero, r.zero, r.zero);
    Laws(r, x, x, x);
    var z := c.side(t, r.zero);
    assert r.add(z, z) == z;
    DoubleIsZero(r, z);
    NegUnique(r, c.side(t, x), c.side(t, r.neg(x)));
  }

  lemma DoubleIsZero<T(!new)>(r: Ring<T>, z: T)
    requires IsRing(r) && r.add(z, z) == z
    ensures z == r.zero
  {
    Laws(r, z, z, r.neg(z));
    Laws(r, z, r.zero, z);
  }

  lemma SideDifference<T(!new)>(c: Cfg<T>, w: int -> T, e: int, x: T, y: T)
    requires Exact(c, w)
    ensures c.side(w(e), c.ring.add(x, c.ring.neg(y))) == c.ring.add(c.side(w(e), x), c.ring.neg(c.side(w(e), y)))
  {
    TurnAt(c, w, e, x, c.ring.neg(y));
    SideNeg(c, w, e, y);
  }

  /** A power of p and the opposite power of q: the real parts act on the sum, the imaginary on the difference. */
  lemma Pair<T(!new)>(c: Cfg<T>, w: int -> T, e: int, p: T, q: T)
    requires Exact(c, w)
    ensures var r, t := c.ring, w(e);
            r.add(r.mul(w(e), p), r.mul(w(-e), q)) == r.add(c.scale(t, r.add(p, q)), c.side(t, r.add(p, r.neg(q))))
  {
    var r, t := c.ring, w(e);
    TurnAt(c, w, e, p, q);
    TurnAt(c, w, e, q, p);
    SideDifference(c, w, e, p, q);
    Swap4(r, c.scale(t, p), c.side(t, p), c.scale(t, q), r.neg(c.side(t, q)));
  }

  /** The same with the roles exchanged. */
  lemma PairBack<T(!new)>(c: Cfg<T>, w: int -> T, e: int, p: T, q: T)
    requires Exact(c, w)
    ensures var r, t := c.ring, w(e);
            r.add(r.mul(w(-e), p), r.mul(w(e), q)) == r.add(c.scale(t, r.add(p, q)), r.neg(c.side(t, r.add(p, r.neg(q)))))
  {
    var r, t := c.ring, w(e);
    Pair(c, w, e, q, p);
    Laws(r, r.mul(w(-e), p), r.mul(w(e), q), p);
    Laws(r, p, q, p);
    SideDifference(c, w, e, p, q);
    SideDifference(c, w, e, q, p);
    NegAdd(r, c.side(t, p), r.neg(c.side(t, q)));
    NegAdd(r, c.side(t, q), c.side(t, q));
    Laws(r, r.neg(c.side(t, p)), c.side(t, q), p);
  }

  /** Turning on by d is multiplying by the power d. */
  lemma TurnedOn<T(!new)>(r: Ring<T>, w: int -> T, a: T, step: int, d: int)
    requires IsRing(r) && Powers(r, w)
    ensures r.mul(a, w(step + d)) == r.mul(w(d), r.mul(a, w(step)))
  {
    PowerAdd(r, w, step, d);
    Laws(r, a, w(step), w(d));
    Laws(r, r.mul(a, w(step)), w(d), a);
  }

  // ---- radix 3

  lemma OutputThree<T(!new)>(r: Ring<T>, w: int -> T, col: seq<T>, step: int, x: T, y: T)
    requires IsRing(r) && Powers(r, w) && |col| == 3 && x == r.mul(col[1], w(step)) && y == r.mul(col[2], w(2 * step))
    ensures IsOutput(r, w, col, step, r.add(col[0], r.add(x, y)))
  {
    UpToThree(step);
    TwoTerms(r, w, col, step);
    assert Output(r, w, col, step, 3) == r.add(Output(r, w, col, step, 2), y);
    Laws(r, col[0], x, y);
  }

  /** The values kf_bfly3() writes for a column a, given its turned entries x and y and the factor t. */
  function ThreeValues<T>(c: Cfg<T>, a: T, x: T, y: T, t: T): (v: seq<T>)
    ensures |v| == 3
  {
    var r := c.ring;
    var base, turned := r.add(a, r.neg(c.half(r.add(x, y)))), c.side(t, r.add(x, r.neg(y)));
    [r.add(a, r.add(x, y)), r.add(base, turned), r.add(base, r.neg(turned))]
  }

  lemma MixedThree<T(!new)>(c: Cfg<T>, w: int -> T, col: seq<T>, e: int, h: int, x: T, y: T)
    requires Exact(c, w) && c.nfft == 3 * h && |col| == 3
    requires x == c.ring.mul(col[1], w(e)) && y == c.ring.mul(col[2], w(2 * e))
    ensures Mixed(c.ring, w, col, e, h, ThreeValues(c, col[0], x, y, w(h)))
  {
    UpToThree(h);
    OutputThree(c.ring, w, col, e, x, y);
    ThreeFirst(c, w, col, e, h, x, y);
    ThreeSecond(c, w, col, e, h, x, y);
  }

  lemma ThreeFirst<T(!new)>(c: Cfg<T>, w: int -> T, col: seq<T>, e: int, h: int, x: T, y: T)
    requires Exact(c, w) && c.nfft == 3 * h && |col| == 3
    requires x == c.ring.mul(col[1], w(e)) && y == c.ring.mul(col[2], w(2 * e))
    ensures IsOutput(c.ring, w, col, e + h, ThreeValues(c, col[0], x, y, w(h))[1])
  {
    var r := c.ring;
    ThreeTurnsOn(c, w, col, e, h, x, y);
    OutputThree(r, w, col, e + h, r.mul(w(h), x), r.mul(w(-h), y));
    Pair(c, w, h, x, y);
    TurnAt(c, w, h, r.add(x, y), x);
    Laws(r, col[0], c.scale(w(h), r.add(x, y)), c.side(w(h), r.add(x, r.neg(y))));
  }

  lemma ThreeSecond<T(!new)>(c: Cfg<T>, w: int -> T, col: seq<T>, e: int, h: int, x: T, y: T)
    requires Exact(c, w) && c.nfft == 3 * h && |col| == 3
    requires x == c.ring.mul(col[1], w(e)) && y == c.ring.mul(col[2], w(2 * e))
    ensures IsOutput(c.ring, w, col, e + 2 * h, ThreeValues(c, col[0], x, y, w(h))[2])
  {
    var r := c.ring;
    ThreeTurns(c, w, col, e, h, x, y);
    OutputThree(r, w, col, e + 2 * h, r.mul(w(-h), x), r.mul(w(h), y));
    PairBack(c, w, h, x, y);
    TurnAt(c, w, h, r.add(x, y), x);
    Laws(r, col[0], c.scale(w(h), r.add(x, y)), r.neg(c.side(w(h), r.add(x, r.neg(y)))));
  }

  lemma ThreeTurnsOn<T(!new)>(c: Cfg<T>, w: int -> T, col: seq<T>, e: int, h: int, x: T, y: T)
    requires Exact(c, w) && c.nfft == 3 * h && |col| == 3
    requires x == c.ring.mul(col[1], w(e)) && y == c.ring.mul(col[2], w(2 * e))
    ensures c.ring.mul(col[1], w(e + h)) == c.ring.mul(w(h), x) && c.ring.mul(col[2], w(2 * (e + h))) == c.ring.mul(w(-h), y)
  {
    var r := c.ring;
    TurnedOn(r, w, col[1], e, h);
    TurnedOn(r, w, col[2], 2 * e, 2 * h);
    PowerPeriod(r, w, 3 * h, -h);
    assert w(2 * h) == w(-h);
  }

  lemma ThreeTurns<T(!new)>(c: Cfg<T>, w: int -> T, col: seq<T>, e: int, h: int, x: T, y: T)
    requires Exact(c, w) && c.nfft == 3 * h && |col| == 3
    requires x == c.ring.mul(col[1], w(e)) && y == c.ring.mul(col[2], w(2 * e))
    ensures c.ring.mul(col[1], w(e + 2 * h)) == c.ring.mul(w(-h), x) && c.ring.mul(col[2], w(2 * (e + 2 * h))) == c.ring.mul(w(h), y)
  {
    var r := c.ring;
    TurnedOn(r, w, col[1], e, 2 * h);
    TurnedOn(r, w, col[2], 2 * e, 4 * h);
    PowerPeriod(r, w, 3 * h, -h);
    PowerPeriod(r, w, 3 * h, h);
    assert w(2 * h) == w(-h) && w(4 * h) == w(h);
  }

  lemma ThreeEntries<T(!new)>(g: seq<T>, m: nat, u: nat)
    requires u < m && |g| == 3 * m
    ensures Column(g, m, 3, u) == [g[u], g[u + m], g[u + 2 * m]]
  {
    assert u + 0 * m == u && u + 1 * m == u + m;
  }

  lemma PassThree<T(!new)>(c: Cfg<T>, w: int -> T, g: seq<T>, m: nat, u: nat, e: int, h: int, v: seq<T>)
    requires Exact(c, w) && c.nfft == 3 * h && u < m && |g| == 3 * m
    requires v == ThreeValues(c, g[u], c.ring.mul(g[u + m], w(e)), c.ring.mul(g[u + 2 * m], w(2 * e)), w(h))
    ensures Mixed(c.ring, w, Column(g, m, 3, u), e, h, v)
  {
    ThreeEntries(g, m, u);
    MixedThree(c, w, [g[u], g[u + m], g[u + 2 * m]], e, h, c.ring.mul(g[u + m], w(e)), c.ring.mul(g[u + 2 * m], w(2 * e)));
  }

  method PassThreeAt<T(!new)>(c: Cfg<T>, ghost w: int -> T, out: array<T>, o: nat, fs: nat, m: nat, ghost n: nat, u: nat, tw1: nat,
                              ghost f: seq<T>, epi3: T)
    requires n == 3 * m && Exact(c, w) && c.nfft == 3 * By(m, fs) && tw1 == By(u, fs) < By(m, fs) && epi3 == w(By(m, fs))
    requires o + n <= out.Length && u < m && Stage(c.ring, w, f, out[o..o + n], fs, m, 3, u)
    modifies out
    ensures Stage(c.ring, w, f, out[o..o + n], fs, m, 3, u + 1)
    ensures Outside(old(out[..]), out[..], o, n)
  {
    ghost var g := out[o..o + n];
    var r := c.ring;
    var x, y := r.mul(out[o + u + m], c.twiddles[tw1]), r.mul(out[o + u + 2 * m], c.twiddles[2 * tw1]);
    var v := ThreeValues(c, out[o + u], x, y, epi3);
    PassThree(c, w, g, m, u, tw1, By(m, fs), v);
    PutColumn(out, o, m, 3, n, u, v);
    RewrittenColumn(r, w, f, g, out[o..o + n], fs, m, 3, u, v);
  }

  /** kf_bfly3() */
  method Bfly3<T(!new)>(c: Cfg<T>, ghost w: int -> T, out: array<T>, o: nat, fs: nat, m: nat, ghost n: nat)
    requires n == 3 * m && Exact(c, w) && c.nfft == 3 * By(m, fs) && fs >= 1 && m >= 1 && o + n <= out.Length
    modifies out
    ensures Stage(c.ring, w, old(out[o..o + n]), out[o..o + n], fs, m, 3, m)
    ensures Outside(old(out[..]), out[..], o, n)
  {
    ghost var f := out[o..o + n];
    Factor(fs, m);
    var epi3 := c.twiddles[fs * m];
    var tw1 := 0;
    for u := 0 to m
      invariant Stage(c.ring, w, f, out[o..o + n], fs, m, 3, u)
      invariant Outside(old(out[..]), out[..], o, n)
      invariant tw1 == By(u, fs)
    {
      Pointer(fs, u, m);
      ghost var all := out[..];
      PassThreeAt(c, w, out, o, fs, m, n, u, tw1, f, epi3);
      OutsideTwice(old(out[..]), all, out[..], o, n);
      tw1 := tw1 + fs;
    }
  }

  // ---- radix 5

  lemma UpToFour(d: int)
    ensures By(4, d) == 4 * d
  {
    UpToThree(d);
  }

  lemma OutputFive<T(!new)>(r: Ring<T>, w: int -> T, col: seq<T>, step: int, x1: T, x2: T, x3: T, x4: T)
    requires IsRing(r) && Powers(r, w) && |col| == 5 && x1 == r.mul(col[1], w(step)) && x2 == r.mul(col[2], w(2 * step))
    requires x3 == r.mul(col[3], w(3 * step)) && x4 == r.mul(col[4], w(4 * step))
    ensures IsOutput(r, w, col, step, r.add(col[0], r.add(r.add(x1, x4), r.add(x2, x3))))
  {
    UpToThree(step);
    UpToFour(step);
    TwoTerms(r, w, col, step);
    assert Output(r, w, col, step, 3) == r.add(Output(r, w, col, step, 2), x2);
    assert Output(r, w, col, step, 4) == r.add(Output(r, w, col, step, 3), x3);
    assert Output(r, w, col, step, 5) == r.add(Output(r, w, col, step, 4), x4);
    Regroup(r, col[0], x1, x2, x3, x4);
  }

  lemma Regroup<T(!new)>(r: Ring<T>, a: T, x1: T, x2: T, x3: T, x4: T)
    requires IsRing(r)
    ensures r.add(r.add(r.add(r.add(a, x1), x2), x3), x4) == r.add(a, r.add(r.add(x1, x4), r.add(x2, x3)))
  {
    var s := r.add(a, x1);
    Laws(r, s, x2, x3);
    Laws(r, s, r.add(x2, x3), x4);
    Laws(r, r.add(x2, x3), x4, s);
    Laws(r, s, x4, r.add(x2, x3));
    Laws(r, a, x1, x4);
    Laws(r, a, r.add(x1, x4), r.add(x2, x3));
  }

  /** The values kf_bfly5() writes for a column a, given its turned entries and the factors ya and yb. */
  function FiveValues<T>(c: Cfg<T>, a: T, x1: T, x2: T, x3: T, x4: T, ya: T, yb: T): (v: seq<T>)
    ensures |v| == 5
  {
    var r := c.ring;
    var s7, s8, s10, s9 := r.add(x1, x4), r.add(x2, x3), r.add(x1, r.neg(x4)), r.add(x2, r.neg(x3));
    var s5, s6 := r.add(r.add(a, c.scale(ya, s7)), c.scale(yb, s8)), r.add(r.neg(c.side(ya, s10)), r.neg(c.side(yb, s9)));
    var s11, s12 := r.add(r.add(a, c.scale(yb, s7)), c.scale(ya, s8)), r.add(c.side(yb, s10), r.neg(c.side(ya, s9)));
    [r.add(a, r.add(s7, s8)), r.add(s5, r.neg(s6)), r.add(s11, s12), r.add(s11, r.neg(s12)), r.add(s5, s6)]
  }

  /** Real and imaginary contributions, gathered. */
  lemma Gathered<T(!new)>(r: Ring<T>, a: T, p: T, i: T, q: T, j: T)
    requires IsRing(r)
    ensures r.add(a, r.add(r.add(p, i), r.add(q, j))) == r.add(r.add(r.add(a, p), q), r.add(i, j))
  {
    Swap4(r, p, i, q, j);
    Laws(r, a, r.add(p, q), r.add(i, j));
    Laws(r, a, p, q);
  }

  /** The entries of a column, turned by multiples of e. */
  ghost predicate FiveTurned<T>(r: Ring<T>, w: int -> T, col: seq<T>, e: int, x1: T, x2: T, x3: T, x4: T)
    requires |col| == 5
  {
    x1 == r.mul(col[1], w(e)) && x2 == r.mul(col[2], w(2 * e)) && x3 == r.mul(col[3], w(3 * e)) && x4 == r.mul(col[4], w(4 * e))
  }

  /** The multiples of a fifth of a turn that occur, brought back to the first two and their opposites. */
  lemma FiveCycle<T(!new)>(c: Cfg<T>, w: int -> T, h: int)
    requires Exact(c, w) && c.nfft == 5 * h
    ensures w(3 * h) == w(-(2 * h)) && w(4 * h) == w(-h) && w(6 * h) == w(h) && w(8 * h) == w(-(2 * h))
    ensures w(9 * h) == w(-h) && w(12 * h) == w(2 * h) && w(16 * h) == w(h)
  {
    FullTurn(c, w, 3 * h, -(2 * h));
    FullTurn(c, w, 4 * h, -h);
    FullTurn(c, w, 6 * h, h);
    FullTurn(c, w, 8 * h, 3 * h);
    FullTurn(c, w, 9 * h, 4 * h);
    FullTurn(c, w, 7 * h, 2 * h);
    FullTurn(c, w, 12 * h, 7 * h);
    FullTurn(c, w, 11 * h, 6 * h);
    FullTurn(c, w, 16 * h, 11 * h);
  }

  lemma FullTurn<T(!new)>(c: Cfg<T>, w: int -> T, a: int, b: int)
    requires Exact(c, w) && a == c.nfft + b
    ensures w(a) == w(b)
  {
    PowerPeriod(c.ring, w, c.nfft, b);
  }

  /** An entry turned by step and then by d, which goes as far as b. */
  lemma TurnedTo<T(!new)>(r: Ring<T>, w: int -> T, a: T, step: int, d: int, b: int, all: int, x: T)
    requires IsRing(r) && Powers(r, w) && w(d) == w(b) && all == step + d && x == r.mul(a, w(step))
    ensures r.mul(a, w(all)) == r.mul(w(b), x)
  {
    TurnedOn(r, w, a, step, d);
  }

  lemma FiveOutput1<T(!new)>(c: Cfg<T>, w: int -> T, col: seq<T>, e: int, h: int, x1: T, x2: T, x3: T, x4: T)
    requires Exact(c, w) && c.nfft == 5 * h && |col| == 5 && FiveTurned(c.ring, w, col, e, x1, x2, x3, x4)
    ensures IsOutput(c.ring, w, col, e + h, FiveValues(c, col[0], x1, x2, x3, x4, w(h), w(2 * h))[1])
  {
    var r := c.ring;
    FiveTurns1(c, w, col, e, h, x1, x2, x3, x4);
    OutputFive(r, w, col, e + h, r.mul(w(h), x1), r.mul(w(2 * h), x2), r.mul(w(-(2 * h)), x3), r.mul(w(-h), x4));
    Pair(c, w, h, x1, x4);
    Pair(c, w, 2 * h, x2, x3);
    var s7, s8, s10, s9 := r.add(x1, x4), r.add(x2, x3), r.add(x1, r.neg(x4)), r.add(x2, r.neg(x3));
    Gathered(r, col[0], c.scale(w(h), s7), c.side(w(h), s10), c.scale(w(2 * h), s8), c.side(w(2 * h), s9));
    NegAdd(r, c.side(w(h), s10), c.side(w(2 * h), s9));
    NegAdd(r, r.add(c.side(w(h), s10), c.side(w(2 * h), s9)), c.side(w(h), s10));
  }

  lemma FiveTurns1<T(!new)>(c: Cfg<T>, w: int -> T, col: seq<T>, e: int, h: int, x1: T, x2: T, x3: T, x4: T)
    requires Exact(c, w) && c.nfft == 5 * h && |col| == 5 && FiveTurned(c.ring, w, col, e, x1, x2, x3, x4)
    ensures c.ring.mul(col[1], w(e + h)) == c.ring.mul(w(h), x1)
    ensures c.ring.mul(col[2], w(2 * (e + h))) == c.ring.mul(w(2 * h), x2)
    ensures c.ring.mul(col[3], w(3 * (e + h))) == c.ring.mul(w(-(2 * h)), x3)
    ensures c.ring.mul(col[4], w(4 * (e + h))) == c.ring.mul(w(-h), x4)
  {
    var r := c.ring;
    FiveCycle(c, w, h);
    TurnedTo(r, w, col[1], e, h, h, e + h, x1);
    TurnedTo(r, w, col[2], 2 * e, 2 * h, 2 * h, 2 * (e + h), x2);
    TurnedTo(r, w, col[3], 3 * e, 3 * h, -(2 * h), 3 * (e + h), x3);
    TurnedTo(r, w, col[4], 4 * e, 4 * h, -h, 4 * (e + h), x4);
  }

  lemma FiveOutput2<T(!new)>(c: Cfg<T>, w: int -> T, col: seq<T>, e: int, h: int, x1: T, x2: T, x3: T, x4: T)
    requires Exact(c, w) && c.nfft == 5 * h && |col| == 5 && FiveTurned(c.ring, w, col, e, x1, x2, x3, x4)
    ensures IsOutput(c.ring, w, col, e + 2 * h, FiveValues(c, col[0], x1, x2, x3, x4, w(h), w(2 * h))[2])
  {
    var r := c.ring;
    FiveTurns2(c, w, col, e, h, x1, x2, x3, x4);
    OutputFive(r, w, col, e + 2 * h, r.mul(w(2 * h), x1), r.mul(w(-h), x2), r.mul(w(h), x3), r.mul(w(-(2 * h)), x4));
    Pair(c, w, 2 * h, x1, x4);
    PairBack(c, w, h, x2, x3);
    var s7, s8, s10, s9 := r.add(x1, x4), r.add(x2, x3), r.add(x1, r.neg(x4)), r.add(x2, r.neg(x3));
    Gathered(r, col[0], c.scale(w(2 * h), s7), c.side(w(2 * h), s10), c.scale(w(h), s8), r.neg(c.side(w(h), s9)));
  }

  lemma FiveTurns2<T(!new)>(c: Cfg<T>, w: int -> T, col: seq<T>, e: int, h: int, x1: T, x2: T, x3: T, x4: T)
    requires Exact(c, w) && c.nfft == 5 * h && |col| == 5 && FiveTurned(c.ring, w, col, e, x1, x2, x3, x4)
    ensures c.ring.mul(col[1], w(e + 2 * h)) == c.ring.mul(w(2 * h), x1)
    ensures c.ring.mul(col[2], w(2 * (e + 2 * h))) == c.ring.mul(w(-h), x2)
    ensures c.ring.mul(col[3], w(3 * (e + 2 * h))) == c.ring.mul(w(h), x3)
    ensures c.ring.mul(col[4], w(4 * (e + 2 * h))) == c.ring.mul(w(-(2 * h)), x4)
  {
    var r := c.ring;
    FiveCycle(c, w, h);
    TurnedTo(r, w, col[1], e, 2 * h, 2 * h, e + 2 * h, x1);
    TurnedTo(r, w, col[2], 2 * e, 4 * h, -h, 2 * (e + 2 * h), x2);
    TurnedTo(r, w, col[3], 3 * e, 6 * h, h, 3 * (e + 2 * h), x3);
    TurnedTo(r, w, col[4], 4 * e, 8 * h, -(2 * h), 4 * (e + 2 * h), x4);
  }

  lemma FiveOutput3<T(!new)>(c: Cfg<T>, w: int -> T, col: seq<T>, e: int, h: int, x1: T, x2: T, x3: T, x4: T)
    requires Exact(c, w) && c.nfft == 5 * h && |col| == 5 && FiveTurned(c.ring, w, col, e, x1, x2, x3, x4)
    ensures IsOutput(c.ring, w, col, e + 3 * h, FiveValues(c, col[0], x1, x2, x3, x4, w(h), w(2 * h))[3])
  {
    var r := c.ring;
    FiveTurns3(c, w, col, e, h, x1, x2, x3, x4);
    OutputFive(r, w, col, e + 3 * h, r.mul(w(-(2 * h)), x1), r.mul(w(h), x2), r.mul(w(-h), x3), r.mul(w(2 * h), x4));
    PairBack(c, w, 2 * h, x1, x4);
    Pair(c, w, h, x2, x3);
    var s7, s8, s10, s9 := r.add(x1, x4), r.add(x2, x3), r.add(x1, r.neg(x4)), r.add(x2, r.neg(x3));
    Gathered(r, col[0], c.scale(w(2 * h), s7), r.neg(c.side(w(2 * h), s10)), c.scale(w(h), s8), c.side(w(h), s9));
    NegAdd(r, c.side(w(2 * h), s10), r.neg(c.side(w(h), s9)));
    NegAdd(r, c.side(w(h), s9), c.side(w(h), s9));
  }

  lemma FiveTurns3<T(!new)>(c: Cfg<T>, w: int -> T, col: seq<T>, e: int, h: int, x1: T, x2: T, x3: T, x4: T)
    requires Exact(c, w) && c.nfft == 5 * h && |col| == 5 && FiveTurned(c.ring, w, col, e, x1, x2, x3, x4)
    ensures c.ring.mul(col[1], w(e + 3 * h)) == c.ring.mul(w(-(2 * h)), x1)
    ensures c.ring.mul(col[2], w(2 * (e + 3 * h))) == c.ring.mul(w(h), x2)
    ensures c.ring.mul(col[3], w(3 * (e + 3 * h))) == c.ring.mul(w(-h), x3)
    ensures c.ring.mul(col[4], w(4 * (e + 3 * h))) == c.ring.mul(w(2 * h), x4)
  {
    var r := c.ring;
    FiveCycle(c, w, h);
    TurnedTo(r, w, col[1], e, 3 * h, -(2 * h), e + 3 * h, x1);
    TurnedTo(r, w, col[2], 2 * e, 6 * h, h, 2 * (e + 3 * h), x2);
    TurnedTo(r, w, col[3], 3 * e, 9 * h, -h, 3 * (e + 3 * h), x3);
    TurnedTo(r, w, col[4], 4 * e, 12 * h, 2 * h, 4 * (e + 3 * h), x4);
  }

  lemma FiveOutput4<T(!new)>(c: Cfg<T>, w: int -> T, col: seq<T>, e: int, h: int, x1: T, x2: T, x3: T, x4: T)
    requires Exact(c, w) && c.nfft == 5 * h && |col| == 5 && FiveTurned(c.ring, w, col, e, x1, x2, x3, x4)
    ensures IsOutput(c.ring, w, col, e + 4 * h, FiveValues(c, col[0], x1, x2, x3, x4, w(h), w(2 * h))[4])
  {
    var r := c.ring;
    FiveTurns4(c, w, col, e, h, x1, x2, x3, x4);
    OutputFive(r, w, col, e + 4 * h, r.mul(w(-h), x1), r.mul(w(-(2 * h)), x2), r.mul(w(2 * h), x3), r.mul(w(h), x4));
    PairBack(c, w, h, x1, x4);
    PairBack(c, w, 2 * h, x2, x3);
    var s7, s8, s10, s9 := r.add(x1, x4), r.add(x2, x3), r.add(x1, r.neg(x4)), r.add(x2, r.neg(x3));
    Gathered(r, col[0], c.scale(w(h), s7), r.neg(c.side(w(h), s10)), c.scale(w(2 * h), s8), r.neg(c.side(w(2 * h), s9)));
  }

  lemma FiveTurns4<T(!new)>(c: Cfg<T>, w: int -> T, col: seq<T>, e: int, h: int, x1: T, x2: T, x3: T, x4: T)
    requires Exact(c, w) && c.nfft == 5 * h && |col| == 5 && FiveTurned(c.ring, w, col, e, x1, x2, x3, x4)
    ensures c.ring.mul(col[1], w(e + 4 * h)) == c.ring.mul(w(-h), x1)
    ensures c.ring.mul(col[2], w(2 * (e + 4 * h))) == c.ring.mul(w(-(2 * h)), x2)
    ensures c.ring.mul(col[3], w(3 * (e + 4 * h))) == c.ring.mul(w(2 * h), x3)
    ensures c.ring.mul(col[4], w(4 * (e + 4 * h))) == c.ring.mul(w(h), x4)
  {
    var r := c.ring;
    FiveCycle(c, w, h);
    TurnedTo(r, w, col[1], e, 4 * h, -h, e + 4 * h, x1);
    TurnedTo(r, w, col[2], 2 * e, 8 * h, -(2 * h), 2 * (e + 4 * h), x2);
    TurnedTo(r, w, col[3], 3 * e, 12 * h, 2 * h, 3 * (e + 4 * h), x3);
    TurnedTo(r, w, col[4], 4 * e, 16 * h, h, 4 * (e + 4 * h), x4);
  }

  lemma AllFive<T(!new)>(r: Ring<T>, w: int -> T, col: seq<T>, e: int, h: int, v: seq<T>)
    requires |col| == |v| == 5 && IsOutput(r, w, col, e, v[0]) && IsOutput(r, w, col, e + h, v[1]) && IsOutput(r, w, col, e + 2 * h, v[2])
    requires IsOutput(r, w, col, e + 3 * h, v[3]) && IsOutput(r, w, col, e + 4 * h, v[4])
    ensures Mixed(r, w, col, e, h, v)
  {
    UpToThree(h);
    UpToFour(h);
  }

  lemma MixedFive<T(!new)>(c: Cfg<T>, w: int -> T, col: seq<T>, e: int, h: int, x1: T, x2: T, x3: T, x4: T)
    requires Exact(c, w) && c.nfft == 5 * h && |col| == 5 && FiveTurned(c.ring, w, col, e, x1, x2, x3, x4)
    ensures Mixed(c.ring, w, col, e, h, FiveValues(c, col[0], x1, x2, x3, x4, w(h), w(2 * h)))
  {
    OutputFive(c.ring, w, col, e, x1, x2, x3, x4);
    FiveOutput1(c, w, col, e, h, x1, x2, x3, x4);
    FiveOutput2(c, w, col, e, h, x1, x2, x3, x4);
    FiveOutput3(c, w, col, e, h, x1, x2, x3, x4);
    FiveOutput4(c, w, col, e, h, x1, x2, x3, x4);
    AllFive(c.ring, w, col, e, h, FiveValues(c, col[0], x1, x2, x3, x4, w(h), w(2 * h)));
  }

  /** The values of a pass, in terms of the block before it. */
  ghost predicate PassFive<T>(c: Cfg<T>, w: int -> T, g: seq<T>, m: nat, u: nat, e: int, h: int, v: seq<T>)
    requires u < m && |g| == 5 * m
  {
    var r := c.ring;
    v == FiveValues(c, g[u], r.mul(g[u + m], w(e)), r.mul(g[u + 2 * m], w(2 * e)), r.mul(g[u + 3 * m], w(3 * e)),
                    r.mul(g[u + 4 * m], w(4 * e)), w(h), w(2 * h))
  }

  lemma FiveEntries<T(!new)>(g: seq<T>, m: nat, u: nat)
    requires u < m && |g| == 5 * m
    ensures Column(g, m, 5, u) == [g[u], g[u + m], g[u + 2 * m], g[u + 3 * m], g[u + 4 * m]]
  {
    assert u + 0 * m == u && u + 1 * m == u + m;
  }

  lemma PassFiveColumn<T(!new)>(c: Cfg<T>, w: int -> T, g: seq<T>, m: nat, u: nat, e: int, h: int, v: seq<T>)
    requires Exact(c, w) && c.nfft == 5 * h && u < m && |g| == 5 * m && PassFive(c, w, g, m, u, e, h, v)
    ensures Mixed(c.ring, w, Column(g, m, 5, u), e, h, v)
  {
    FiveEntries(g, m, u);
    ColumnOfFive(c, w, [g[u], g[u + m], g[u + 2 * m], g[u + 3 * m], g[u + 4 * m]], e, h, v);
  }

  lemma ColumnOfFive<T(!new)>(c: Cfg<T>, w: int -> T, col: seq<T>, e: int, h: int, v: seq<T>)
    requires Exact(c, w) && c.nfft == 5 * h && |col| == 5
    requires var r := c.ring; v == FiveValues(c, col[0], r.mul(col[1], w(e)), r.mul(col[2], w(2 * e)), r.mul(col[3], w(3 * e)),
                                              r.mul(col[4], w(4 * e)), w(h), w(2 * h))
    ensures Mixed(c.ring, w, col, e, h, v)
  {
    var r := c.ring;
    MixedFive(c, w, col, e, h, r.mul(col[1], w(e)), r.mul(col[2], w(2 * e)), r.mul(col[3], w(3 * e)), r.mul(col[4], w(4 * e)));
  }

  method PassFiveValues<T(!new)>(c: Cfg<T>, ghost w: int -> T, out: array<T>, o: nat, m: nat, ghost n: nat, u: nat, tw1: nat, ghost h: int,
                                 ya: T, yb: T) returns (v: seq<T>)
    requires n == 5 * m && Exact(c, w) && 4 * tw1 < c.nfft && o + n <= out.Length && u < m && ya == w(h) && yb == w(2 * h)
    ensures |v| == 5 && PassFive(c, w, out[o..o + n], m, u, tw1, h, v)
  {
    var r := c.ring;
    var x1, x2 := r.mul(out[o + u + m], c.twiddles[tw1]), r.mul(out[o + u + 2 * m], c.twiddles[2 * tw1]);
    var x3, x4 := r.mul(out[o + u + 3 * m], c.twiddles[3 * tw1]), r.mul(out[o + u + 4 * m], c.twiddles[4 * tw1]);
    v := FiveValues(c, out[o + u], x1, x2, x3, x4, ya, yb);
  }

  method PassFiveAt<T(!new)>(c: Cfg<T>, ghost w: int -> T, out: array<T>, o: nat, ghost fs: nat, m: nat, ghost n: nat, u: nat, tw1: nat,
                             ghost f: seq<T>, ya: T, yb: T)
    requires n == 5 * m && Exact(c, w) && c.nfft == 5 * By(m, fs) && tw1 == By(u, fs) < By(m, fs)
    requires ya == w(By(m, fs)) && yb == w(2 * By(m, fs))
    requires o + n <= out.Length && u < m && Stage(c.ring, w, f, out[o..o + n], fs, m, 5, u)
    modifies out
    ensures Stage(c.ring, w, f, out[o..o + n], fs, m, 5, u + 1)
    ensures Outside(old(out[..]), out[..], o, n)
  {
    ghost var g := out[o..o + n];
    var v := PassFiveValues(c, w, out, o, m, n, u, tw1, By(m, fs), ya, yb);
    PassFiveColumn(c, w, g, m, u, tw1, By(m, fs), v);
    PutColumn(out, o, m, 5, n, u, v);
    RewrittenColumn(c.ring, w, f, g, out[o..o + n], fs, m, 5, u, v);
  }

  /** kf_bfly5() */
  method Bfly5<T(!new)>(c: Cfg<T>, ghost w: int -> T, out: array<T>, o: nat, fs: nat, m: nat, ghost n: nat)
    requires n == 5 * m && Exact(c, w) && c.nfft == 5 * By(m, fs) && fs >= 1 && m >= 1 && o + n <= out.Length
    modifies out
    ensures Stage(c.ring, w, old(out[o..o + n]), out[o..o + n], fs, m, 5, m)
    ensures Outside(old(out[..]), out[..], o, n)
  {
    ghost var f := out[o..o + n];
    Factor(fs, m);
    var ya, yb := c.twiddles[fs * m], c.twiddles[fs * 2 * m];
    var tw1 := 0;
    for u := 0 to m
      invariant Stage(c.ring, w, f, out[o..o + n], fs, m, 5, u)
      invariant Outside(old(out[..]), out[..], o, n)
      invariant tw1 == By(u, fs)
    {
      Pointer(fs, u, m);
      ghost var all := out[..];
      PassFiveAt(c, w, out, o, fs, m, n, u, tw1, f, ya, yb);
      OutsideTwice(old(out[..]), all, out[..], o, n);
      tw1 := tw1 + fs;
    }
  }

  lemma Factor(fs: nat, m: nat)
    requires fs >= 1 && m >= 1
    ensures fs * m == By(m, fs) && fs * 2 * m == 2 * By(m, fs) && By(m, fs) > 0
  {
    ByIsTimes(m, fs);
    Pointer(fs, 0, m);
  }
}
