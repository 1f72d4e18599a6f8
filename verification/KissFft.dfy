/**
 The butterflies of the mixed-radix fast Fourier transform of radix 2, 4 and any other, each working
 in place on the output array.
 */
module KissFft {
  import opened Fourier
  import opened Butterfly

  // ---- ring facts

  lemma NegUnique<T(!new)>(r: Ring<T>, x: T, y: T)
    requires IsRing(r) && r.add(x, y) == r.zero
    ensures y == r.neg(x)
  {
    Laws(r, y, x, r.neg(x));
    ZeroTimes(r, r.neg(x));
    Laws(r, y, r.zero, r.zero);
    Laws(r, x, y, y);
    Laws(r, r.zero, r.neg(x), r.zero);
  }

  lemma NegMul<T(!new)>(r: Ring<T>, x: T, y: T)
    requires IsRing(r)
    ensures r.mul(x, r.neg(y)) == r.neg(r.mul(x, y))
  {
    Laws(r, y, r.neg(y), x);
    Laws(r, x, y, y);
    Laws(r, x, r.neg(y), y);
    ZeroTimes(r, x);
    NegUnique(r, r.mul(x, y), r.mul(x, r.neg(y)));
  }

  lemma NegAdd<T(!new)>(r: Ring<T>, a: T, b: T)
    requires IsRing(r)
    ensures r.neg(r.add(a, b)) == r.add(r.neg(a), r.neg(b)) && r.neg(r.neg(a)) == a
  {
    Swap4(r, a, b, r.neg(a), r.neg(b));
    Laws(r, a, r.neg(a), a);
    Laws(r, b, b, b);
    Laws(r, r.zero, r.zero, r.zero);
    NegUnique(r, r.add(a, b), r.add(r.neg(a), r.neg(b)));
    NegUnique(r, r.neg(a), a);
  }

  // ---- the configuration

  /**
   What kiss_fft_alloc() sets up, with the operations the butterflies make on the parts of a number:
   a quarter turn, half of a number, a number times the real part of a twiddle factor, and a number times
   the imaginary part of one, turned by a quarter.
   */
  datatype Cfg<!T> =
    Cfg(ring: Ring<T>, nfft: nat, twiddles: seq<T>, quarter: T -> T, half: T -> T, scale: (T, T) -> T, side: (T, T) -> T)

  /** Names the power and the values at which the laws of the last three operations are wanted. */
  ghost predicate AtTurn<T>(e: int, x: T, y: T) { true }

  /** A power and its conjugate, taken apart. */
  ghost predicate TurnLaws<T>(c: Cfg<T>, w: int -> T, e: int, x: T, y: T) {
    var r, t := c.ring, w(e);
    r.mul(t, x) == r.add(c.scale(t, x), c.side(t, x)) && r.mul(w(-e), x) == r.add(c.scale(t, x), r.neg(c.side(t, x))) &&
    c.scale(t, r.add(x, y)) == r.add(c.scale(t, x), c.scale(t, y)) && c.side(t, r.add(x, y)) == r.add(c.side(t, x), c.side(t, y)) &&
    (c.nfft == 3 * e ==> c.scale(t, x) == r.neg(c.half(x)))
  }

  /** The twiddle factors are exact powers of a root of unity. */
  ghost predicate Exact<T(!new)>(c: Cfg<T>, w: int -> T) {
    IsRing(c.ring) && Powers(c.ring, w) && w(c.nfft) == c.ring.one &&
    |c.twiddles| == c.nfft >= 1 && (forall i :: 0 <= i < c.nfft ==> c.twiddles[i] == w(i)) &&
    (forall h {:trigger w(h)} :: c.nfft == 2 * h ==> w(h) == c.ring.neg(c.ring.one)) &&
    (forall h, x {:trigger w(h), c.quarter(x)} :: c.nfft == 4 * h ==> c.quarter(x) == c.ring.mul(w(h), x)) &&
    forall e: int, x: T, y: T {:trigger AtTurn(e, x, y)} :: AtTurn(e, x, y) && TurnLaws(c, w, e, x, y)
  }

  // ---- radix 2

  lemma UpToThree(d: int)
    ensures By(0, d) == 0 && By(1, d) == d && By(2, d) == 2 * d && By(3, d) == 3 * d
  {
  }

  /** The first two terms of an output. */
  lemma TwoTerms<T(!new)>(r: Ring<T>, w: int -> T, col: seq<T>, step: int)
    requires IsRing(r) && Powers(r, w) && |col| >= 2
    ensures Output(r, w, col, step, 1) == col[0]
    ensures Output(r, w, col, step, 2) == r.add(col[0], r.mul(col[1], w(step)))
  {
    UpToThree(step);
    Laws(r, col[0], col[0], col[0]);
    ZeroTimes(r, col[0]);
    assert Output(r, w, col, step, 1) == r.add(r.zero, r.mul(col[0], w(0)));
  }

  lemma OutputTwo<T(!new)>(r: Ring<T>, w: int -> T, col: seq<T>, step: int)
    requires IsRing(r) && Powers(r, w) && |col| == 2
    ensures IsOutput(r, w, col, step, r.add(col[0], r.mul(col[1], w(step))))
  {
    TwoTerms(r, w, col, step);
  }

  /** Half a turn on is the negative. */
  lemma HalfOn<T(!new)>(r: Ring<T>, w: int -> T, a: T, step: int, h: int)
    requires IsRing(r) && Powers(r, w) && w(h) == r.neg(r.one)
    ensures r.mul(a, w(step + h)) == r.neg(r.mul(a, w(step)))
  {
    var v := w(step);
    PowerAdd(r, w, step, h);
    NegMul(r, v, r.one);
    Laws(r, v, v, v);
    NegMul(r, a, v);
  }

  /** The two outputs of a column of two. */
  lemma MixedTwo<T(!new)>(r: Ring<T>, w: int -> T, col: seq<T>, e: int, h: int)
    requires IsRing(r) && Powers(r, w) && w(h) == r.neg(r.one) && |col| == 2
    ensures var t := r.mul(col[1], w(e));
            Mixed(r, w, col, e, h, [r.add(col[0], t), r.add(col[0], r.neg(t))])
  {
    UpToThree(h);
    OutputTwo(r, w, col, e);
    OutputTwo(r, w, col, e + h);
    HalfOn(r, w, col[1], e, h);
  }

  lemma ColumnDone<T(!new)>(r: Ring<T>, w: int -> T, f: seq<T>, g: seq<T>, h: seq<T>, fs: nat, m: nat, p: nat, u: nat)
    requires Stage(r, w, f, g, fs, m, p, u) && u < m && |h| == |g|
    requires Mixed(r, w, Column(g, m, p, u), By(u, fs), By(m, fs), Column(h, m, p, u))
    requires forall v :: 0 <= v < m && v != u ==> Column(h, m, p, v) == Column(g, m, p, v)
    ensures Stage(r, w, f, h, fs, m, p, u + 1)
  {
  }

  /** One pass of the loop of kf_bfly2(). */
  lemma PassTwo<T(!new)>(r: Ring<T>, w: int -> T, f: seq<T>, g: seq<T>, after: seq<T>, fs: nat, m: nat, u: nat, t: T)
    requires IsRing(r) && Powers(r, w) && w(By(m, fs)) == r.neg(r.one)
    requires u < m && |g| == 2 * m && Stage(r, w, f, g, fs, m, 2, u) && t == r.mul(g[u + m], w(By(u, fs)))
    requires after == g[u + m := r.add(g[u], r.neg(t))][u := r.add(g[u], t)]
    ensures Stage(r, w, f, after, fs, m, 2, u + 1)
  {
    var a := g[u + m := r.add(g[u], r.neg(t))];
    var col := Column(g, m, 2, u);
    assert u + 0 * m == u && u + 1 * m == u + m;
    assert col[0] == g[u] && col[1] == g[u + m];
    ColumnUpdate(g, m, 2, u, 1, r.add(g[u], r.neg(t)));
    ColumnUpdate(a, m, 2, u, 0, r.add(g[u], t));
    MixedTwo(r, w, col, By(u, fs), By(m, fs));
    assert Column(after, m, 2, u) == [r.add(col[0], t), r.add(col[0], r.neg(t))];
    ColumnDone(r, w, f, g, after, fs, m, 2, u);
  }

  /** The twiddle pointer stays below the end of the stage. */
  lemma {:induction false} Pointer(fs: nat, u: nat, m: nat)
    requires u < m && fs >= 1
    ensures 0 <= By(u, fs) < By(m, fs)
    decreases m
  {
    if u + 1 < m { Pointer(fs, u, m - 1); } else { NotNegative(fs, u); }
  }

  lemma {:induction false} NotNegative(fs: nat, u: nat)
    ensures By(u, fs) >= 0
  {
    if u > 0 { NotNegative(fs, u - 1); }
  }

  // ---- writing into a block of the output

  /** Nothing outside the block of n values at o has changed. */
  ghost predicate Outside<T>(before: seq<T>, after: seq<T>, o: nat, n: nat) {
    |before| == |after| && o + n <= |before| && after[..o] == before[..o] && after[o + n..] == before[o + n..]
  }

  lemma OutsideTwice<T>(a: seq<T>, b: seq<T>, c: seq<T>, o: nat, n: nat)
    requires Outside(a, b, o, n) && Outside(b, c, o, n)
    ensures Outside(a, c, o, n)
  {
  }

  lemma Written<T>(s: seq<T>, o: nat, n: nat, j: nat, x: T)
    requires j < n && o + n <= |s|
    ensures s[o + j := x][o..o + n] == s[o..o + n][j := x] && Outside(s, s[o + j := x], o, n)
  {
  }

  method Put<T>(out: array<T>, o: nat, ghost n: nat, j: nat, x: T)
    requires j < n && o + n <= out.Length
    modifies out
    ensures out[o..o + n] == old(out[o..o + n])[j := x] && Outside(old(out[..]), out[..], o, n)
  {
    ghost var s := out[..];
    Written(s, o, n, j, x);
    out[o + j] := x;
    assert out[..] == s[o + j := x];
    assert out[o..o + n] == out[..][o..o + n];
    assert s[o..o + n] == old(out[o..o + n]);
  }

  method PutTwo<T>(out: array<T>, o: nat, ghost n: nat, i: nat, x: T, j: nat, y: T)
    requires i < n && j < n && o + n <= out.Length
    modifies out
    ensures out[o..o + n] == old(out[o..o + n])[i := x][j := y] && Outside(old(out[..]), out[..], o, n)
  {
    Put(out, o, n, i, x);
    ghost var b := out[..];
    Put(out, o, n, j, y);
    OutsideTwice(old(out[..]), b, out[..], o, n);
  }

  method PassTwoAt<T(!new)>(c: Cfg<T>, ghost w: int -> T, out: array<T>, o: nat, ghost fs: nat, m: nat, ghost n: nat,
                            u: nat, tw1: nat, ghost f: seq<T>)
    requires n == 2 * m && Exact(c, w) && c.nfft == 2 * By(m, fs) && tw1 == By(u, fs) < By(m, fs)
    requires o + n <= out.Length && u < m && Stage(c.ring, w, f, out[o..o + n], fs, m, 2, u)
    modifies out
    ensures Stage(c.ring, w, f, out[o..o + n], fs, m, 2, u + 1)
    ensures Outside(old(out[..]), out[..], o, n)
  {
    ghost var g := out[o..o + n];
    var r, a, b := c.ring, out[o + u], out[o + u + m];
    assert g[u] == a && g[u + m] == b;
    var t := r.mul(b, c.twiddles[tw1]);
    PutTwo(out, o, n, u + m, r.add(a, r.neg(t)), u, r.add(a, t));
    PassTwo(r, w, f, g, out[o..o + n], fs, m, u, t);
  }

  /** kf_bfly2() */
  method Bfly2<T(!new)>(c: Cfg<T>, ghost w: int -> T, out: array<T>, o: nat, fs: nat, m: nat, ghost n: nat)
    requires n == 2 * m && Exact(c, w) && c.nfft == 2 * By(m, fs) && fs >= 1 && o + n <= out.Length
    modifies out
    ensures Stage(c.ring, w, old(out[o..o + n]), out[o..o + n], fs, m, 2, m)
    ensures Outside(old(out[..]), out[..], o, n)
  {
    ghost var f := out[o..o + n];
    var tw1 := 0;
    for u := 0 to m
      invariant Stage(c.ring, w, f, out[o..o + n], fs, m, 2, u)
      invariant Outside(old(out[..]), out[..], o, n)
      invariant tw1 == By(u, fs)
    {
      Pointer(fs, u, m);
      PassTwoAt(c, w, out, o, fs, m, n, u, tw1, f);
      tw1 := tw1 + fs;
    }
  }

  // ---- radix 4

  /** Adding the middle term first. */
  lemma Reorder<T(!new)>(r: Ring<T>, a: T, s0: T, s1: T, s2: T)
    requires IsRing(r)
    ensures r.add(r.add(r.add(a, s0), s1), s2) == r.add(r.add(a, s1), r.add(s0, s2))
  {
    Swap4(r, a, s0, s1, s2);
    Laws(r, r.add(a, s0), s1, s2);
  }

  lemma OutputFour<T(!new)>(r: Ring<T>, w: int -> T, col: seq<T>, step: int, x: T, y: T, z: T)
    requires IsRing(r) && Powers(r, w) && |col| == 4
    requires x == r.mul(col[1], w(step)) && y == r.mul(col[2], w(2 * step)) && z == r.mul(col[3], w(3 * step))
    ensures IsOutput(r, w, col, step, r.add(r.add(col[0], y), r.add(x, z)))
  {
    UpToThree(step);
    TwoTerms(r, w, col, step);
    assert Output(r, w, col, step, 3) == r.add(Output(r, w, col, step, 2), y);
    assert Output(r, w, col, step, 4) == r.add(Output(r, w, col, step, 3), z);
    Reorder(r, col[0], x, y, z);
  }

  /** `quarter` multiplies by the power h, whose square is -1. */
  ghost predicate QuarterTurn<T(!new)>(r: Ring<T>, w: int -> T, quarter: T -> T, h: int) {
    w(2 * h) == r.neg(r.one) && w(4 * h) == r.one && forall x {:trigger quarter(x)} :: quarter(x) == r.mul(w(h), x)
  }

  /** A quarter turn on. */
  lemma QuarterOn<T(!new)>(r: Ring<T>, w: int -> T, quarter: T -> T, a: T, step: int, h: int)
    requires IsRing(r) && Powers(r, w) && QuarterTurn(r, w, quarter, h)
    ensures r.mul(a, w(step + h)) == quarter(r.mul(a, w(step)))
  {
    PowerAdd(r, w, step, h);
    Laws(r, a, w(step), w(h));
    Laws(r, r.mul(a, w(step)), w(h), a);
  }

  lemma QuarterLinear<T(!new)>(r: Ring<T>, w: int -> T, quarter: T -> T, h: int, a: T, b: T)
    requires IsRing(r) && QuarterTurn(r, w, quarter, h)
    ensures quarter(r.add(a, r.neg(b))) == r.add(quarter(a), r.neg(quarter(b)))
  {
    var turn := w(h);
    Laws(r, a, r.neg(b), turn);
    Laws(r, r.add(a, r.neg(b)), turn, a);
    Laws(r, a, turn, a);
    Laws(r, r.neg(b), turn, a);
    NegMul(r, turn, b);
  }

  lemma FirstOutput<T(!new)>(r: Ring<T>, w: int -> T, quarter: T -> T, col: seq<T>, e: int, h: int, x: T, y: T, z: T)
    requires IsRing(r) && Powers(r, w) && QuarterTurn(r, w, quarter, h) && |col| == 4
    requires x == r.mul(col[1], w(e)) && y == r.mul(col[2], w(2 * e)) && z == r.mul(col[3], w(3 * e))
    ensures IsOutput(r, w, col, e + h, r.add(r.add(col[0], r.neg(y)), quarter(r.add(x, r.neg(z)))))
  {
    QuarterOn(r, w, quarter, col[1], e, h);
    HalfOn(r, w, col[2], 2 * e, 2 * h);
    QuarterOn(r, w, quarter, col[3], 3 * e, h);
    HalfOn(r, w, col[3], 3 * e + h, 2 * h);
    OutputFour(r, w, col, e + h, quarter(x), r.neg(y), r.neg(quarter(z)));
    QuarterLinear(r, w, quarter, h, x, z);
  }

  lemma SecondOutput<T(!new)>(r: Ring<T>, w: int -> T, quarter: T -> T, col: seq<T>, e: int, h: int, x: T, y: T, z: T)
    requires IsRing(r) && Powers(r, w) && QuarterTurn(r, w, quarter, h) && |col| == 4
    requires x == r.mul(col[1], w(e)) && y == r.mul(col[2], w(2 * e)) && z == r.mul(col[3], w(3 * e))
    ensures IsOutput(r, w, col, e + 2 * h, r.add(r.add(col[0], y), r.neg(r.add(x, z))))
  {
    HalfOn(r, w, col[1], e, 2 * h);
    PowerPeriod(r, w, 4 * h, 2 * e);
    PowerPeriod(r, w, 4 * h, 3 * e + 2 * h);
    HalfOn(r, w, col[3], 3 * e, 2 * h);
    OutputFour(r, w, col, e + 2 * h, r.neg(x), y, r.neg(z));
    NegAdd(r, x, z);
  }

  lemma ThirdOutput<T(!new)>(r: Ring<T>, w: int -> T, quarter: T -> T, col: seq<T>, e: int, h: int, x: T, y: T, z: T)
    requires IsRing(r) && Powers(r, w) && QuarterTurn(r, w, quarter, h) && |col| == 4
    requires x == r.mul(col[1], w(e)) && y == r.mul(col[2], w(2 * e)) && z == r.mul(col[3], w(3 * e))
    ensures IsOutput(r, w, col, e + 3 * h, r.add(r.add(col[0], r.neg(y)), r.neg(quarter(r.add(x, r.neg(z))))))
  {
    QuarterOn(r, w, quarter, col[1], e, h);
    HalfOn(r, w, col[1], e + h, 2 * h);
    HalfOn(r, w, col[2], 2 * e, 2 * h);
    PowerPeriod(r, w, 4 * h, 2 * e + 2 * h);
    PowerPeriod(r, w, 4 * h, 3 * e + 5 * h);
    PowerPeriod(r, w, 4 * h, 3 * e + h);
    QuarterOn(r, w, quarter, col[3], 3 * e, h);
    OutputFour(r, w, col, e + 3 * h, r.neg(quarter(x)), r.neg(y), quarter(z));
    QuarterLinear(r, w, quarter, h, x, z);
    NegAdd(r, quarter(x), r.neg(quarter(z)));
    NegAdd(r, quarter(z), quarter(z));
  }

  /** The values kf_bfly4() writes for a column a, given its turned entries x, y and z. */
  function FourValues<T>(r: Ring<T>, quarter: T -> T, a: T, x: T, y: T, z: T): (v: seq<T>)
    ensures |v| == 4
  {
    [r.add(r.add(a, y), r.add(x, z)),
     r.add(r.add(a, r.neg(y)), quarter(r.add(x, r.neg(z)))),
     r.add(r.add(a, y), r.neg(r.add(x, z))),
     r.add(r.add(a, r.neg(y)), r.neg(quarter(r.add(x, r.neg(z)))))]
  }

  /** The four outputs of a column of four are the values kf_bfly4() computes. */
  lemma MixedFour<T(!new)>(r: Ring<T>, w: int -> T, quarter: T -> T, col: seq<T>, e: int, h: int, x: T, y: T, z: T)
    requires IsRing(r) && Powers(r, w) && QuarterTurn(r, w, quarter, h) && |col| == 4
    requires x == r.mul(col[1], w(e)) && y == r.mul(col[2], w(2 * e)) && z == r.mul(col[3], w(3 * e))
    ensures Mixed(r, w, col, e, h, FourValues(r, quarter, col[0], x, y, z))
  {
    UpToThree(h);
    OutputFour(r, w, col, e, x, y, z);
    FirstOutput(r, w, quarter, col, e, h, x, y, z);
    SecondOutput(r, w, quarter, col, e, h, x, y, z);
    ThirdOutput(r, w, quarter, col, e, h, x, y, z);
  }

  lemma NextRow(m: nat, q: nat)
    ensures q * m + m == (q + 1) * m
  {
  }

  /** The first i entries of column u have been replaced by those of v, and no other column has changed. */
  ghost predicate Rewritten<T>(g: seq<T>, now: seq<T>, m: nat, p: nat, u: nat, v: seq<T>, i: nat) {
    |g| == |now| == p * m && u < m && i <= |v| == p && Column(now, m, p, u) == v[..i] + Column(g, m, p, u)[i..] &&
    forall x :: 0 <= x < m && x != u ==> Column(now, m, p, x) == Column(g, m, p, x)
  }

  lemma RewriteNext<T(!new)>(g: seq<T>, now: seq<T>, after: seq<T>, m: nat, p: nat, u: nat, v: seq<T>, i: nat)
    requires Rewritten(g, now, m, p, u, v, i) && i < p && u + i * m < |now| && after == now[u + i * m := v[i]]
    ensures Rewritten(g, after, m, p, u, v, i + 1)
  {
    ColumnUpdate(now, m, p, u, i, v[i]);
    OneMore(v, Column(g, m, p, u), i);
  }

  lemma OneMore<T>(v: seq<T>, c: seq<T>, i: nat)
    requires |v| == |c| && i < |v|
    ensures (v[..i] + c[i..])[i := v[i]] == v[..i + 1] + c[i + 1..]
  {
  }

  /** Rewrites a whole column. */
  method PutColumn<T(!new)>(out: array<T>, o: nat, m: nat, p: nat, ghost n: nat, u: nat, v: seq<T>)
    requires n == p * m && o + n <= out.Length && u < m && |v| == p
    modifies out
    ensures Rewritten(old(out[o..o + n]), out[o..o + n], m, p, u, v, p)
    ensures Outside(old(out[..]), out[..], o, n)
  {
    ghost var g := out[o..o + n];
    var k := u;
    for i := 0 to p
      invariant k == u + i * m
      invariant Rewritten(g, out[o..o + n], m, p, u, v, i)
      invariant Outside(old(out[..]), out[..], o, n)
    {
      ghost var all := out[..];
      PutEntry(out, o, m, p, n, u, v, i, k, g);
      OutsideTwice(old(out[..]), all, out[..], o, n);
      NextRow(m, i);
      k := k + m;
    }
  }

  method PutEntry<T(!new)>(out: array<T>, o: nat, ghost m: nat, ghost p: nat, ghost n: nat, ghost u: nat,
                           v: seq<T>, i: nat, k: nat, ghost g: seq<T>)
    requires n == p * m && o + n <= out.Length && i < p && k == u + i * m && Rewritten(g, out[o..o + n], m, p, u, v, i)
    modifies out
    ensures Rewritten(g, out[o..o + n], m, p, u, v, i + 1)
    ensures Outside(old(out[..]), out[..], o, n)
  {
    ghost var now := out[o..o + n];
    Row(m, p, u, i);
    Put(out, o, n, k, v[i]);
    RewriteNext(g, now, out[o..o + n], m, p, u, v, i);
  }

  lemma RewrittenColumn<T(!new)>(r: Ring<T>, w: int -> T, f: seq<T>, g: seq<T>, h: seq<T>, fs: nat, m: nat, p: nat, u: nat, v: seq<T>)
    requires Stage(r, w, f, g, fs, m, p, u) && Rewritten(g, h, m, p, u, v, p) && Mixed(r, w, Column(g, m, p, u), By(u, fs), By(m, fs), v)
    ensures Stage(r, w, f, h, fs, m, p, u + 1)
  {
    assert v[..p] + Column(g, m, p, u)[p..] == v;
    ColumnDone(r, w, f, g, h, fs, m, p, u);
  }

  /** The values of a pass, in terms of the block before it. */
  ghost predicate PassValues<T>(r: Ring<T>, w: int -> T, quarter: T -> T, g: seq<T>, m: nat, u: nat, e: int, v: seq<T>)
    requires u < m && |g| == 4 * m
  {
    v == FourValues(r, quarter, g[u], r.mul(g[u + m], w(e)), r.mul(g[u + 2 * m], w(2 * e)), r.mul(g[u + 3 * m], w(3 * e)))
  }

  lemma PassColumn<T(!new)>(r: Ring<T>, w: int -> T, quarter: T -> T, g: seq<T>, m: nat, u: nat, e: int, h: int, v: seq<T>)
    requires IsRing(r) && Powers(r, w) && QuarterTurn(r, w, quarter, h) && u < m && |g| == 4 * m && PassValues(r, w, quarter, g, m, u, e, v)
    ensures Mixed(r, w, Column(g, m, 4, u), e, h, v)
  {
    var col := Column(g, m, 4, u);
    assert u + 0 * m == u && u + 1 * m == u + m;
    assert col[0] == g[u] && col[1] == g[u + m] && col[2] == g[u + 2 * m] && col[3] == g[u + 3 * m];
    MixedFour(r, w, quarter, col, e, h, r.mul(col[1], w(e)), r.mul(col[2], w(2 * e)), r.mul(col[3], w(3 * e)));
  }

  lemma QuarterIsExact<T(!new)>(c: Cfg<T>, w: int -> T, h: int)
    requires Exact(c, w) && c.nfft == 4 * h
    ensures QuarterTurn(c.ring, w, c.quarter, h)
  {
    assert c.nfft == 2 * (2 * h);
    assert w(h) == w(h);
  }

  method PassFourValues<T(!new)>(c: Cfg<T>, ghost w: int -> T, out: array<T>, o: nat, m: nat, ghost n: nat, u: nat,
                                 tw1: nat) returns (v: seq<T>)
    requires n == 4 * m && Exact(c, w) && 3 * tw1 < c.nfft && o + n <= out.Length && u < m
    ensures |v| == 4 && PassValues(c.ring, w, c.quarter, out[o..o + n], m, u, tw1, v)
  {
    var r := c.ring;
    var x, y, z := r.mul(out[o + u + m], c.twiddles[tw1]), r.mul(out[o + u + 2 * m], c.twiddles[2 * tw1]),
                   r.mul(out[o + u + 3 * m], c.twiddles[3 * tw1]);
    v := FourValues(r, c.quarter, out[o + u], x, y, z);
  }

  method PassFourAt<T(!new)>(c: Cfg<T>, ghost w: int -> T, out: array<T>, o: nat, ghost fs: nat, m: nat,
                             ghost n: nat, u: nat, tw1: nat, ghost f: seq<T>)
    requires n == 4 * m && Exact(c, w) && c.nfft == 4 * By(m, fs) && tw1 == By(u, fs) < By(m, fs)
    requires o + n <= out.Length && u < m && Stage(c.ring, w, f, out[o..o + n], fs, m, 4, u)
    modifies out
    ensures Stage(c.ring, w, f, out[o..o + n], fs, m, 4, u + 1)
    ensures Outside(old(out[..]), out[..], o, n)
  {
    ghost var g := out[o..o + n];
    var v := PassFourValues(c, w, out, o, m, n, u, tw1);
    PutColumn(out, o, m, 4, n, u, v);
    QuarterIsExact(c, w, By(m, fs));
    PassColumn(c.ring, w, c.quarter, g, m, u, By(u, fs), By(m, fs), v);
    RewrittenColumn(c.ring, w, f, g, out[o..o + n], fs, m, 4, u, v);
  }

  /** kf_bfly4() */
  method Bfly4<T(!new)>(c: Cfg<T>, ghost w: int -> T, out: array<T>, o: nat, fs: nat, m: nat, ghost n: nat)
    requires n == 4 * m && Exact(c, w) && c.nfft == 4 * By(m, fs) && fs >= 1 && o + n <= out.Length
    modifies out
    ensures Stage(c.ring, w, old(out[o..o + n]), out[o..o + n], fs, m, 4, m)
    ensures Outside(old(out[..]), out[..], o, n)
  {
    ghost var f := out[o..o + n];
    var tw1 := 0;
    for u := 0 to m
      invariant Stage(c.ring, w, f, out[o..o + n], fs, m, 4, u)
      invariant Outside(old(out[..]), out[..], o, n)
      invariant tw1 == By(u, fs)
    {
      Pointer(fs, u, m);
      PassFourAt(c, w, out, o, fs, m, n, u, tw1, f);
      tw1 := tw1 + fs;
    }
  }

  // ---- any radix

  lemma FirstTerm<T(!new)>(r: Ring<T>, w: int -> T, col: seq<T>, step: int)
    requires IsRing(r) && Powers(r, w) && |col| >= 1
    ensures Output(r, w, col, step, 1) == col[0]
  {
    assert By(0, step) == 0;
    Laws(r, col[0], col[0], col[0]);
    ZeroTimes(r, col[0]);
    assert Output(r, w, col, step, 1) == r.add(r.zero, r.mul(col[0], w(0)));
  }

  /** The inner loop of kf_bfly_generic(): one output; the twiddle index stays in the table by one subtraction. */
  method OneOutput<T(!new)>(c: Cfg<T>, ghost w: int -> T, scratch: seq<T>, d: nat) returns (y: T)
    requires Exact(c, w) && |scratch| >= 1 && d < c.nfft
    ensures IsOutput(c.ring, w, scratch, d, y)
  {
    var twidx: nat := 0;
    y := scratch[0];
    ghost var e := 0;
    FirstTerm(c.ring, w, scratch, d);
    for q := 1 to |scratch|
      invariant twidx < c.nfft && w(twidx) == w(e) && SoFar(c.ring, w, scratch, d, q, e, y)
    {
      y, twidx := AddTerm(c, w, scratch, d, q, twidx, e, y);
      e := e + d;
    }
  }

  method AddTerm<T(!new)>(c: Cfg<T>, ghost w: int -> T, scratch: seq<T>, d: nat, q: nat, i: nat, ghost e: int, y: T)
    returns (sum: T, twidx: nat)
    requires Exact(c, w) && d < c.nfft && q < |scratch| && i < c.nfft && w(i) == w(e) && SoFar(c.ring, w, scratch, d, q, e, y)
    ensures twidx < c.nfft && w(twidx) == w(e + d) && SoFar(c.ring, w, scratch, d, q + 1, e + d, sum)
  {
    var t;
    t, twidx := NextTwiddle(c, w, i, d, e);
    NextTerm(c.ring, w, scratch, d, q, e, y);
    sum := c.ring.add(y, c.ring.mul(scratch[q], t));
  }

  /** y is the sum of the first q terms, the last of them turned by e. */
  ghost predicate SoFar<T>(r: Ring<T>, w: int -> T, col: seq<T>, d: int, q: nat, e: int, y: T) {
    1 <= q <= |col| && e == By(q - 1, d) && y == Output(r, w, col, d, q)
  }

  lemma NextTerm<T(!new)>(r: Ring<T>, w: int -> T, col: seq<T>, d: int, q: nat, e: int, y: T)
    requires SoFar(r, w, col, d, q, e, y) && q < |col|
    ensures SoFar(r, w, col, d, q + 1, e + d, r.add(y, r.mul(col[q], w(e + d))))
  {
  }

  method NextTwiddle<T(!new)>(c: Cfg<T>, ghost w: int -> T, i: nat, d: nat, ghost e: int) returns (t: T, twidx: nat)
    requires Exact(c, w) && d < c.nfft && i < c.nfft && w(i) == w(e)
    ensures t == w(e + d) && twidx < c.nfft && w(twidx) == w(e + d)
  {
    NextPower(c, w, i, e, d);
    twidx := i + d;
    if twidx >= c.nfft { twidx := twidx - c.nfft; }
    t := c.twiddles[twidx];
  }

  lemma NextPower<T(!new)>(c: Cfg<T>, w: int -> T, i: int, e: int, d: int)
    requires Exact(c, w) && w(i) == w(e)
    ensures w(i + d) == w(e + d) && w(i + d - c.nfft) == w(e + d)
  {
    PowerAdd(c.ring, w, i, d);
    PowerAdd(c.ring, w, e, d);
    PowerPeriod(c.ring, w, c.nfft, i + d - c.nfft);
  }

  /** Copies column u to the scratch buffer. */
  method Gather<T(!new)>(out: array<T>, o: nat, m: nat, p: nat, u: nat) returns (scratch: seq<T>)
    requires u < m && o + p * m <= out.Length
    ensures scratch == Column(out[o..o + p * m], m, p, u)
  {
    ghost var g := out[o..o + p * m];
    scratch := [];
    var k := u;
    for q := 0 to p
      invariant k == u + q * m && |scratch| == q && forall i :: 0 <= i < q ==> scratch[i] == Column(g, m, p, u)[i]
    {
      Row(m, p, u, q);
      assert g[k] == out[o + k];
      scratch := scratch + [out[o + k]];
      NextRow(m, q);
      k := k + m;
    }
  }

  /** The first q entries of a column have been replaced by its outputs. */
  ghost predicate Partly<T(!new)>(r: Ring<T>, w: int -> T, col: seq<T>, e: int, h: int, cur: seq<T>, q: nat) {
    q <= |cur| == |col| && (forall i {:trigger cur[i]} :: 0 <= i < q ==> IsOutput(r, w, col, e + By(i, h), cur[i])) &&
    forall i {:trigger cur[i]} :: q <= i < |col| ==> cur[i] == col[i]
  }

  lemma PartlyNext<T(!new)>(r: Ring<T>, w: int -> T, col: seq<T>, e: int, h: int, cur: seq<T>, q: nat, y: T)
    requires Partly(r, w, col, e, h, cur, q) && q < |col| && IsOutput(r, w, col, e + By(q, h), y)
    ensures Partly(r, w, col, e, h, cur[q := y], q + 1)
  {
    var next := cur[q := y];
    forall i {:trigger next[i]} | 0 <= i < q + 1 ensures IsOutput(r, w, col, e + By(i, h), next[i]) {
      if i < q { assert next[i] == cur[i]; }
    }
  }

  ghost predicate Writing<T(!new)>(r: Ring<T>, w: int -> T, g: seq<T>, now: seq<T>, fs: nat, m: nat, p: nat, u: nat, q: nat)
    requires u < m && |g| == |now| == p * m
  {
    Partly(r, w, Column(g, m, p, u), By(u, fs), By(m, fs), Column(now, m, p, u), q) &&
    forall v :: 0 <= v < m && v != u ==> Column(now, m, p, v) == Column(g, m, p, v)
  }

  lemma WriteNext<T(!new)>(r: Ring<T>, w: int -> T, g: seq<T>, now: seq<T>, after: seq<T>, fs: nat, m: nat, p: nat,
                           u: nat, q: nat, y: T)
    requires u < m && q < p && |g| == |now| == p * m && Writing(r, w, g, now, fs, m, p, u, q)
    requires IsOutput(r, w, Column(g, m, p, u), By(u, fs) + By(q, By(m, fs)), y)
    requires u + q * m < p * m && after == now[u + q * m := y]
    ensures Writing(r, w, g, after, fs, m, p, u, q + 1)
  {
    ColumnUpdate(now, m, p, u, q, y);
    PartlyNext(r, w, Column(g, m, p, u), By(u, fs), By(m, fs), Column(now, m, p, u), q, y);
  }

  lemma InTable(fs: nat, k: nat, n: nat)
    requires k < n && fs >= 1
    ensures 0 <= fs * k < fs * n
  {
    assert fs * n - fs * k == fs * (n - k);
    AtLeastOnce(n - k, fs);
  }

  /** One pass of the outer loop of kf_bfly_generic(). */
  method GenericColumn<T(!new)>(c: Cfg<T>, ghost w: int -> T, out: array<T>, o: nat, fs: nat, m: nat, p: nat,
                                ghost n: nat, u: nat)
    requires Exact(c, w) && n == p * m && c.nfft == fs * n && fs >= 1 && p >= 1 && o + n <= out.Length && u < m
    modifies out
    ensures Writing(c.ring, w, old(out[o..o + n]), out[o..o + n], fs, m, p, u, p)
    ensures Outside(old(out[..]), out[..], o, n)
  {
    ghost var g := out[o..o + n];
    var scratch := Gather(out, o, m, p, u);
    var k := u;
    for q := 0 to p
      invariant k == u + q * m
      invariant Writing(c.ring, w, g, out[o..o + n], fs, m, p, u, q)
      invariant Outside(old(out[..]), out[..], o, n)
    {
      WriteOne(c, w, out, o, fs, m, p, n, u, q, k, scratch, g);
      NextRow(m, q);
      k := k + m;
    }
  }

  method WriteOne<T(!new)>(c: Cfg<T>, ghost w: int -> T, out: array<T>, o: nat, fs: nat, ghost m: nat, ghost p: nat,
                           ghost n: nat, ghost u: nat, ghost q: nat, k: nat,
                           scratch: seq<T>, ghost g: seq<T>)
    requires Exact(c, w) && n == p * m && c.nfft == fs * n && fs >= 1 && o + n <= out.Length && u < m && q < p && k == u + q * m
    requires |g| == n && scratch == Column(g, m, p, u) && Writing(c.ring, w, g, out[o..o + n], fs, m, p, u, q)
    modifies out
    ensures Writing(c.ring, w, g, out[o..o + n], fs, m, p, u, q + 1)
    ensures Outside(old(out[..]), out[..], o, n)
  {
    Row(m, p, u, q);
    InTable(fs, k, n);
    var y := OneOutput(c, w, scratch, fs * k);
    StepIs(fs, m, p, u, q, k, fs * k);
    ghost var now := out[o..o + n];
    Put(out, o, n, k, y);
    WriteNext(c.ring, w, g, now, out[o..o + n], fs, m, p, u, q, y);
  }

  lemma WroteAll<T(!new)>(r: Ring<T>, w: int -> T, f: seq<T>, g: seq<T>, now: seq<T>, fs: nat, m: nat, p: nat, u: nat)
    requires u < m && |g| == |now| == p * m && Stage(r, w, f, g, fs, m, p, u) && Writing(r, w, g, now, fs, m, p, u, p)
    ensures Stage(r, w, f, now, fs, m, p, u + 1)
  {
    ColumnDone(r, w, f, g, now, fs, m, p, u);
  }

  /** kf_bfly_generic() */
  method BflyGeneric<T(!new)>(c: Cfg<T>, ghost w: int -> T, out: array<T>, o: nat, fs: nat, m: nat, p: nat, ghost n: nat)
    requires Exact(c, w) && n == p * m && c.nfft == fs * n && fs >= 1 && p >= 1 && o + n <= out.Length
    modifies out
    ensures Stage(c.ring, w, old(out[o..o + n]), out[o..o + n], fs, m, p, m)
    ensures Outside(old(out[..]), out[..], o, n)
  {
    ghost var f := out[o..o + n];
    for u := 0 to m
      invariant Stage(c.ring, w, f, out[o..o + n], fs, m, p, u)
      invariant Outside(old(out[..]), out[..], o, n)
    {
      ghost var g, all := out[o..o + n], out[..];
      GenericColumn(c, w, out, o, fs, m, p, n, u);
      OutsideTwice(old(out[..]), all, out[..], o, n);
      WroteAll(c.ring, w, f, g, out[o..o + n], fs, m, p, u);
    }
  }
}
