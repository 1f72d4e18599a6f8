/**
 The recursion of the fast Fourier transform, the factoring of its length, and what the whole
 computes: the discrete Fourier transform, for every length.
 */
module FftRecursion {
  import opened Fourier
  import opened Butterfly
  import opened KissFft
  import opened OddRadix
  import opened RadixSearch

  /** Pairs of a radix and the length that is left, down to 1. */
  ghost predicate Factored(f: seq<nat>, n: nat)
    decreases |f|
  {
    |f| >= 2 && f[0] >= 1 && f[1] >= 1 && n == f[0] * f[1] && (f[1] > 1 ==> Factored(f[2..], f[1]))
  }

  /** The first q sub-blocks of g hold the interleaved transforms of x. */
  ghost predicate Halfway<T>(r: Ring<T>, w: int -> T, x: seq<T>, g: seq<T>, b: int, s: int, sub: int, m: nat, p: nat, q: nat) {
    |g| == p * m && q <= p &&
    forall u, i {:trigger Column(g, m, p, u)[i]} :: 0 <= u < m && 0 <= i < q ==>
      Column(g, m, p, u)[i] == Sum(r, x, w, b + s * i, s * p, sub * u, m)
  }

  /** Sub-block q of h holds its transform. */
  ghost predicate BlockDone<T>(r: Ring<T>, w: int -> T, x: seq<T>, h: seq<T>, f: int, sp: int, sub: int, m: nat) {
    |h| == m && forall u :: 0 <= u < m ==> h[u] == Sum(r, x, w, f, sp, sub * u, m)
  }

  lemma InRow(m: nat, p: nat, q: nat)
    requires q < p
    ensures 0 <= q * m && q * m + m <= p * m
  {
    var d := p - q;
    assert p * m == q * m + d * m;
    AtLeastOnce(d, m);
  }

  lemma EarlierRow(m: nat, u: nat, i: nat, q: nat)
    requires u < m && i < q
    ensures u + i * m < q * m
  {
    Row(m, q, u, i);
  }

  /** Filling sub-block q. */
  lemma NextBlock<T(!new)>(r: Ring<T>, w: int -> T, x: seq<T>, g: seq<T>, h: seq<T>, b: int, s: int, sub: int,
                           m: nat, p: nat, q: nat)
    requires Halfway(r, w, x, g, b, s, sub, m, p, q) && q < p && |h| == |g| && 0 <= q * m && q * m + m <= |g|
    requires h[..q * m] == g[..q * m] && BlockDone(r, w, x, h[q * m..q * m + m], b + s * q, s * p, sub, m)
    ensures Halfway(r, w, x, h, b, s, sub, m, p, q + 1)
  {
    forall u, i | 0 <= u < m && 0 <= i < q + 1 ensures Column(h, m, p, u)[i] == Sum(r, x, w, b + s * i, s * p, sub * u, m) {
      if i < q {
        EarlierRow(m, u, i, q);
        assert Column(g, m, p, u)[i] == g[..q * m][u + i * m];
        assert Column(h, m, p, u)[i] == h[..q * m][u + i * m];
      } else {
        assert h[q * m..q * m + m][u] == h[u + q * m];
      }
    }
  }

  /** A sub-block seen from the block around it. */
  lemma Nested<T>(before: seq<T>, after: seq<T>, o: nat, n: nat, j: nat, m: nat)
    requires Outside(before, after, o + j, m) && j + m <= n && o + n <= |before|
    ensures after[o..o + n][..j] == before[o..o + n][..j] && after[o..o + n][j..j + m] == after[o + j..o + j + m]
    ensures Outside(before, after, o, n)
  {
    assert forall i :: 0 <= i < o + j ==> after[i] == after[..o + j][i] && before[i] == before[..o + j][i];
    SliceOfSlice(after, o, n, j, m);
    Wider(before, after, o, n, j, m);
  }

  lemma SliceOfSlice<T>(s: seq<T>, o: nat, n: nat, j: nat, m: nat)
    requires j + m <= n && o + n <= |s|
    ensures s[o..o + n][j..j + m] == s[o + j..o + j + m]
  {
    var outer := s[o..o + n];
    var a, b := outer[j..j + m], s[o + j..o + j + m];
    forall i | 0 <= i < m ensures a[i] == b[i] { assert a[i] == outer[j + i]; }
  }

  lemma Wider<T>(before: seq<T>, after: seq<T>, o: nat, n: nat, j: nat, m: nat)
    requires Outside(before, after, o + j, m) && j + m <= n && o + n <= |before|
    ensures Outside(before, after, o, n)
  {
    assert after[..o] == after[..o + j][..o] && before[..o] == before[..o + j][..o];
    assert after[o + n..] == after[o + j + m..][n - j - m..] && before[o + n..] == before[o + j + m..][n - j - m..];
  }

  function Place(b: int, s: int, j: int): int { b + s * j }

  /** Every input of an n-point transform is there. */
  ghost predicate Readable<T>(x: seq<T>, b: int, s: int, n: nat) {
    forall j :: 0 <= j < n ==> 0 <= Place(b, s, j) < |x|
  }

  lemma ReadablePart<T>(x: seq<T>, b: int, s: int, n: nat, m: nat, p: nat, q: nat)
    requires Readable(x, b, s, n) && n == p * m && q < p
    ensures Readable(x, b + s * q, s * p, m)
  {
    var first, stride := b + s * q, s * p;
    forall j | 0 <= j < m ensures 0 <= Place(first, stride, j) < |x| {
      PlaceIs(b, s, p, q, j);
      Row(p, m, q, j);
      assert 0 <= Place(b, s, q + j * p) < |x|;
    }
  }

  lemma PlaceIs(b: int, s: int, p: int, q: int, j: int)
    ensures Place(b + s * q, s * p, j) == Place(b, s, q + j * p)
  {
  }

  lemma LeafIs<T(!new)>(r: Ring<T>, w: int -> T, x: seq<T>, f: int, sp: int, sub: int, h: seq<T>)
    requires IsRing(r) && Powers(r, w) && 0 <= f < |x| && h == [x[f]]
    ensures BlockDone(r, w, x, h, f, sp, sub, 1)
  {
    Laws(r, x[f], x[f], x[f]);
    ZeroTimes(r, x[f]);
    assert sub * 0 == 0 && sp * 0 == 0 && sub * 0 * 0 == 0;
    assert Term(r, x, w, f, sp, sub * 0, 0) == x[f];
    assert Sum(r, x, w, f, sp, sub * 0, 1) == r.add(r.zero, x[f]);
  }

  /** Copies the strided samples of a stage whose sub-transforms have one point each. */
  method Leaves<T(!new)>(c: Cfg<T>, ghost w: int -> T, out: array<T>, o: nat, x: seq<T>, b: nat, s: nat, p: nat, ghost sub: int)
    requires Exact(c, w) && o + p <= out.Length && Readable(x, b, s, p)
    modifies out
    ensures Halfway(c.ring, w, x, out[o..o + p], b, s, sub, 1, p, p)
    ensures Outside(old(out[..]), out[..], o, p)
  {
    var f := b;
    for q := 0 to p
      invariant f == b + s * q
      invariant Halfway(c.ring, w, x, out[o..o + p], b, s, sub, 1, p, q)
      invariant Outside(old(out[..]), out[..], o, p)
    {
      ghost var all := out[..];
      Leaf(c, w, out, o, x, b, s, p, sub, q, f);
      OutsideTwice(old(out[..]), all, out[..], o, p);
      assert s * q + s == s * (q + 1);
      f := f + s;
    }
  }

  method Leaf<T(!new)>(c: Cfg<T>, ghost w: int -> T, out: array<T>, o: nat, x: seq<T>, ghost b: nat, ghost s: nat,
                       ghost p: nat, ghost sub: int, q: nat, f: nat)
    requires Exact(c, w) && q < p && o + p <= out.Length && Readable(x, b, s, p) && f == b + s * q
    requires Halfway(c.ring, w, x, out[o..o + p], b, s, sub, 1, p, q)
    modifies out
    ensures Halfway(c.ring, w, x, out[o..o + p], b, s, sub, 1, p, q + 1)
    ensures Outside(old(out[..]), out[..], o, p)
  {
    ghost var g := out[o..o + p];
    assert f == Place(b, s, q);
    Put(out, o, p, q, x[f]);
    ghost var h := out[o..o + p];
    assert h == g[q := x[f]];
    assert q * 1 == q && h[q..q + 1] == [x[f]];
    LeafIs(c.ring, w, x, f, s * p, sub, h[q..q + 1]);
    NextBlock(c.ring, w, x, g, h, b, s, sub, 1, p, q);
  }

  lemma Strides(fs: int, inStride: int, p: int)
    ensures fs * inStride * p == fs * p * inStride
  {
  }

  lemma Sizes(nfft: nat, fs: nat, n: nat, p: nat, m: nat)
    requires nfft == fs * n && n == p * m && fs >= 1 && p >= 1
    ensures nfft == fs * p * m && fs * p >= 1 && nfft == p * By(m, fs)
  {
    ByIsTimes(m, fs);
    AtLeastOnce(p, fs);
    assert fs * (p * m) == fs * p * m;
    assert p * fs == fs * p;
  }

  /** The p recursive calls, each on its own sub-block of the output. */
  method SubTransforms<T(!new)>(c: Cfg<T>, ghost w: int -> T, out: array<T>, o: nat, x: seq<T>, b: nat, fs: nat,
                                inStride: nat, factors: seq<nat>,
                                ghost n: nat, ghost s: nat)
    requires Exact(c, w) && Factored(factors, n) && factors[1] > 1 && c.nfft == fs * n && fs >= 1 && s == fs * inStride
    requires o + n <= out.Length && Readable(x, b, s, n)
    modifies out
    ensures Halfway(c.ring, w, x, out[o..o + n], b, s, fs * factors[0], factors[1], factors[0], factors[0])
    ensures Outside(old(out[..]), out[..], o, n)
    decreases |factors|, 0
  {
    var p, m := factors[0], factors[1];
    ghost var sub := fs * p;
    Sizes(c.nfft, fs, n, p, m);
    Strides(fs, inStride, p);
    var f, at := b, 0;
    for q := 0 to p
      invariant f == b + s * q && at == q * m
      invariant Halfway(c.ring, w, x, out[o..o + n], b, s, sub, m, p, q)
      invariant Outside(old(out[..]), out[..], o, n)
    {
      ghost var g, all := out[o..o + n], out[..];
      InRow(m, p, q);
      ReadablePart(x, b, s, n, m, p, q);
      assert s * q + s == s * (q + 1);
      KfWork(c, w, out, o + at, x, f, fs * p, inStride, factors[2..], m, s * p);
      Nested(all, out[..], o, n, at, m);
      OutsideTwice(old(out[..]), all, out[..], o, n);
      NextBlock(c.ring, w, x, g, out[o..o + n], b, s, sub, m, p, q);
      NextRow(m, q);
      f, at := f + fs * inStride, at + m;
    }
  }

  /** A finished stage is the transform of the whole block. */
  lemma BlockTransformed<T(!new)>(r: Ring<T>, w: int -> T, x: seq<T>, f: seq<T>, g: seq<T>, b: int, s: int, fs: nat,
                                  m: nat, p: nat, n: nat)
    requires IsRing(r) && Powers(r, w) && w(fs * p * m) == r.one && n == p * m && m >= 1
    requires Stage(r, w, f, g, fs, m, p, m) && Halfway(r, w, x, f, b, s, fs * p, m, p, p)
    ensures BlockDone(r, w, x, g, b, s, fs, n)
  {
    forall k | 0 <= k < n ensures g[k] == Sum(r, x, w, b, s, fs * k, n) { ValueAt(r, w, x, f, g, b, s, fs, m, p, n, k); }
  }

  lemma ValueAt<T(!new)>(r: Ring<T>, w: int -> T, x: seq<T>, f: seq<T>, g: seq<T>, b: int, s: int, fs: nat, m: nat,
                         p: nat, n: nat, k: nat)
    requires IsRing(r) && Powers(r, w) && w(fs * p * m) == r.one && n == p * m && m >= 1 && k < n
    requires Stage(r, w, f, g, fs, m, p, m) && Halfway(r, w, x, f, b, s, fs * p, m, p, p)
    ensures k < |g| && g[k] == Sum(r, x, w, b, s, fs * k, n)
  {
    Coordinates(k, m, p);
    StageIsTransform(r, w, x, f, g, b, s, fs, m, p, n, k % m, k / m, k, fs * k);
  }

  lemma Coordinates(k: nat, m: nat, p: nat)
    requires m >= 1 && k < p * m
    ensures k % m < m && k / m < p && k == k % m + (k / m) * m
  {
    MulLess(k / m, p, m);
  }

  lemma MulLess(a: int, b: int, m: int)
    requires m >= 1 && a * m < b * m
    ensures a < b
  {
  }

  /** kf_work(): the block of n values at o becomes the n-point transform of the inputs b, b + s, b + 2s, ... */
  method KfWork<T(!new)>(c: Cfg<T>, ghost w: int -> T, out: array<T>, o: nat, x: seq<T>, b: nat, fs: nat,
                         inStride: nat, factors: seq<nat>,
                         ghost n: nat, ghost s: nat)
    requires Exact(c, w) && Factored(factors, n) && c.nfft == fs * n && fs >= 1 && s == fs * inStride
    requires o + n <= out.Length && Readable(x, b, s, n)
    modifies out
    ensures BlockDone(c.ring, w, x, out[o..o + n], b, s, fs, n)
    ensures Outside(old(out[..]), out[..], o, n)
    decreases |factors|, 2
  {
    var p, m := factors[0], factors[1];
    Sizes(c.nfft, fs, n, p, m);
    FirstPhase(c, w, out, o, x, b, fs, inStride, factors, n, s);
    ghost var f, all := out[o..o + n], out[..];
    Recombine(c, w, out, o, fs, m, p, n);
    OutsideTwice(old(out[..]), all, out[..], o, n);
    BlockTransformed(c.ring, w, x, f, out[o..o + n], b, s, fs, m, p, n);
  }

  /** The part before the butterflies. */
  method FirstPhase<T(!new)>(c: Cfg<T>, ghost w: int -> T, out: array<T>, o: nat, x: seq<T>, b: nat, fs: nat,
                             inStride: nat, factors: seq<nat>,
                             ghost n: nat, ghost s: nat)
    requires Exact(c, w) && Factored(factors, n) && c.nfft == fs * n && fs >= 1 && s == fs * inStride
    requires o + n <= out.Length && Readable(x, b, s, n)
    modifies out
    ensures Halfway(c.ring, w, x, out[o..o + n], b, s, fs * factors[0], factors[1], factors[0], factors[0])
    ensures Outside(old(out[..]), out[..], o, n)
    decreases |factors|, 1
  {
    if factors[1] == 1 {
      assert factors[0] * 1 == n;
      Leaves(c, w, out, o, x, b, fs * inStride, factors[0], fs * factors[0]);
    } else {
      SubTransforms(c, w, out, o, x, b, fs, inStride, factors, n, s);
    }
  }

  /** The switch on the radix. */
  method Recombine<T(!new)>(c: Cfg<T>, ghost w: int -> T, out: array<T>, o: nat, fs: nat, m: nat, p: nat, ghost n: nat)
    requires Exact(c, w) && n == p * m && c.nfft == fs * n && fs >= 1 && p >= 1 && m >= 1 && o + n <= out.Length
    modifies out
    ensures Stage(c.ring, w, old(out[o..o + n]), out[o..o + n], fs, m, p, m)
    ensures Outside(old(out[..]), out[..], o, n)
  {
    Sizes(c.nfft, fs, n, p, m);
    if p == 2 {
      Bfly2(c, w, out, o, fs, m, n);
    } else if p == 3 {
      Bfly3(c, w, out, o, fs, m, n);
    } else if p == 4 {
      Bfly4(c, w, out, o, fs, m, n);
    } else if p == 5 {
      Bfly5(c, w, out, o, fs, m, n);
    } else {
      BflyGeneric(c, w, out, o, fs, m, p, n);
    }
  }

  // ---- the whole transform

  /** f lists pairs of radix and rest that lead from n0 to n. */
  ghost predicate Chain(f: seq<nat>, n0: nat, n: nat)
    decreases |f|
  {
    if |f| < 2 then f == [] && n0 == n else f[0] >= 1 && f[1] >= 1 && n0 == f[0] * f[1] && Chain(f[2..], f[1], n)
  }

  lemma {:induction false} ChainOn(f: seq<nat>, n0: nat, n: nat, p: nat, rest: nat)
    requires Chain(f, n0, n) && n == p * rest && p >= 1 && rest >= 1
    ensures Chain(f + [p, rest], n0, rest)
    decreases |f|
  {
    if |f| < 2 {
      assert (f + [p, rest])[2..] == [];
    } else {
      ChainOn(f[2..], f[1], n, p, rest);
      assert (f + [p, rest])[2..] == f[2..] + [p, rest];
    }
  }

  lemma {:induction false} ChainFactors(f: seq<nat>, n0: nat)
    requires Chain(f, n0, 1) && f != []
    ensures Factored(f, n0)
    decreases |f|
  {
    if f[1] > 1 { ChainFactors(f[2..], f[1]); }
  }

  lemma Quotient(n: nat, p: nat)
    requires p >= 1 && n >= 1 && n % p == 0
    ensures n == p * (n / p) && n / p >= 1 && (p >= 2 ==> n / p < n) && (p == n ==> n / p == 1)
  {
    var q := n / p;
    assert n == p * q;
    if p >= 2 { assert p * q == q + (p - 1) * q; AtLeastOnce(p - 1, q); }
  }

  /** kf_factor(); floorSqrt, the rounded square root of the length, decides only when to stop trying. */
  method KfFactor(length: nat, floorSqrt: nat) returns (facbuf: seq<nat>)
    requires length >= 1
    ensures Factored(facbuf, length)
    ensures length >= 2 && Bounds(length, floorSqrt) ==> FoursThenPrimes(facbuf)
  {
    facbuf := [];
    var n, p := length, 4;
    ghost var ordered := length >= 2 && Bounds(length, floorSqrt);
    while n > 1 || facbuf == []
      invariant 1 <= n <= length && Chain(facbuf, length, n)
      invariant n > 1 ==> Candidate(p, n, floorSqrt)
      invariant facbuf == [] ==> p == 4 && n == length
      invariant ordered ==> InProgress(facbuf, p, n)
      decreases n, if facbuf == [] then 1 else 0
    {
      ghost var start, before := p, n;
      p := FindRadix(p, n, floorSqrt);
      Quotient(n, p);
      ChainOn(facbuf, length, n, p, n / p);
      n := n / p;
      if ordered { OneMoreFactor(facbuf, start, before, floorSqrt, p, n); }
      facbuf := facbuf + [p, n];
    }
    ChainFactors(facbuf, length);
  }

  /** kiss_fft(): the discrete Fourier transform of fin, also when fin and fout are the same array. */
  method Transform<T(!new)>(c: Cfg<T>, ghost w: int -> T, factors: seq<nat>, fin: array<T>, fout: array<T>)
    requires Exact(c, w) && Factored(factors, c.nfft) && fin.Length == fout.Length == c.nfft
    modifies fout
    ensures forall k :: 0 <= k < c.nfft ==> fout[k] == Dft(c.ring, old(fin[..]), w, c.nfft, k)
  {
    var x, n := fin[..], c.nfft;
    var zero := c.ring.zero;
    forall j | 0 <= j < n ensures 0 <= Place(0, 1, j) < |x| {}
    if fin == fout {
      var tmpbuf := new T[n](_ => zero);
      KfWork(c, w, tmpbuf, 0, x, 0, 1, 1, factors, n, 1);
      WholeBlock(c.ring, w, x, tmpbuf[0..0 + n], n);
      forall i | 0 <= i < n { fout[i] := tmpbuf[i]; }
    } else {
      KfWork(c, w, fout, 0, x, 0, 1, 1, factors, n, 1);
      WholeBlock(c.ring, w, x, fout[0..0 + n], n);
    }
  }

  lemma WholeBlock<T(!new)>(r: Ring<T>, w: int -> T, x: seq<T>, g: seq<T>, n: nat)
    requires BlockDone(r, w, x, g, 0, 1, 1, n)
    ensures forall k :: 0 <= k < n ==> g[k] == Dft(r, x, w, n, k)
  {
    forall k | 0 <= k < n ensures g[k] == Dft(r, x, w, n, k) { assert 1 * k == k; }
  }
}
