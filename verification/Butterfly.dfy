/**
 One stage of the mixed-radix transform: the values of p transforms of m points each are recombined
 in place, column by column.
 */
module Butterfly {
  import opened Fourier

  /** Entries u, u + m, u + 2m, ... of a block of p * m values. */
  ghost function Column<T>(g: seq<T>, m: nat, p: nat, u: nat): (c: seq<T>)
    requires u < m && |g| == p * m
    ensures |c| == p && forall i :: 0 <= i < p ==> 0 <= u + i * m < |g| && c[i] == g[u + i * m]
  {
    InBlock(m, p, u);
    seq(p, i requires 0 <= i < p => g[u + i * m])
  }

  lemma InBlock(m: nat, p: nat, u: nat)
    requires u < m
    ensures forall i :: 0 <= i < p ==> 0 <= u + i * m < p * m
  {
    forall i | 0 <= i < p ensures 0 <= u + i * m < p * m { Row(m, p, u, i); }
  }

  lemma Row(m: nat, p: nat, u: nat, i: nat)
    requires u < m && i < p
    ensures u + i * m < p * m
  {
    var d := p - i;
    assert p * m == i * m + d * m;
    AtLeastOnce(d, m);
  }

  lemma AtLeastOnce(d: nat, m: nat)
    requires d >= 1
    ensures d * m >= m
  {
  }

  lemma Small(d: int, n: int)
    requires n > 0 && -n < d * n < n
    ensures d == 0
  {
  }

  lemma SamePlace(m: nat, u: nat, i: nat, v: nat, j: nat)
    requires u < m && v < m && u + i * m == v + j * m
    ensures u == v && i == j
  {
    assert (i - j) * m == v - u;
    Small(i - j, m);
  }

  /** Writing one value changes one place of one column. */
  lemma ColumnUpdate<T>(g: seq<T>, m: nat, p: nat, u: nat, i: nat, x: T)
    requires u < m && i < p && |g| == p * m
    ensures u + i * m < |g|
    ensures Column(g[u + i * m := x], m, p, u) == Column(g, m, p, u)[i := x]
    ensures forall v :: 0 <= v < m && v != u ==> Column(g[u + i * m := x], m, p, v) == Column(g, m, p, v)
  {
    Row(m, p, u, i);
    var h := g[u + i * m := x];
    forall j | 0 <= j < p ensures Column(h, m, p, u)[j] == Column(g, m, p, u)[i := x][j] {
      if u + i * m == u + j * m { SamePlace(m, u, i, u, j); }
    }
    forall v | 0 <= v < m && v != u ensures Column(h, m, p, v) == Column(g, m, p, v) {
      forall j | 0 <= j < p ensures Column(h, m, p, v)[j] == Column(g, m, p, v)[j] {
        if u + i * m == v + j * m { SamePlace(m, u, i, v, j); }
      }
    }
  }

  /** n steps of d. */
  function By(n: nat, d: int): int {
    if n == 0 then 0 else By(n - 1, d) + d
  }

  lemma {:induction false} ByIsTimes(n: nat, d: int)
    ensures By(n, d) == n * d
  {
    if n > 0 { ByIsTimes(n - 1, d); }
  }

  /** The terms whose sum is one output of a column. */
  ghost predicate Turned<T>(r: Ring<T>, w: int -> T, col: seq<T>, step: int, t: seq<T>) {
    |t| == |col| && forall i {:trigger t[i]} :: 0 <= i < |col| ==> t[i] == r.mul(col[i], w(By(i, step)))
  }

  /** The sum of the first n of them. */
  ghost function Output<T>(r: Ring<T>, w: int -> T, col: seq<T>, step: int, n: nat): T
    requires n <= |col|
    decreases n
  {
    if n == 0 then r.zero else r.add(Output(r, w, col, step, n - 1), r.mul(col[n - 1], w(By(n - 1, step))))
  }

  lemma {:induction false} OutputIsFold<T(!new)>(r: Ring<T>, w: int -> T, col: seq<T>, step: int, t: seq<T>, n: nat)
    requires Turned(r, w, col, step, t) && n <= |col|
    ensures Output(r, w, col, step, n) == Fold(r, t[..n])
    decreases n
  {
    if n > 0 {
      OutputIsFold(r, w, col, step, t, n - 1);
      assert t[..n][..n - 1] == t[..n - 1] && t[..n][n - 1] == t[n - 1];
    }
  }

  /** y is one output of a column. */
  ghost predicate IsOutput<T>(r: Ring<T>, w: int -> T, col: seq<T>, step: int, y: T) {
    y == Output(r, w, col, step, |col|)
  }

  /** What a stage makes of a column: output c turns entry i by i times e + c * h. */
  ghost predicate Mixed<T>(r: Ring<T>, w: int -> T, col: seq<T>, e: int, h: int, out: seq<T>) {
    |out| == |col| && forall c {:trigger out[c]} :: 0 <= c < |col| ==> IsOutput(r, w, col, e + By(c, h), out[c])
  }

  /** The first u columns are done and the others are as they were. */
  ghost predicate Stage<T>(r: Ring<T>, w: int -> T, f: seq<T>, g: seq<T>, fs: nat, m: nat, p: nat, u: nat) {
    |f| == |g| == p * m &&
    forall v :: 0 <= v < m ==>
      if v < u then Mixed(r, w, Column(f, m, p, v), By(v, fs), By(m, fs), Column(g, m, p, v))
      else Column(g, m, p, v) == Column(f, m, p, v)
  }

  ghost function TurnedOf<T>(r: Ring<T>, w: int -> T, col: seq<T>, step: int): (t: seq<T>)
    ensures Turned(r, w, col, step, t)
  {
    seq(|col|, i requires 0 <= i < |col| => r.mul(col[i], w(By(i, step))))
  }

  lemma PartIs<T(!new)>(r: Ring<T>, w: int -> T, z: int, x: seq<T>, b: int, s: int, step: int, sub: int, c: nat,
                        m: nat, p: nat, i: nat, v: T)
    requires IsRing(r) && Powers(r, w) && w(z) == r.one && step * p == sub + c * z && v == Sum(r, x, w, b + s * i, s * p, sub, m)
    ensures r.mul(v, w(By(i, step))) == Part(r, x, w, b, s, step, m, p, i)
  {
    ByIsTimes(i, step);
    SumPeriod(r, x, w, z, b + s * i, s * p, sub, c, m);
  }

  lemma ColumnIsSum<T(!new)>(r: Ring<T>, w: int -> T, z: int, x: seq<T>, col: seq<T>, b: int, s: int, step: int,
                             sub: int, c: nat, m: nat, p: nat, n: nat, y: T)
    requires IsRing(r) && Powers(r, w) && w(z) == r.one && |col| == p && n == p * m && step * p == sub + c * z
    requires forall i :: 0 <= i < p ==> col[i] == Sum(r, x, w, b + s * i, s * p, sub, m)
    requires IsOutput(r, w, col, step, y)
    ensures y == Sum(r, x, w, b, s, step, n)
  {
    var t := TurnedOf(r, w, col, step);
    forall i | 0 <= i < p ensures t[i] == Part(r, x, w, b, s, step, m, p, i) { PartIs(r, w, z, x, b, s, step, sub, c, m, p, i, col[i]); }
    CooleyTukey(r, x, w, b, s, step, m, p, n, t);
    OutputIsFold(r, w, col, step, t, p);
    assert t[..p] == t;
  }

  lemma StepOf(fs: int, p: int, m: int, u: int, c: int)
    ensures fs * (u + c * m) == u * fs + c * (m * fs)
    ensures fs * (u + c * m) * p == fs * p * u + c * (fs * p * m)
  {
  }

  lemma StepIs(fs: nat, m: nat, p: nat, u: nat, c: nat, k: nat, step: int)
    requires k == u + c * m && step == fs * k
    ensures By(u, fs) + By(c, By(m, fs)) == step && step * p == fs * p * u + c * (fs * p * m)
  {
    ByIsTimes(u, fs);
    ByIsTimes(m, fs);
    ByIsTimes(c, By(m, fs));
    StepOf(fs, p, m, u, c);
  }

  lemma OutputAt<T(!new)>(r: Ring<T>, w: int -> T, f: seq<T>, g: seq<T>, fs: nat, m: nat, p: nat, u: nat, c: nat, step: int)
    requires Stage(r, w, f, g, fs, m, p, m) && u < m && c < p && step == By(u, fs) + By(c, By(m, fs))
    ensures u + c * m < |g| && IsOutput(r, w, Column(f, m, p, u), step, g[u + c * m])
  {
    assert Column(g, m, p, u)[c] == g[u + c * m];
  }

  /**
   If the block holds the p interleaved transforms of x, the stage turns it into the transform of the whole.
   */
  lemma StageIsTransform<T(!new)>(r: Ring<T>, w: int -> T, x: seq<T>, f: seq<T>, g: seq<T>, b: int, s: int, fs: nat,
                                  m: nat, p: nat, n: nat,
                                  u: nat, c: nat, k: nat, step: int)
    requires IsRing(r) && Powers(r, w) && w(fs * p * m) == r.one && u < m && c < p && n == p * m && k == u + c * m && step == fs * k
    requires Stage(r, w, f, g, fs, m, p, m)
    requires forall i :: 0 <= i < p ==> Column(f, m, p, u)[i] == Sum(r, x, w, b + s * i, s * p, fs * p * u, m)
    ensures k < |g| && g[k] == Sum(r, x, w, b, s, step, n)
  {
    StepIs(fs, m, p, u, c, k, step);
    OutputAt(r, w, f, g, fs, m, p, u, c, step);
    ColumnIsSum(r, w, fs * p * m, x, Column(f, m, p, u), b, s, step, fs * p * u, c, m, p, n, g[k]);
  }
}
