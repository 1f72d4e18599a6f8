/**
 The gain-shape search: for every codeword the best additive gain is worked out first, then
 the codewords are compared at their own gains.
 */
module GainShape {
  import opened SplitVq

  /** The number of bins that count, and the sum of (vec - codeword) over them. */
  function Count(vec: seq<real>, n: nat): (c: nat)
    requires n <= |vec|
    ensures c <= n
  {
    if n == 0 then 0 else Count(vec, n - 1) + (if vec[n - 1] == 0.0 then 0 else 1)
  }

  function Excess(vq: Codebook, vec: seq<real>, j: nat, n: nat): real
    requires Valid(vq) && j < vq.m && n <= vq.k <= |vec|
  {
    if n == 0 then 0.0
    else Excess(vq, vec, j, n - 1) + (if vec[n - 1] == 0.0 then 0.0 else vec[n - 1] - Entry(vq, j, n - 1))
  }

  /** (sumAm - sumCb) / m; `nan` stands for the quotient 0.0 / 0 when no bin counts. */
  function Gain(vq: Codebook, vec: seq<real>, j: nat, nan: real): real
    requires Valid(vq) && j < vq.m && vq.k <= |vec|
  {
    if Count(vec, vq.k) == 0 then nan else Excess(vq, vec, j, vq.k) / Count(vec, vq.k) as real
  }

  /** The squared error and the weighted metric of codeword j at gain g. */
  function ErrorAt(vq: Codebook, vec: seq<real>, j: nat, g: real, n: nat): real
    requires Valid(vq) && j < vq.m && n <= vq.k <= |vec|
  {
    if n == 0 then 0.0
    else ErrorAt(vq, vec, j, g, n - 1) + Term(vec[n - 1], 1.0, Entry(vq, j, n - 1) + g)
  }

  function MetricAt(vq: Codebook, vec: seq<real>, w: seq<real>, j: nat, g: real, n: nat): real
    requires Valid(vq) && j < vq.m && n <= vq.k <= |vec| && vq.k <= |w|
  {
    if n == 0 then 0.0
    else MetricAt(vq, vec, w, j, g, n - 1) + Term(vec[n - 1], w[n - 1], Entry(vq, j, n - 1) + g)
  }

  function OwnMetric(vq: Codebook, vec: seq<real>, w: seq<real>, j: nat, nan: real): real
    requires Valid(vq) && j < vq.m && vq.k <= |vec| && vq.k <= |w|
  {
    MetricAt(vq, vec, w, j, Gain(vq, vec, j, nan), vq.k)
  }

  ghost predicate BestOf(vq: Codebook, vec: seq<real>, w: seq<real>, j: nat, e: nat, nan: real)
    requires Valid(vq) && e <= vq.m && vq.k <= |vec| && vq.k <= |w|
  {
    j < e && OwnMetric(vq, vec, w, j, nan) < UNREACHED &&
    (forall i :: 0 <= i < e ==> OwnMetric(vq, vec, w, j, nan) <= OwnMetric(vq, vec, w, i, nan)) &&
    (forall i :: 0 <= i < j ==> OwnMetric(vq, vec, w, j, nan) < OwnMetric(vq, vec, w, i, nan))
  }

  ghost predicate NoneOf(vq: Codebook, vec: seq<real>, w: seq<real>, e: nat, nan: real)
    requires Valid(vq) && e <= vq.m && vq.k <= |vec| && vq.k <= |w|
  {
    forall i :: 0 <= i < e ==> OwnMetric(vq, vec, w, i, nan) >= UNREACHED
  }

  /** gain_shape_vq_amp(): the index, its gain and its error belong together. */
  method GainShapeVqAmp(vq: Codebook, vec: seq<real>, w: seq<real>, se: real, gainBefore: real, nan: real)
    returns (best: nat, newSe: real, bestGain: real)
    requires Valid(vq) && vq.k <= |vec| && vq.k <= |w|
    ensures best < vq.m
    ensures !NoneOf(vq, vec, w, vq.m, nan) ==>
      BestOf(vq, vec, w, best, vq.m, nan) && bestGain == Gain(vq, vec, best, nan)
      && newSe == se + ErrorAt(vq, vec, best, bestGain, vq.k)
    ensures NoneOf(vq, vec, w, vq.m, nan) ==> best == 0 && bestGain == gainBefore && newSe == se + UNREACHED
  {
    best, bestGain := 0, gainBefore;
    var bestMetric, bestError := UNREACHED, UNREACHED;
    for j := 0 to vq.m
      invariant best < vq.m
      invariant || (NoneOf(vq, vec, w, j, nan) && best == 0 && bestGain == gainBefore && bestMetric == bestError == UNREACHED)
                || (BestOf(vq, vec, w, best, j, nan) && bestGain == Gain(vq, vec, best, nan)
                    && bestMetric == OwnMetric(vq, vec, w, best, nan)
                    && bestError == ErrorAt(vq, vec, best, bestGain, vq.k))
    {
      var gain := OptimumGain(vq, vec, j, nan);
      var metric, error := Compare(vq, vec, w, j, gain);
      if metric < bestMetric {
        bestError, bestMetric, bestGain, best := error, metric, gain, j;
      }
    }
    newSe := se + bestError;
  }

  /** The second inner loop: error and metric of one codeword at a given gain. */
  method Compare(vq: Codebook, vec: seq<real>, w: seq<real>, j: nat, gain: real) returns (metric: real, error: real)
    requires Valid(vq) && j < vq.m && vq.k <= |vec| && vq.k <= |w|
    ensures metric == MetricAt(vq, vec, w, j, gain, vq.k) && error == ErrorAt(vq, vec, j, gain, vq.k)
  {
    metric, error := 0.0, 0.0;
    for i := 0 to vq.k
      invariant metric == MetricAt(vq, vec, w, j, gain, i) && error == ErrorAt(vq, vec, j, gain, i)
    {
      if vec[i] != 0.0 {
        RowInside(vq, j, i);
        var diff := vec[i] - vq.cb[j * vq.k + i] - gain;
        DiffSquared(vec[i], vq.cb[j * vq.k + i], gain, w[i]);
        error := error + diff * diff;
        metric := metric + w[i] * diff * diff;
      }
    }
  }

  lemma DiffSquared(v: real, c: real, g: real, w: real)
    ensures (v - c - g) * (v - c - g) == Sq(c + g - v)
    ensures w * (v - c - g) * (v - c - g) == w * Sq(c + g - v)
  {
    var d := v - c - g;
    assert c + g - v == -d && (-d) * (-d) == d * d;
    assert w * d * d == w * (d * d);
  }

  method OptimumGain(vq: Codebook, vec: seq<real>, j: nat, nan: real) returns (gain: real)
    requires Valid(vq) && j < vq.m && vq.k <= |vec|
    ensures gain == Gain(vq, vec, j, nan)
  {
    var sumAm, sumCb, m := 0.0, 0.0, 0;
    for i := 0 to vq.k
      invariant m == Count(vec, i) && sumAm - sumCb == Excess(vq, vec, j, i)
    {
      if vec[i] != 0.0 {
        m := m + 1;
        RowInside(vq, j, i);
        sumAm := sumAm + vec[i];
        sumCb := sumCb + vq.cb[j * vq.k + i];
      }
    }
    gain := if m == 0 then nan else (sumAm - sumCb) / m as real;
  }

  /** The codebook with g added to every entry. */
  function Raised(vq: Codebook, g: real): (r: Codebook)
    requires Valid(vq)
    ensures Valid(r) && r.k == vq.k && r.m == vq.m
  {
    vq.(cb := seq(|vq.cb|, i requires 0 <= i < |vq.cb| => vq.cb[i] + g))
  }

  /** A gain acts as if every entry of the codeword were raised by it. */
  lemma {:induction false} GainRaises(vq: Codebook, vec: seq<real>, w: seq<real>, j: nat, g: real, n: nat)
    requires Valid(vq) && j < vq.m && n <= vq.k <= |vec| && vq.k <= |w|
    ensures MetricAt(vq, vec, w, j, g, n) == Metric(Raised(vq, g), vec, w, j, n)
    ensures ErrorAt(vq, vec, j, g, n) == Error(Raised(vq, g), vec, j, n)
  {
    if n > 0 {
      GainRaises(vq, vec, w, j, g, n - 1);
      RowInside(vq, j, n - 1);
      assert Entry(Raised(vq, g), j, n - 1) == Entry(vq, j, n - 1) + g;
    }
  }

  // ---- the gain is optimal

  ghost predicate OnParabola(e: real, e0: real, s: real, c: real, g: real) {
    e == e0 - 2.0 * g * s + c * Sq(g)
  }

  /** The error at gain g is a parabola in g: its value at 0, the slope and the curvature. */
  lemma {:induction false} Parabola(vq: Codebook, vec: seq<real>, j: nat, g: real, n: nat)
    requires Valid(vq) && j < vq.m && n <= vq.k <= |vec|
    ensures OnParabola(ErrorAt(vq, vec, j, g, n), ErrorAt(vq, vec, j, 0.0, n), Excess(vq, vec, j, n), Count(vec, n) as real, g)
  {
    if n > 0 {
      Parabola(vq, vec, j, g, n - 1);
      var v, c := vec[n - 1], Entry(vq, j, n - 1);
      if v != 0.0 {
        ParabolaStep(ErrorAt(vq, vec, j, g, n - 1), ErrorAt(vq, vec, j, 0.0, n - 1), Excess(vq, vec, j, n - 1),
                     Count(vec, n - 1) as real, g, c - v,
                     ErrorAt(vq, vec, j, g, n), ErrorAt(vq, vec, j, 0.0, n), Excess(vq, vec, j, n), Count(vec, n) as real);
      }
    }
  }

  lemma ParabolaStep(e: real, e0: real, s: real, c: real, g: real, d: real, e': real, e0': real, s': real, c': real)
    requires OnParabola(e, e0, s, c, g)
    requires e' == e + Sq(d + g) && e0' == e0 + Sq(d) && s' == s - d && c' == c + 1.0
    ensures OnParabola(e', e0', s', c', g)
  {
    assert Sq(d + g) == Sq(d) + 2.0 * g * d + Sq(g);
    assert 2.0 * g * (s - d) == 2.0 * g * s - 2.0 * g * d;
    assert (c + 1.0) * Sq(g) == c * Sq(g) + Sq(g);
  }

  ghost predicate GainTimesCount(s: real, c: real, g: real) { s == c * g }

  /** c times the squared distance from the best gain. */
  ghost function Penalty(c: real, d: real): real { c * Sq(d) }

  /** No other gain gives a codeword a smaller squared error; the shortfall is exactly count * (g - gain)^2. */
  lemma GainIsOptimal(vq: Codebook, vec: seq<real>, j: nat, g: real, nan: real)
    requires Valid(vq) && j < vq.m && vq.k <= |vec| && Count(vec, vq.k) > 0
    ensures var best := Gain(vq, vec, j, nan);
            ErrorAt(vq, vec, j, g, vq.k) == ErrorAt(vq, vec, j, best, vq.k) + Penalty(Count(vec, vq.k) as real, g - best)
    ensures ErrorAt(vq, vec, j, Gain(vq, vec, j, nan), vq.k) <= ErrorAt(vq, vec, j, g, vq.k)
  {
    assert GainTimesCount(Excess(vq, vec, j, vq.k), Count(vec, vq.k) as real, Gain(vq, vec, j, nan)) by {
      Quotient(Excess(vq, vec, j, vq.k), Count(vec, vq.k) as real);
    }
    OptimalAt(vq, vec, j, g, Gain(vq, vec, j, nan));
  }

  lemma OptimalAt(vq: Codebook, vec: seq<real>, j: nat, g: real, best: real)
    requires Valid(vq) && j < vq.m && vq.k <= |vec| && Count(vec, vq.k) > 0
    requires GainTimesCount(Excess(vq, vec, j, vq.k), Count(vec, vq.k) as real, best)
    ensures ErrorAt(vq, vec, j, g, vq.k) == ErrorAt(vq, vec, j, best, vq.k) + Penalty(Count(vec, vq.k) as real, g - best)
    ensures ErrorAt(vq, vec, j, best, vq.k) <= ErrorAt(vq, vec, j, g, vq.k)
  {
    Parabola(vq, vec, j, g, vq.k);
    Parabola(vq, vec, j, best, vq.k);
    CompleteSquare(ErrorAt(vq, vec, j, g, vq.k), ErrorAt(vq, vec, j, best, vq.k), ErrorAt(vq, vec, j, 0.0, vq.k),
                   Excess(vq, vec, j, vq.k), Count(vec, vq.k) as real, g, best);
  }

  lemma Quotient(s: real, c: real)
    requires c > 0.0
    ensures s == c * (s / c)
  {
  }

  lemma CompleteSquare(e: real, eb: real, e0: real, s: real, c: real, g: real, b: real)
    requires c > 0.0 && GainTimesCount(s, c, b)
    requires OnParabola(e, e0, s, c, g) && OnParabola(eb, e0, s, c, b)
    ensures e == eb + Penalty(c, g - b) && eb <= e
  {
    assert Sq(g - b) == Sq(g) - 2.0 * g * b + Sq(b);
    assert c * (Sq(g) - 2.0 * g * b + Sq(b)) == c * Sq(g) - 2.0 * g * (c * b) + c * Sq(b);
    assert 2.0 * b * (c * b) == 2.0 * (c * Sq(b));
    NonNegative(c, g - b);
  }

  lemma NonNegative(c: real, d: real)
    requires c >= 0.0
    ensures c * Sq(d) >= 0.0
  {
    assert Sq(d) >= 0.0;
  }
}
