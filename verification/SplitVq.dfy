/**
 The split vector quantiser of spectral amplitudes: a weighted nearest-codeword search per
 band, and the in-place move of the chosen codewords from residual to output.
 */
module SplitVq {

  const UNREACHED: real := 100000000000000000000000000000000.0 // 1E32, the search's starting metric

  /** A codebook of m codewords of k entries each, stored row after row, for the bins from offset on. */
  datatype Codebook = Codebook(k: nat, m: nat, cb: seq<real>, offset: nat)

  ghost predicate Valid(vq: Codebook) {
    vq.m > 0 && |vq.cb| == vq.m * vq.k
  }

  /** cb[k * j + i] */
  function Entry(vq: Codebook, j: nat, i: nat): real
    requires Valid(vq) && j < vq.m && i < vq.k
  {
    RowInside(vq, j, i);
    vq.cb[j * vq.k + i]
  }

  lemma RowInside(vq: Codebook, j: nat, i: nat)
    requires j < vq.m && i < vq.k
    ensures 0 <= j * vq.k + i < vq.m * vq.k
  {
    assert (j + 1) * vq.k <= vq.m * vq.k;
  }

  function Sq(x: real): real { x * x }

  /** The weighted squared error of one bin that holds x and is given r; zero bins do not count. */
  function Term(x: real, w: real, r: real): real {
    if x == 0.0 then 0.0 else w * Sq(r - x)
  }

  /** The weighted squared error of codeword j over its first n entries. */
  function Metric(vq: Codebook, vec: seq<real>, w: seq<real>, j: nat, n: nat): real
    requires Valid(vq) && j < vq.m && n <= vq.k <= |vec| && vq.k <= |w|
  {
    if n == 0 then 0.0
    else Metric(vq, vec, w, j, n - 1) + Term(vec[n - 1], w[n - 1], Entry(vq, j, n - 1))
  }

  function Error(vq: Codebook, vec: seq<real>, j: nat, n: nat): real
    requires Valid(vq) && j < vq.m && n <= vq.k <= |vec|
  {
    if n == 0 then 0.0
    else Error(vq, vec, j, n - 1) + Term(vec[n - 1], 1.0, Entry(vq, j, n - 1))
  }

  /** j is the first codeword of least metric among the first e, and that metric is below 1E32. */
  ghost predicate FirstBest(vq: Codebook, vec: seq<real>, w: seq<real>, j: nat, e: nat)
    requires Valid(vq) && e <= vq.m && vq.k <= |vec| && vq.k <= |w|
  {
    j < e && Metric(vq, vec, w, j, vq.k) < UNREACHED &&
    (forall i :: 0 <= i < e ==> Metric(vq, vec, w, j, vq.k) <= Metric(vq, vec, w, i, vq.k)) &&
    (forall i :: 0 <= i < j ==> Metric(vq, vec, w, j, vq.k) < Metric(vq, vec, w, i, vq.k))
  }

  /** No codeword among the first e has a metric below 1E32. */
  ghost predicate NoneReached(vq: Codebook, vec: seq<real>, w: seq<real>, e: nat)
    requires Valid(vq) && e <= vq.m && vq.k <= |vec| && vq.k <= |w|
  {
    forall i :: 0 <= i < e ==> Metric(vq, vec, w, i, vq.k) >= UNREACHED
  }

  /** The index the search returns. */
  ghost predicate Picked(vq: Codebook, vec: seq<real>, w: seq<real>, j: nat)
    requires Valid(vq) && vq.k <= |vec| && vq.k <= |w|
  {
    FirstBest(vq, vec, w, j, vq.m) || (NoneReached(vq, vec, w, vq.m) && j == 0)
  }

  /** vq_amp(): the search over all codewords. */
  method VqAmp(vq: Codebook, vec: seq<real>, w: seq<real>, se: real) returns (best: nat, newSe: real)
    requires Valid(vq) && vq.k <= |vec| && vq.k <= |w|
    ensures best < vq.m && Picked(vq, vec, w, best)
    ensures newSe == se + if NoneReached(vq, vec, w, vq.m) then UNREACHED else Error(vq, vec, best, vq.k)
  {
    best := 0;
    var bestMetric, bestError := UNREACHED, UNREACHED;
    for j := 0 to vq.m
      invariant best < vq.m
      invariant || (NoneReached(vq, vec, w, j) && best == 0 && bestMetric == bestError == UNREACHED)
                || (FirstBest(vq, vec, w, best, j) && bestMetric == Metric(vq, vec, w, best, vq.k)
                    && bestError == Error(vq, vec, best, vq.k))
    {
      var metric, error := 0.0, 0.0;
      for i := 0 to vq.k
        invariant metric == Metric(vq, vec, w, j, i) && error == Error(vq, vec, j, i)
      {
        if vec[i] != 0.0 {
          RowInside(vq, j, i);
          var diff := vq.cb[j * vq.k + i] - vec[i];
          error := error + diff * diff;
          Reassociate(w[i], diff);
          metric := metric + w[i] * diff * diff;
        }
      }
      if metric < bestMetric {
        bestError, bestMetric, best := error, metric, j;
      }
    }
    newSe := se + bestError;
  }

  lemma Reassociate(w: real, d: real)
    ensures w * d * d == w * Sq(d)
  {
  }

  /** A single weighted bin counts for its weighted squared deviation, or for nothing where the spectrum is zero. */
  lemma {:induction false} MetricAlone(vq: Codebook, vec: seq<real>, w: seq<real>, j: nat, i: nat, n: nat)
    requires Valid(vq) && j < vq.m && n <= vq.k <= |vec| && vq.k <= |w| && i < vq.k
    requires forall h :: 0 <= h < vq.k && h != i ==> w[h] == 0.0
    ensures var d := vec[i] - Entry(vq, j, i);
            Metric(vq, vec, w, j, n) == if i < n && vec[i] != 0.0 then w[i] * (d * d) else 0.0
  {
    if n > 0 {
      MetricAlone(vq, vec, w, j, i, n - 1);
      SameSquare(Entry(vq, j, n - 1), vec[n - 1]);
    }
  }

  lemma SameSquare(x: real, y: real)
    ensures Sq(x - y) == (y - x) * (y - x)
  {
  }

  /** Weights add up. */
  lemma {:induction false} MetricAdds(vq: Codebook, vec: seq<real>, u: seq<real>, v: seq<real>, w: seq<real>, j: nat, n: nat)
    requires Valid(vq) && j < vq.m && n <= vq.k <= |vec| && vq.k <= |u| && vq.k <= |v| && vq.k <= |w|
    requires forall i :: 0 <= i < vq.k ==> w[i] == u[i] + v[i]
    ensures Metric(vq, vec, w, j, n) == Metric(vq, vec, u, j, n) + Metric(vq, vec, v, j, n)
  {
    if n > 0 {
      MetricAdds(vq, vec, u, v, w, j, n - 1);
      TermAdds(vec[n - 1], u[n - 1], v[n - 1], Entry(vq, j, n - 1));
    }
  }

  lemma TermAdds(x: real, u: real, v: real, r: real)
    ensures Term(x, u + v, r) == Term(x, u, r) + Term(x, v, r)
  {
    assert (u + v) * Sq(r - x) == u * Sq(r - x) + v * Sq(r - x);
  }

  /** The error is the metric without weights. */
  lemma {:induction false} ErrorUnweighted(vq: Codebook, vec: seq<real>, w: seq<real>, j: nat, n: nat)
    requires Valid(vq) && j < vq.m && n <= vq.k <= |vec| && vq.k <= |w| && forall i :: 0 <= i < vq.k ==> w[i] == 1.0
    ensures Error(vq, vec, j, n) == Metric(vq, vec, w, j, n)
  {
    if n > 0 { ErrorUnweighted(vq, vec, w, j, n - 1); }
  }

  /** Weights of bins that do not count do not matter. */
  lemma {:induction false} MetricSame(vq: Codebook, vec: seq<real>, v: seq<real>, w: seq<real>, j: nat, n: nat)
    requires Valid(vq) && j < vq.m && n <= vq.k <= |vec| && vq.k <= |v| && vq.k <= |w|
    requires forall i :: 0 <= i < vq.k && vec[i] != 0.0 ==> v[i] == w[i]
    ensures Metric(vq, vec, v, j, n) == Metric(vq, vec, w, j, n)
  {
    if n > 0 { MetricSame(vq, vec, v, w, j, n - 1); }
  }

  lemma PickedSame(vq: Codebook, vec: seq<real>, v: seq<real>, w: seq<real>, j: nat)
    requires Valid(vq) && vq.k <= |vec| && vq.k <= |v| && vq.k <= |w| && Picked(vq, vec, v, j)
    requires forall i :: 0 <= i < vq.k && vec[i] != 0.0 ==> v[i] == w[i]
    ensures Picked(vq, vec, w, j)
  {
    forall i | 0 <= i < vq.m ensures Metric(vq, vec, v, i, vq.k) == Metric(vq, vec, w, i, vq.k) {
      MetricSame(vq, vec, v, w, i, vq.k);
    }
  }

  /** The search has one answer. */
  lemma PickedUnique(vq: Codebook, vec: seq<real>, w: seq<real>, i: nat, j: nat)
    requires Valid(vq) && vq.k <= |vec| && vq.k <= |w| && Picked(vq, vec, w, i) && Picked(vq, vec, w, j)
    ensures i == j
  {
    assert i < vq.m && j < vq.m;
  }

  // ---- one stage, in place

  predicate InBand(vq: Codebook, b: int) {
    vq.offset <= b < vq.offset + vq.k
  }

  function Band(vq: Codebook, x: seq<real>): seq<real>
    requires vq.offset + vq.k <= |x|
  {
    x[vq.offset..vq.offset + vq.k]
  }

  /** What stage vq with index j contributes to bin b of a spectrum that has x there. */
  function Share(vq: Codebook, j: nat, b: nat, x: real): real
    requires Valid(vq) && j < vq.m
  {
    if InBand(vq, b) && x != 0.0 then Entry(vq, j, b - vq.offset) else 0.0
  }

  /** split_vq(): subtracts the chosen codeword from the residual and adds it to the output. */
  method SplitStage(peOut: array<real>, vq: Codebook, w: seq<real>, peIn: array<real>) returns (ind: nat)
    requires Valid(vq) && peIn != peOut && peIn.Length == peOut.Length == |w| && vq.offset + vq.k <= |w|
    modifies peIn, peOut
    ensures ind < vq.m && Picked(vq, Band(vq, old(peIn[..])), Band(vq, w), ind)
    ensures forall b :: 0 <= b < |w| ==> peIn[b] == old(peIn[b]) - Share(vq, ind, b, old(peIn[b]))
    ensures forall b :: 0 <= b < |w| ==> peOut[b] == old(peOut[b]) + Share(vq, ind, b, old(peIn[b]))
  {
    var se;
    ghost var wasIn, wasOut := peIn[..], peOut[..];
    ind, se := VqAmp(vq, Band(vq, peIn[..]), Band(vq, w), 0.0);
    for i := 0 to vq.k
      invariant forall b :: vq.offset + i <= b < |w| ==> peIn[b] == wasIn[b] && peOut[b] == wasOut[b]
      invariant forall b :: 0 <= b < vq.offset + i ==>
        peIn[b] == wasIn[b] - Share(vq, ind, b, wasIn[b]) && peOut[b] == wasOut[b] + Share(vq, ind, b, wasIn[b])
    {
      var j := vq.offset + i;
      if peIn[j] != 0.0 {
        RowInside(vq, ind, i);
        var c := vq.cb[ind * vq.k + i];
        peIn[j] := peIn[j] - c;
        peOut[j] := peOut[j] + c;
      }
    }
  }

  // ---- several stages

  ghost predicate Disjoint(a: Codebook, b: Codebook) {
    a.offset + a.k <= b.offset || b.offset + b.k <= a.offset
  }

  /** The stages have bands inside n bins, no two of them overlapping. */
  ghost predicate Stages(vqs: seq<Codebook>, n: nat) {
    (forall s :: 0 <= s < |vqs| ==> Valid(vqs[s]) && vqs[s].offset + vqs[s].k <= n) &&
    forall s, t :: 0 <= s < t < |vqs| ==> Disjoint(vqs[s], vqs[t])
  }

  ghost predicate Indexes(vqs: seq<Codebook>, idx: seq<nat>, n: nat) {
    n <= |idx| && n <= |vqs| && forall s :: 0 <= s < n ==> Valid(vqs[s]) && idx[s] < vqs[s].m
  }

  /** The value that the first n stages give bin b of a spectrum that has x there. */
  ghost function Rebuilt(vqs: seq<Codebook>, idx: seq<nat>, n: nat, b: nat, x: real): real
    requires Indexes(vqs, idx, n)
  {
    if n == 0 then 0.0 else Rebuilt(vqs, idx, n - 1, b, x) + Share(vqs[n - 1], idx[n - 1], b, x)
  }

  lemma {:induction false} RebuiltOutside(vqs: seq<Codebook>, idx: seq<nat>, n: nat, b: nat, x: real)
    requires Indexes(vqs, idx, n) && forall s :: 0 <= s < n ==> !InBand(vqs[s], b)
    ensures Rebuilt(vqs, idx, n, b, x) == 0.0
  {
    if n > 0 {
      assert !InBand(vqs[n - 1], b);
      RebuiltOutside(vqs, idx, n - 1, b, x);
    }
  }

  /** Inside the band of stage s only that stage contributes. */
  lemma {:induction false} RebuiltInside(vqs: seq<Codebook>, idx: seq<nat>, n: nat, s: nat, b: nat, x: real, bins: nat)
    requires Stages(vqs, bins) && Indexes(vqs, idx, n) && s < n && InBand(vqs[s], b)
    ensures Rebuilt(vqs, idx, n, b, x) == Share(vqs[s], idx[s], b, x)
  {
    if s == n - 1 {
      forall t | 0 <= t < n - 1 ensures !InBand(vqs[t], b) { assert Disjoint(vqs[t], vqs[s]); }
      RebuiltOutside(vqs, idx, n - 1, b, x);
    } else {
      assert Disjoint(vqs[s], vqs[n - 1]);
      RebuiltInside(vqs, idx, n - 1, s, b, x, bins);
    }
  }

  /** The rebuilt value depends only on the indexes of the stages whose band holds the bin. */
  lemma {:induction false} RebuiltSame(vqs: seq<Codebook>, idx: seq<nat>, other: seq<nat>, n: nat, b: nat, x: real)
    requires Indexes(vqs, idx, n) && Indexes(vqs, other, n)
    requires forall s :: 0 <= s < n && InBand(vqs[s], b) ==> idx[s] == other[s]
    ensures Rebuilt(vqs, idx, n, b, x) == Rebuilt(vqs, other, n, b, x)
  {
    if n > 0 { RebuiltSame(vqs, idx, other, n - 1, b, x); }
  }

  /** After n stages: what each searched was the original spectrum, and residual plus output is the original. */
  ghost predicate Progress(x: seq<real>, w: seq<real>, peIn: seq<real>, peOut: seq<real>, vqs: seq<Codebook>, idx: seq<nat>)
    requires |x| == |w| && Stages(vqs, |x|)
  {
    |peIn| == |peOut| == |x| && Indexes(vqs, idx, |idx|) &&
    (forall s :: 0 <= s < |idx| ==> Picked(vqs[s], Band(vqs[s], x), Band(vqs[s], w), idx[s])) &&
    forall b :: 0 <= b < |x| ==> peOut[b] == Rebuilt(vqs, idx, |idx|, b, x[b]) && peIn[b] == x[b] - peOut[b]
  }

  /** The band of the next stage still holds the original spectrum. */
  lemma BandUntouched(x: seq<real>, w: seq<real>, peIn: seq<real>, peOut: seq<real>, vqs: seq<Codebook>, idx: seq<nat>)
    requires |x| == |w| && Stages(vqs, |x|) && Progress(x, w, peIn, peOut, vqs, idx) && |idx| < |vqs|
    ensures forall b :: 0 <= b < |x| && InBand(vqs[|idx|], b) ==> peIn[b] == x[b]
    ensures Band(vqs[|idx|], peIn) == Band(vqs[|idx|], x)
  {
    var n := |idx|;
    forall b | 0 <= b < |x| && InBand(vqs[n], b) ensures peIn[b] == x[b] {
      forall t | 0 <= t < n ensures !InBand(vqs[t], b) { assert Disjoint(vqs[t], vqs[n]); }
      RebuiltOutside(vqs, idx, n, b, x[b]);
    }
  }

  lemma StageDone(x: seq<real>, w: seq<real>, in0: seq<real>, out0: seq<real>, in1: seq<real>, out1: seq<real>,
                  vqs: seq<Codebook>, idx: seq<nat>, ind: nat)
    requires |x| == |w| && Stages(vqs, |x|) && Progress(x, w, in0, out0, vqs, idx) && |idx| < |vqs|
    requires var vq := vqs[|idx|];
             ind < vq.m && Picked(vq, Band(vq, in0), Band(vq, w), ind) && |in1| == |out1| == |x| &&
             forall b :: 0 <= b < |x| ==>
               in1[b] == in0[b] - Share(vq, ind, b, in0[b]) && out1[b] == out0[b] + Share(vq, ind, b, in0[b])
    ensures Progress(x, w, in1, out1, vqs, idx + [ind])
  {
    var n, now := |idx|, idx + [ind];
    BandUntouched(x, w, in0, out0, vqs, idx);
    forall b | 0 <= b < |x|
      ensures Indexes(vqs, now, n + 1) && out1[b] == Rebuilt(vqs, now, n + 1, b, x[b]) && in1[b] == x[b] - out1[b]
    {
      StageBin(vqs, idx, ind, b, x[b], in0[b], out0[b]);
    }
    assert forall s :: 0 <= s < n ==> now[s] == idx[s];
  }

  /** One bin: it still holds its own value if the codebook covers it, so the codeword's share is the one for that value. */
  lemma StageBin(vqs: seq<Codebook>, idx: seq<nat>, ind: nat, b: nat, x: real, before: real, output: real)
    requires Indexes(vqs, idx, |idx|) && |idx| < |vqs| && Valid(vqs[|idx|]) && ind < vqs[|idx|].m
    requires output == Rebuilt(vqs, idx, |idx|, b, x) && (InBand(vqs[|idx|], b) ==> before == x)
    ensures Indexes(vqs, idx + [ind], |idx| + 1)
    ensures output + Share(vqs[|idx|], ind, b, before) == Rebuilt(vqs, idx + [ind], |idx| + 1, b, x)
  {
    RebuiltNext(vqs, idx, ind, b, x);
  }

  lemma RebuiltNext(vqs: seq<Codebook>, idx: seq<nat>, ind: nat, b: nat, x: real)
    requires Indexes(vqs, idx, |idx|) && |idx| < |vqs| && Valid(vqs[|idx|]) && ind < vqs[|idx|].m
    ensures Indexes(vqs, idx + [ind], |idx| + 1)
    ensures Rebuilt(vqs, idx + [ind], |idx| + 1, b, x) == Rebuilt(vqs, idx, |idx|, b, x) + Share(vqs[|idx|], ind, b, x)
  {
    RebuiltSame(vqs, idx, idx + [ind], |idx|, b, x);
  }

  /** One call of split_vq() in the sequence. */
  method NextStage(peOut: array<real>, vqs: seq<Codebook>, w: seq<real>, peIn: array<real>,
                   s: nat, ghost x: seq<real>, ghost idx: seq<nat>) returns (ind: nat)
    requires peIn != peOut && peIn.Length == peOut.Length == |w| == |x| && Stages(vqs, |x|)
    requires s == |idx| < |vqs| && Progress(x, w, peIn[..], peOut[..], vqs, idx)
    modifies peIn, peOut
    ensures Progress(x, w, peIn[..], peOut[..], vqs, idx + [ind])
  {
    ghost var in0, out0 := peIn[..], peOut[..];
    ind := SplitStage(peOut, vqs[s], w, peIn);
    StageDone(x, w, in0, out0, peIn[..], peOut[..], vqs, idx, ind);
  }

  /** The five split_vq() calls of sparse_vq_amp(), on an output that starts at zero. */
  method FiveStages(peOut: array<real>, vqs: seq<Codebook>, w: seq<real>, peIn: array<real>) returns (idx: seq<nat>)
    requires |vqs| == 5 && peIn != peOut && peIn.Length == peOut.Length == |w| && Stages(vqs, |w|)
    requires forall b :: 0 <= b < |w| ==> peOut[b] == 0.0
    modifies peIn, peOut
    ensures |idx| == 5 && Progress(old(peIn[..]), w, peIn[..], peOut[..], vqs, idx)
  {
    ghost var x := peIn[..];
    var i0 := NextStage(peOut, vqs, w, peIn, 0, x, []);
    var i1 := NextStage(peOut, vqs, w, peIn, 1, x, [] + [i0]);
    var i2 := NextStage(peOut, vqs, w, peIn, 2, x, [] + [i0] + [i1]);
    var i3 := NextStage(peOut, vqs, w, peIn, 3, x, [] + [i0] + [i1] + [i2]);
    var i4 := NextStage(peOut, vqs, w, peIn, 4, x, [] + [i0] + [i1] + [i2] + [i3]);
    idx := [] + [i0] + [i1] + [i2] + [i3] + [i4];
  }

  // ---- the split search is exhaustive

  /** The weighted distortion over bins [lo, hi) of the spectrum rebuilt from a choice of indexes. */
  ghost function Distortion(x: seq<real>, w: seq<real>, vqs: seq<Codebook>, idx: seq<nat>, lo: nat, hi: nat): real
    requires Indexes(vqs, idx, |vqs|) && lo <= hi <= |x| == |w|
    decreases hi
  {
    if lo == hi then 0.0
    else Distortion(x, w, vqs, idx, lo, hi - 1) +
         Term(x[hi - 1], w[hi - 1], Rebuilt(vqs, idx, |vqs|, hi - 1, x[hi - 1]))
  }

  lemma {:induction false} DistortionSplit(x: seq<real>, w: seq<real>, vqs: seq<Codebook>, idx: seq<nat>, lo: nat, mid: nat, hi: nat)
    requires Indexes(vqs, idx, |vqs|) && lo <= mid <= hi <= |x| == |w|
    ensures Distortion(x, w, vqs, idx, lo, hi) == Distortion(x, w, vqs, idx, lo, mid) + Distortion(x, w, vqs, idx, mid, hi)
    decreases hi
  {
    if mid < hi { DistortionSplit(x, w, vqs, idx, lo, mid, hi - 1); }
  }

  lemma {:induction false} DistortionSame(x: seq<real>, w: seq<real>, vqs: seq<Codebook>, idx: seq<nat>, other: seq<nat>, lo: nat, hi: nat)
    requires Indexes(vqs, idx, |vqs|) && Indexes(vqs, other, |vqs|) && lo <= hi <= |x| == |w|
    requires forall s, b :: 0 <= s < |vqs| && lo <= b < hi && InBand(vqs[s], b) ==> idx[s] == other[s]
    ensures Distortion(x, w, vqs, idx, lo, hi) == Distortion(x, w, vqs, other, lo, hi)
    decreases hi
  {
    if lo < hi {
      DistortionSame(x, w, vqs, idx, other, lo, hi - 1);
      RebuiltSame(vqs, idx, other, |vqs|, hi - 1, x[hi - 1]);
    }
  }

  /** Over the band of stage s, the distortion is that stage's search metric. */
  lemma {:induction false} DistortionInBand(x: seq<real>, w: seq<real>, vqs: seq<Codebook>, idx: seq<nat>, s: nat, i: nat)
    requires |x| == |w| && Stages(vqs, |x|) && Indexes(vqs, idx, |vqs|) && s < |vqs| && i <= vqs[s].k
    ensures Distortion(x, w, vqs, idx, vqs[s].offset, vqs[s].offset + i)
         == Metric(vqs[s], Band(vqs[s], x), Band(vqs[s], w), idx[s], i)
  {
    if i > 0 {
      DistortionInBand(x, w, vqs, idx, s, i - 1);
      var b := vqs[s].offset + i - 1;
      assert Band(vqs[s], x)[i - 1] == x[b] && Band(vqs[s], w)[i - 1] == w[b];
      RebuiltInside(vqs, idx, |vqs|, s, b, x[b], |x|);
      assert x[b] != 0.0 ==> Rebuilt(vqs, idx, |vqs|, b, x[b]) == Entry(vqs[s], idx[s], i - 1);
    }
  }

  /** Giving stage s the index its own search prefers never raises the distortion of the whole. */
  lemma ImproveStage(x: seq<real>, w: seq<real>, vqs: seq<Codebook>, idx: seq<nat>, s: nat, j: nat)
    requires |x| == |w| && Stages(vqs, |x|) && Indexes(vqs, idx, |vqs|) && s < |vqs|
    requires FirstBest(vqs[s], Band(vqs[s], x), Band(vqs[s], w), j, vqs[s].m)
    ensures Distortion(x, w, vqs, idx[s := j], 0, |x|) <= Distortion(x, w, vqs, idx, 0, |x|)
  {
    var lo := vqs[s].offset;
    var hi := lo + vqs[s].k;
    var better := idx[s := j];
    DistortionSplit(x, w, vqs, idx, 0, lo, |x|);
    DistortionSplit(x, w, vqs, idx, lo, hi, |x|);
    DistortionSplit(x, w, vqs, better, 0, lo, |x|);
    DistortionSplit(x, w, vqs, better, lo, hi, |x|);
    DistortionSame(x, w, vqs, idx, better, 0, lo);
    DistortionSame(x, w, vqs, idx, better, hi, |x|);
    DistortionInBand(x, w, vqs, idx, s, vqs[s].k);
    DistortionInBand(x, w, vqs, better, s, vqs[s].k);
  }

  /** Every stage's index is the choice of its own search, which found a metric below 1E32. */
  ghost predicate Chosen(x: seq<real>, w: seq<real>, vqs: seq<Codebook>, idx: seq<nat>)
    requires |x| == |w| && Stages(vqs, |x|)
  {
    |idx| == |vqs| && Indexes(vqs, idx, |vqs|) &&
    forall s :: 0 <= s < |vqs| ==> FirstBest(vqs[s], Band(vqs[s], x), Band(vqs[s], w), idx[s], vqs[s].m)
  }

  /** The first s indexes of idx, the others of `other`. */
  ghost function Mixed(idx: seq<nat>, other: seq<nat>, s: nat): seq<nat>
    requires s <= |idx| == |other|
  {
    idx[..s] + other[s..]
  }

  lemma MixedStep(vqs: seq<Codebook>, idx: seq<nat>, other: seq<nat>, s: nat)
    requires s < |idx| == |other| == |vqs| && Indexes(vqs, idx, |vqs|) && Indexes(vqs, other, |vqs|)
    ensures Indexes(vqs, Mixed(idx, other, s), |vqs|)
    ensures Mixed(idx, other, s + 1) == Mixed(idx, other, s)[s := idx[s]]
  {
  }

  /** Adopting the first s chosen indexes never raises the distortion of any tuple. */
  lemma {:induction false} AdoptChosen(x: seq<real>, w: seq<real>, vqs: seq<Codebook>, idx: seq<nat>, other: seq<nat>, s: nat)
    requires |x| == |w| && Stages(vqs, |x|) && Chosen(x, w, vqs, idx)
    requires |other| == |vqs| && Indexes(vqs, other, |vqs|) && s <= |vqs|
    ensures Indexes(vqs, Mixed(idx, other, s), |vqs|)
    ensures Distortion(x, w, vqs, Mixed(idx, other, s), 0, |x|) <= Distortion(x, w, vqs, other, 0, |x|)
  {
    if s == 0 {
      assert Mixed(idx, other, 0) == other;
    } else {
      AdoptChosen(x, w, vqs, idx, other, s - 1);
      AdoptOne(x, w, vqs, idx, other, s - 1);
    }
  }

  lemma AdoptOne(x: seq<real>, w: seq<real>, vqs: seq<Codebook>, idx: seq<nat>, other: seq<nat>, s: nat)
    requires |x| == |w| && Stages(vqs, |x|) && Chosen(x, w, vqs, idx)
    requires |other| == |vqs| && Indexes(vqs, other, |vqs|) && s < |vqs|
    ensures Indexes(vqs, Mixed(idx, other, s), |vqs|) && Indexes(vqs, Mixed(idx, other, s + 1), |vqs|)
    ensures Distortion(x, w, vqs, Mixed(idx, other, s + 1), 0, |x|) <= Distortion(x, w, vqs, Mixed(idx, other, s), 0, |x|)
  {
    MixedStep(vqs, idx, other, s);
    ImproveStage(x, w, vqs, Mixed(idx, other, s), s, idx[s]);
  }

  /**
   The independent searches find the optimum over all combinations of codewords: no other
   tuple of indexes rebuilds the spectrum with less weighted distortion.
   */
  lemma SplitIsExhaustive(x: seq<real>, w: seq<real>, vqs: seq<Codebook>, idx: seq<nat>, other: seq<nat>)
    requires |x| == |w| && Stages(vqs, |x|) && Chosen(x, w, vqs, idx)
    requires |other| == |vqs| && Indexes(vqs, other, |vqs|)
    ensures Distortion(x, w, vqs, idx, 0, |x|) <= Distortion(x, w, vqs, other, 0, |x|)
  {
    AdoptChosen(x, w, vqs, idx, other, |vqs|);
    assert Mixed(idx, other, |vqs|) == idx;
  }

  /** What the five calls leave behind: an optimal choice, and residual plus output equal to the original. */
  lemma FiveStagesOptimal(x: seq<real>, w: seq<real>, peIn: seq<real>, peOut: seq<real>,
                          vqs: seq<Codebook>, idx: seq<nat>, other: seq<nat>)
    requires |x| == |w| && Stages(vqs, |x|) && |idx| == |vqs| && Progress(x, w, peIn, peOut, vqs, idx)
    requires forall s :: 0 <= s < |vqs| ==> !NoneReached(vqs[s], Band(vqs[s], x), Band(vqs[s], w), vqs[s].m)
    requires |other| == |vqs| && Indexes(vqs, other, |vqs|)
    ensures forall b :: 0 <= b < |x| ==> peIn[b] + peOut[b] == x[b]
    ensures Distortion(x, w, vqs, idx, 0, |x|) <= Distortion(x, w, vqs, other, 0, |x|)
  {
    forall s | 0 <= s < |vqs| ensures FirstBest(vqs[s], Band(vqs[s], x), Band(vqs[s], w), idx[s], vqs[s].m) {
      assert Picked(vqs[s], Band(vqs[s], x), Band(vqs[s], w), idx[s]);
    }
    SplitIsExhaustive(x, w, vqs, idx, other);
  }
}
