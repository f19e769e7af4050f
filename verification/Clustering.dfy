/**
 The centroid update of k-means and the splitting of large clusters into empty ones
 (faiss/Clustering.cpp, compute_centroids and split_clusters), over the reals.
 */
module Clustering {

  import opened Options

  /** Points with their clusters, and weights if they have any. */
  datatype Sample = Sample(xs: seq<seq<real>>, assign: seq<nat>, weights: Option<seq<real>>)

  ghost predicate GoodSample(s: Sample, d: nat, k: nat) {
    && |s.assign| == |s.xs|
    && (forall i :: 0 <= i < |s.xs| ==> |s.xs[i]| == d && s.assign[i] < k)
    && (s.weights.Some? ==> |s.weights.value| == |s.xs|)
  }

  ghost predicate NonNegative(s: Sample) {
    s.weights.Some? ==> forall i :: 0 <= i < |s.weights.value| ==> s.weights.value[i] >= 0.0
  }

  function Weight(s: Sample, i: nat): real
    requires s.weights.Some? ==> i < |s.weights.value|
  {
    if s.weights.Some? then s.weights.value[i] else 1.0
  }

  /** Mass of cluster c among the first n points. */
  ghost function Mass(s: Sample, n: nat, c: nat): real
    requires n <= |s.assign| && (s.weights.Some? ==> |s.weights.value| == |s.assign|)
  {
    if n == 0 then 0.0 else Mass(s, n - 1, c) + if s.assign[n - 1] == c then Weight(s, n - 1) else 0.0
  }

  /** First moment of cluster c in coordinate j. */
  ghost function First(s: Sample, n: nat, c: nat, j: nat): real
    requires n <= |s.assign| == |s.xs| && (s.weights.Some? ==> |s.weights.value| == |s.assign|)
    requires forall i :: 0 <= i < n ==> j < |s.xs[i]|
  {
    if n == 0 then 0.0
    else First(s, n - 1, c, j) + if s.assign[n - 1] == c then s.xs[n - 1][j] * Weight(s, n - 1) else 0.0
  }

  lemma {:induction false} MassIsNonNegative(s: Sample, n: nat, c: nat)
    requires n <= |s.assign| && (s.weights.Some? ==> |s.weights.value| == |s.assign|) && NonNegative(s)
    ensures Mass(s, n, c) >= 0.0
  {
    if n > 0 {
      MassIsNonNegative(s, n - 1, c);
    }
  }

  /** A cluster without mass has no first moment either. */
  lemma {:induction false} NoMassNoMoment(s: Sample, n: nat, c: nat, j: nat)
    requires n <= |s.assign| == |s.xs| && (s.weights.Some? ==> |s.weights.value| == |s.assign|) && NonNegative(s)
    requires forall i :: 0 <= i < n ==> j < |s.xs[i]|
    requires Mass(s, n, c) == 0.0
    ensures First(s, n, c, j) == 0.0
  {
    if n > 0 {
      MassIsNonNegative(s, n - 1, c);
      NoMassNoMoment(s, n - 1, c, j);
    }
  }

  /** A product of two reals; proofs about sums of products treat it as a name. */
  function Times(a: real, b: real): real {
    a * b
  }

  /** One mass per cluster that is not frozen, one centroid per cluster. */
  predicate Shaped(frozen: nat, hassign: array<real>, centroids: array2<real>) {
    frozen <= centroids.Length0 && hassign.Length == centroids.Length0 - frozen
  }

  /** Mass and first moment of every cluster that is not frozen, as sums over the first n points. */
  ghost predicate Summed(s: Sample, n: nat, frozen: nat, hassign: array<real>, centroids: array2<real>)
    requires GoodSample(s, centroids.Length1, centroids.Length0) && n <= |s.xs| && Shaped(frozen, hassign, centroids)
    reads hassign, centroids
  {
    && (forall c :: frozen <= c < centroids.Length0 ==> hassign[c - frozen] == Mass(s, n, c))
    && forall c, j :: frozen <= c < centroids.Length0 && 0 <= j < centroids.Length1 ==>
      centroids[c, j] == First(s, n, c, j)
  }

  /** The centroids of the first clusters are as they were. */
  twostate predicate FrozenKept(frozen: nat, centroids: array2<real>)
    reads centroids
  {
    forall c, j :: 0 <= c < frozen && c < centroids.Length0 && 0 <= j < centroids.Length1 ==>
      centroids[c, j] == old(centroids[c, j])
  }

  lemma OneMorePoint(s: Sample, i: nat, n: nat, d: nat, k: nat, c: nat)
    requires GoodSample(s, d, k) && i < |s.xs| && n == i + 1
    ensures Mass(s, n, c) == Mass(s, i, c) + if s.assign[i] == c then Weight(s, i) else 0.0
    ensures forall j: nat {:trigger First(s, n, c, j)} :: j < d ==>
      First(s, n, c, j) == First(s, i, c, j) + if s.assign[i] == c then s.xs[i][j] * Weight(s, i) else 0.0
  {
  }

  /** One point goes to its cluster, unless that is frozen. */
  method AddPoint(s: Sample, i: nat, frozen: nat, hassign: array<real>, centroids: array2<real>)
    requires GoodSample(s, centroids.Length1, centroids.Length0) && i < |s.xs| && Shaped(frozen, hassign, centroids)
    requires Summed(s, i, frozen, hassign, centroids)
    modifies hassign, centroids
    ensures Summed(s, i + 1, frozen, hassign, centroids) && FrozenKept(frozen, centroids)
  {
    forall c: nat
      ensures Mass(s, i + 1, c) == Mass(s, i, c) + if s.assign[i] == c then Weight(s, i) else 0.0
      ensures forall j: nat {:trigger First(s, i, c, j)} :: j < centroids.Length1 ==>
        First(s, i + 1, c, j) == First(s, i, c, j) + if s.assign[i] == c then s.xs[i][j] * Weight(s, i) else 0.0
    {
      OneMorePoint(s, i, i + 1, centroids.Length1, centroids.Length0, c);
    }
    hide Mass, First;
    var ci := s.assign[i];
    if ci >= frozen {
      AddTo(ci, s.xs[i], Weight(s, i), frozen, hassign, centroids);
    }
    var n := i + 1;
    forall c | frozen <= c < centroids.Length0
      ensures hassign[c - frozen] == Mass(s, n, c)
    {
      assert old(hassign[c - frozen]) == Mass(s, i, c);
    }
    forall c, m | frozen <= c < centroids.Length0 && 0 <= m < centroids.Length1
      ensures centroids[c, m] == First(s, i + 1, c, m)
    {
      assert old(centroids[c, m]) == First(s, i, c, m);
    }
  }

  /** Adds a weighted point to the sums of cluster ci. */
  method AddTo(ci: nat, xi: seq<real>, w: real, frozen: nat, hassign: array<real>, centroids: array2<real>)
    requires Shaped(frozen, hassign, centroids) && frozen <= ci < centroids.Length0 && |xi| == centroids.Length1
    modifies hassign, centroids
    ensures forall c :: 0 <= c < hassign.Length ==>
      hassign[c] == old(hassign[c]) + if c == ci - frozen then w else 0.0
    ensures forall c, m :: 0 <= c < centroids.Length0 && 0 <= m < centroids.Length1 ==>
      centroids[c, m] == old(centroids[c, m]) + if c == ci then xi[m] * w else 0.0
  {
    hassign[ci - frozen] := hassign[ci - frozen] + w;
    ghost var masses := hassign[..];
    for j := 0 to centroids.Length1
      invariant hassign[..] == masses
      invariant forall c, m :: 0 <= c < centroids.Length0 && 0 <= m < centroids.Length1 ==>
        centroids[c, m] == old(centroids[c, m]) + if c == ci && m < j then xi[m] * w else 0.0
    {
      centroids[ci, j] := centroids[ci, j] + xi[j] * w;
    }
    forall c | 0 <= c < hassign.Length
      ensures hassign[c] == old(hassign[c]) + if c == ci - frozen then w else 0.0
    {
      assert hassign[c] == masses[c];
    }
  }

  method Accumulate(s: Sample, frozen: nat, hassign: array<real>, centroids: array2<real>)
    requires GoodSample(s, centroids.Length1, centroids.Length0) && Shaped(frozen, hassign, centroids)
    requires forall c :: 0 <= c < hassign.Length ==> hassign[c] == 0.0
    modifies hassign, centroids
    ensures Summed(s, |s.xs|, frozen, hassign, centroids) && FrozenKept(frozen, centroids)
  {
    forall c, j | frozen <= c < centroids.Length0 && 0 <= j < centroids.Length1 {
      centroids[c, j] := 0.0;
    }
    assert Summed(s, 0, frozen, hassign, centroids) && FrozenKept(frozen, centroids);
    hide GoodSample, Summed;
    for i := 0 to |s.xs|
      invariant GoodSample(s, centroids.Length1, centroids.Length0)
      invariant Summed(s, i, frozen, hassign, centroids) && FrozenKept(frozen, centroids)
    {
      AddPoint(s, i, frozen, hassign, centroids);
    }
  }

  /** The clusters before ci have their centroids, the others still their sums. */
  ghost predicate Normalised(s: Sample, ci: nat, frozen: nat, hassign: array<real>, centroids: array2<real>)
    requires GoodSample(s, centroids.Length1, centroids.Length0) && Shaped(frozen, hassign, centroids)
    reads hassign, centroids
  {
    && (forall c :: frozen <= c < centroids.Length0 ==> hassign[c - frozen] == Mass(s, |s.xs|, c))
    && (forall c, j :: frozen <= c < ci && c < centroids.Length0 && 0 <= j < centroids.Length1 ==>
        Times(hassign[c - frozen], centroids[c, j]) == First(s, |s.xs|, c, j))
    && (forall c, j :: frozen <= c && ci <= c < centroids.Length0 && 0 <= j < centroids.Length1 ==>
        centroids[c, j] == First(s, |s.xs|, c, j))
  }

  method NormaliseNext(s: Sample, ci: nat, frozen: nat, hassign: array<real>, centroids: array2<real>)
    requires GoodSample(s, centroids.Length1, centroids.Length0) && NonNegative(s) && Shaped(frozen, hassign, centroids)
    requires frozen <= ci < centroids.Length0 && Normalised(s, ci, frozen, hassign, centroids)
    modifies centroids
    ensures Normalised(s, ci + 1, frozen, hassign, centroids) && FrozenKept(frozen, centroids)
  {
    hide GoodSample, Mass, First, Times;
    Normalise(s, ci, frozen, hassign, centroids);
  }

  /** Centroids of the clusters that are not frozen. The masses start at zero. */
  method ComputeCentroids(s: Sample, frozen: nat, hassign: array<real>, centroids: array2<real>)
    requires GoodSample(s, centroids.Length1, centroids.Length0) && NonNegative(s) && Shaped(frozen, hassign, centroids)
    requires forall c :: 0 <= c < hassign.Length ==> hassign[c] == 0.0
    modifies hassign, centroids
    ensures FrozenKept(frozen, centroids)
    ensures forall c :: frozen <= c < centroids.Length0 ==> hassign[c - frozen] == Mass(s, |s.xs|, c) >= 0.0
    ensures forall c, j :: frozen <= c < centroids.Length0 && 0 <= j < centroids.Length1 ==>
      hassign[c - frozen] * centroids[c, j] == First(s, |s.xs|, c, j)
  {
    Accumulate(s, frozen, hassign, centroids);
    assert Normalised(s, frozen, frozen, hassign, centroids);
    hide GoodSample, Summed, Mass, First, Normalised;
    for ci := frozen to centroids.Length0
      invariant GoodSample(s, centroids.Length1, centroids.Length0)
      invariant FrozenKept(frozen, centroids) && Normalised(s, ci, frozen, hassign, centroids)
    {
      NormaliseNext(s, ci, frozen, hassign, centroids);
    }
    AllNormalised(s, frozen, hassign, centroids);
  }

  lemma AllNormalised(s: Sample, frozen: nat, hassign: array<real>, centroids: array2<real>)
    requires GoodSample(s, centroids.Length1, centroids.Length0) && NonNegative(s) && Shaped(frozen, hassign, centroids)
    requires Normalised(s, centroids.Length0, frozen, hassign, centroids)
    ensures forall c :: frozen <= c < centroids.Length0 ==> hassign[c - frozen] == Mass(s, |s.xs|, c) >= 0.0
    ensures forall c, j :: frozen <= c < centroids.Length0 && 0 <= j < centroids.Length1 ==>
      hassign[c - frozen] * centroids[c, j] == First(s, |s.xs|, c, j)
  {
    forall c | frozen <= c < centroids.Length0
      ensures Mass(s, |s.xs|, c) >= 0.0
    {
      MassIsNonNegative(s, |s.xs|, c);
    }
  }

  method Normalise(s: Sample, ci: nat, frozen: nat, hassign: array<real>, centroids: array2<real>)
    requires GoodSample(s, centroids.Length1, centroids.Length0) && NonNegative(s) && Shaped(frozen, hassign, centroids)
    requires frozen <= ci < centroids.Length0 && hassign[ci - frozen] == Mass(s, |s.xs|, ci)
    requires forall j :: 0 <= j < centroids.Length1 ==> centroids[ci, j] == First(s, |s.xs|, ci, j)
    modifies centroids
    ensures forall j :: 0 <= j < centroids.Length1 ==>
      Times(hassign[ci - frozen], centroids[ci, j]) == First(s, |s.xs|, ci, j)
    ensures forall c, j :: 0 <= c < centroids.Length0 && c != ci && 0 <= j < centroids.Length1 ==>
      centroids[c, j] == old(centroids[c, j])
  {
    if hassign[ci - frozen] == 0.0 {
      forall j | 0 <= j < centroids.Length1
        ensures First(s, |s.xs|, ci, j) == 0.0
      {
        NoMassNoMoment(s, |s.xs|, ci, j);
      }
      return;
    }
    hide First, Mass;
    var h := hassign[ci - frozen];
    var norm := 1.0 / h;
    for j := 0 to centroids.Length1
      invariant forall c, m :: 0 <= c < centroids.Length0 && 0 <= m < centroids.Length1 ==>
        centroids[c, m] == if c == ci && m < j then old(centroids[c, m]) * norm else old(centroids[c, m])
    {
      centroids[ci, j] := centroids[ci, j] * norm;
    }
    hide Times;
    forall j | 0 <= j < centroids.Length1
      ensures Times(h, centroids[ci, j]) == First(s, |s.xs|, ci, j)
    {
      Cancel(h, norm, First(s, |s.xs|, ci, j));
    }
  }

  lemma Cancel(h: real, norm: real, x: real)
    requires h != 0.0 && norm == 1.0 / h
    ensures Times(h, x * norm) == x
  {
    assert h * norm == 1.0;
    assert h * (x * norm) == x * (h * norm);
  }

  // Splitting.

  /** Sum of masses times positions. */
  function SumProducts(h: seq<real>, x: seq<real>): real
    requires |h| == |x|
  {
    if h == [] then 0.0 else SumProducts(h[..|h| - 1], x[..|x| - 1]) + Times(h[|h| - 1], x[|x| - 1])
  }

  function Sum(h: seq<real>): real {
    if h == [] then 0.0 else Sum(h[..|h| - 1]) + h[|h| - 1]
  }

  lemma {:induction false} SumUpdate(h: seq<real>, x: seq<real>, i: nat, a: real, b: real)
    requires i < |h| == |x|
    ensures SumProducts(h[i := a], x[i := b]) == SumProducts(h, x) - Times(h[i], x[i]) + Times(a, b)
    ensures Sum(h[i := a]) == Sum(h) - h[i] + a
  {
    hide Times;
    var n := |h| - 1;
    if i == n {
      assert h[i := a][..n] == h[..n] && x[i := b][..n] == x[..n];
    } else {
      SumUpdate(h[..n], x[..n], i, a, b);
      assert h[i := a][..n] == h[..n][i := a] && x[i := b][..n] == x[..n][i := b];
    }
  }

  /** The symmetric perturbation. */
  const EPS: real := 1.0 / 1024.0

  function Up(x: real, j: nat): real {
    if j % 2 == 0 then x * (1.0 + EPS) else x * (1.0 - EPS)
  }

  function Down(x: real, j: nat): real {
    if j % 2 == 0 then x * (1.0 - EPS) else x * (1.0 + EPS)
  }

  function Halved(h: seq<real>, ci: nat, cj: nat): (next: seq<real>)
    requires ci < |h| && cj < |h|
    ensures |next| == |h|
  {
    h[ci := h[cj] / 2.0][cj := h[cj] / 2.0]
  }

  function Divided(x: seq<real>, ci: nat, cj: nat, j: nat): (next: seq<real>)
    requires ci < |x| && cj < |x|
    ensures |next| == |x|
  {
    x[ci := Up(x[cj], j)][cj := Down(x[cj], j)]
  }

  /** Splitting cluster cj into the empty cluster ci keeps mass and first moment. */
  lemma SplitConserves(h: seq<real>, x: seq<real>, ci: nat, cj: nat, j: nat)
    requires |h| == |x| && ci < |h| && cj < |h| && ci != cj && h[ci] == 0.0
    ensures SumProducts(Halved(h, ci, cj), Divided(x, ci, cj, j)) == SumProducts(h, x)
    ensures Sum(Halved(h, ci, cj)) == Sum(h)
  {
    hide SumProducts, Sum, Up, Down, Times;
    var half, up, down := h[cj] / 2.0, Up(x[cj], j), Down(x[cj], j);
    var h1, x1 := h[ci := half], x[ci := up];
    SumUpdate(h, x, ci, half, up);
    SumUpdate(h1, x1, cj, half, down);
    Halves(h[cj], x[cj], half, j);
    NoTimes(x[ci]);
    assert h1[cj] == h[cj] && x1[cj] == x[cj];
    assert Halved(h, ci, cj) == h1[cj := half] && Divided(x, ci, cj, j) == x1[cj := down];
  }

  lemma NoTimes(x: real)
    ensures Times(0.0, x) == 0.0
  {
  }

  lemma Halves(h: real, x: real, half: real, j: nat)
    requires half == h / 2.0
    ensures Times(half, Up(x, j)) + Times(half, Down(x, j)) == Times(h, x)
  {
    var up, down := Up(x, j), Down(x, j);
    assert up + down == 2.0 * x;
    hide Up, Down;
    assert Times(half, up) + Times(half, down) == half * (up + down);
    assert half * (2.0 * x) == (half * 2.0) * x;
  }

  /** Coordinate j of the centroids that are not frozen. */
  ghost function Column(frozen: nat, centroids: array2<real>, j: nat): (x: seq<real>)
    requires frozen <= centroids.Length0 && j < centroids.Length1
    reads centroids
    ensures |x| == centroids.Length0 - frozen
  {
    seq(centroids.Length0 - frozen, c requires 0 <= c < centroids.Length0 - frozen reads centroids =>
      centroids[frozen + c, j])
  }

  /** How many clusters are empty. */
  function Empty(h: seq<real>): nat {
    if h == [] then 0 else Empty(h[..|h| - 1]) + if h[|h| - 1] == 0.0 then 1 else 0
  }

  lemma {:induction false} EmptyUpdate(h: seq<real>, i: nat, a: real)
    requires i < |h| && a != 0.0
    ensures Empty(h[i := a]) == if h[i] == 0.0 then Empty(h) - 1 else Empty(h)
  {
    var n := |h| - 1;
    if i == n {
      assert h[i := a][..n] == h[..n];
    } else {
      EmptyUpdate(h[..n], i, a);
      assert h[i := a][..n] == h[..n][i := a];
    }
  }

  lemma {:induction false} NoneEmpty(h: seq<real>)
    requires forall i :: 0 <= i < |h| ==> h[i] != 0.0
    ensures Empty(h) == 0
  {
    if h != [] {
      NoneEmpty(h[..|h| - 1]);
    }
  }

  /** Walks round the clusters until a draw picks one, or the draws are used up. A picked cluster has a mass
      above one. */
  method PickCluster(hassign: array<real>, n: nat, draws: seq<real>, used: nat) returns (found: bool, cj: nat, next: nat)
    requires 0 < hassign.Length < n && used <= |draws| && forall i :: 0 <= i < |draws| ==> 0.0 <= draws[i] <= 1.0
    ensures used <= next <= |draws|
    ensures found ==> cj < hassign.Length && hassign[cj] > 1.0
    ensures !found ==> next == |draws|
  {
    cj, next := 0, used;
    while next < |draws|
      invariant cj < hassign.Length && used <= next <= |draws|
    {
      var p := (hassign[cj] - 1.0) / ((n - hassign.Length) as real);
      var r := draws[next];
      next := next + 1;
      if r < p {
        AboveOne(hassign[cj], (n - hassign.Length) as real);
        return true, cj, next;
      }
      cj := (cj + 1) % hassign.Length;
    }
    found := false;
  }

  lemma AboveOne(h: real, m: real)
    requires m > 0.0 && (h - 1.0) / m > 0.0
    ensures h > 1.0
  {
    assert ((h - 1.0) / m) * m == h - 1.0;
    assert ((h - 1.0) / m) * m > 0.0;
  }

  /** Cluster cj is split: half its mass goes to the empty cluster ci, and the two centroids move apart. */
  method SplitInto(frozen: nat, hassign: array<real>, centroids: array2<real>, ci: nat, cj: nat)
    requires Shaped(frozen, hassign, centroids) && ci < hassign.Length && cj < hassign.Length && ci != cj
    modifies hassign, centroids
    ensures hassign[..] == Halved(old(hassign[..]), ci, cj)
    ensures forall j :: 0 <= j < centroids.Length1 ==>
      Column(frozen, centroids, j) == Divided(old(Column(frozen, centroids, j)), ci, cj, j)
    ensures FrozenKept(frozen, centroids)
  {
    var a, b := frozen + ci, frozen + cj;
    ghost var masses := hassign[..];
    for j := 0 to centroids.Length1
      invariant hassign[..] == masses
      invariant forall c, m :: 0 <= c < centroids.Length0 && 0 <= m < centroids.Length1 ==>
        centroids[c, m] == if c == a && m < j then old(centroids[b, m]) else old(centroids[c, m])
    {
      centroids[a, j] := centroids[b, j];
    }
    for j := 0 to centroids.Length1
      invariant hassign[..] == masses
      invariant forall c, m :: 0 <= c < centroids.Length0 && 0 <= m < centroids.Length1 ==>
        centroids[c, m] ==
          if c == a then (if m < j then Up(old(centroids[b, m]), m) else old(centroids[b, m]))
          else if c == b && m < j then Down(old(centroids[b, m]), m)
          else old(centroids[c, m])
    {
      if j % 2 == 0 {
        centroids[a, j] := centroids[a, j] * (1.0 + EPS);
        centroids[b, j] := centroids[b, j] * (1.0 - EPS);
      } else {
        centroids[a, j] := centroids[a, j] * (1.0 - EPS);
        centroids[b, j] := centroids[b, j] * (1.0 + EPS);
      }
    }
    hassign[ci] := hassign[cj] / 2.0;
    hassign[cj] := hassign[cj] - hassign[ci];
  }

  /** Mass and first moment in every coordinate are as before; the frozen centroids too. */
  twostate predicate Conserved(frozen: nat, hassign: array<real>, centroids: array2<real>)
    requires Shaped(frozen, hassign, centroids)
    reads hassign, centroids
  {
    && Sum(hassign[..]) == Sum(old(hassign[..]))
    && (forall j :: 0 <= j < centroids.Length1 ==>
        SumProducts(hassign[..], Column(frozen, centroids, j)) ==
        SumProducts(old(hassign[..]), old(Column(frozen, centroids, j))))
    && FrozenKept(frozen, centroids)
  }

  method SplitNext(frozen: nat, hassign: array<real>, centroids: array2<real>, ci: nat, cj: nat)
    requires Shaped(frozen, hassign, centroids) && ci < hassign.Length && cj < hassign.Length
    requires hassign[ci] == 0.0 && hassign[cj] > 1.0
    modifies hassign, centroids
    ensures Conserved(frozen, hassign, centroids)
    ensures hassign[..] == Halved(old(hassign[..]), ci, cj)
    ensures Empty(hassign[..]) == Empty(old(hassign[..])) - 1
  {
    ghost var h := hassign[..];
    SplitInto(frozen, hassign, centroids, ci, cj);
    hide SumProducts, Sum, Divided;
    forall j | 0 <= j < centroids.Length1
      ensures SumProducts(hassign[..], Column(frozen, centroids, j)) == SumProducts(h, old(Column(frozen, centroids, j)))
    {
      SplitConserves(h, old(Column(frozen, centroids, j)), ci, cj, j);
    }
    SplitConserves(h, h, ci, cj, 0);
    EmptyUpdate(h, ci, h[cj] / 2.0);
    EmptyUpdate(h[ci := h[cj] / 2.0], cj, h[cj] / 2.0);
  }

  /** Every empty cluster takes half of one that a draw picks. Without draws left it stops. Mass and first
      moment never change; at the end no cluster is empty and each split filled one. */
  method SplitClusters(n: nat, frozen: nat, hassign: array<real>, centroids: array2<real>, draws: seq<real>)
    returns (ok: bool, nsplit: nat)
    requires Shaped(frozen, hassign, centroids) && hassign.Length < n
    requires forall i :: 0 <= i < |draws| ==> 0.0 <= draws[i] <= 1.0
    modifies hassign, centroids
    ensures Conserved(frozen, hassign, centroids)
    ensures ok ==> forall c :: 0 <= c < hassign.Length ==> hassign[c] != 0.0
    ensures ok ==> nsplit == Empty(old(hassign[..]))
  {
    ok, nsplit := true, 0;
    var used := 0;
    hide SumProducts, Sum, Empty;
    for ci := 0 to hassign.Length
      invariant used <= |draws| && Conserved(frozen, hassign, centroids)
      invariant forall c :: 0 <= c < ci ==> hassign[c] != 0.0
      invariant nsplit + Empty(hassign[..]) == Empty(old(hassign[..]))
    {
      if hassign[ci] == 0.0 {
        var found, cj;
        found, cj, used := PickCluster(hassign, n, draws, used);
        if !found {
          return false, nsplit;
        }
        ghost var h := hassign[..];
        SplitNext(frozen, hassign, centroids, ci, cj);
        assert forall c :: 0 <= c < hassign.Length ==> hassign[c] == Halved(h, ci, cj)[c];
        nsplit := nsplit + 1;
      }
    }
    NoneEmpty(hassign[..]);
  }

  /** Where every mass times centroid is a first moment, they add up to the moments of the clusters. */
  lemma {:induction false} MomentOfAll(s: Sample, d: nat, k: nat, frozen: nat, h: seq<real>, x: seq<real>, m: nat, j: nat)
    requires GoodSample(s, d, k) && j < d && m <= |h| == |x|
    requires forall c :: 0 <= c < m ==> Times(h[c], x[c]) == First(s, |s.xs|, frozen + c, j)
    ensures SumProducts(h[..m], x[..m]) == Moments(s, frozen, m, j)
  {
    hide Times;
    if m > 0 {
      MomentOfAll(s, d, k, frozen, h, x, m - 1, j);
      assert h[..m][..m - 1] == h[..m - 1] && x[..m][..m - 1] == x[..m - 1];
    }
  }

  /** First moments of m clusters behind the frozen ones. */
  ghost function Moments(s: Sample, frozen: nat, m: nat, j: nat): real
    requires |s.assign| == |s.xs| && (s.weights.Some? ==> |s.weights.value| == |s.assign|)
    requires forall i :: 0 <= i < |s.xs| ==> j < |s.xs[i]|
  {
    if m == 0 then 0.0 else Moments(s, frozen, m - 1, j) + First(s, |s.xs|, frozen + m - 1, j)
  }

  /** The weighted sum of the points, among the first n, that are in clusters frozen up to frozen + m. */
  ghost function WeightedSum(s: Sample, n: nat, frozen: nat, m: nat, j: nat): real
    requires n <= |s.assign| == |s.xs| && (s.weights.Some? ==> |s.weights.value| == |s.assign|)
    requires forall i :: 0 <= i < |s.xs| ==> j < |s.xs[i]|
  {
    if n == 0 then 0.0
    else
      var last := if frozen <= s.assign[n - 1] < frozen + m then s.xs[n - 1][j] * Weight(s, n - 1) else 0.0;
      WeightedSum(s, n - 1, frozen, m, j) + last
  }

  lemma {:induction false} OneMoreCluster(s: Sample, n: nat, frozen: nat, m: nat, j: nat)
    requires n <= |s.assign| == |s.xs| && (s.weights.Some? ==> |s.weights.value| == |s.assign|)
    requires forall i :: 0 <= i < |s.xs| ==> j < |s.xs[i]|
    ensures WeightedSum(s, n, frozen, m + 1, j) == WeightedSum(s, n, frozen, m, j) + First(s, n, frozen + m, j)
    ensures WeightedSum(s, n, frozen, 0, j) == 0.0
  {
    if n > 0 {
      OneMoreCluster(s, n - 1, frozen, m, j);
    }
  }

  /** Cluster by cluster or point by point: the same moment. */
  lemma {:induction false} MomentsAreWeightedSum(s: Sample, frozen: nat, m: nat, j: nat)
    requires |s.assign| == |s.xs| && (s.weights.Some? ==> |s.weights.value| == |s.assign|)
    requires forall i :: 0 <= i < |s.xs| ==> j < |s.xs[i]|
    ensures Moments(s, frozen, m, j) == WeightedSum(s, |s.xs|, frozen, m, j)
  {
    if m == 0 {
      OneMoreCluster(s, |s.xs|, frozen, 0, j);
    } else {
      MomentsAreWeightedSum(s, frozen, m - 1, j);
      OneMoreCluster(s, |s.xs|, frozen, m - 1, j);
    }
  }

  /** One round of k-means after the assignment: in every coordinate the masses times the centroids still
      add up to the weighted sum of the points of all clusters that are not frozen. */
  method UpdateAndSplit(s: Sample, frozen: nat, hassign: array<real>, centroids: array2<real>, draws: seq<real>)
    returns (ok: bool, nsplit: nat)
    requires GoodSample(s, centroids.Length1, centroids.Length0) && NonNegative(s) && Shaped(frozen, hassign, centroids)
    requires (forall c :: 0 <= c < hassign.Length ==> hassign[c] == 0.0) && hassign.Length < |s.xs|
    requires forall i :: 0 <= i < |draws| ==> 0.0 <= draws[i] <= 1.0
    modifies hassign, centroids
    ensures FrozenKept(frozen, centroids)
    ensures forall j :: 0 <= j < centroids.Length1 ==>
      SumProducts(hassign[..], Column(frozen, centroids, j)) == WeightedSum(s, |s.xs|, frozen, hassign.Length, j)
    ensures ok ==> forall c :: 0 <= c < hassign.Length ==> hassign[c] != 0.0
  {
    ComputeCentroids(s, frozen, hassign, centroids);
    hide Mass, First, SumProducts, WeightedSum, Sum;
    forall j | 0 <= j < centroids.Length1
      ensures SumProducts(hassign[..], Column(frozen, centroids, j)) == WeightedSum(s, |s.xs|, frozen, hassign.Length, j)
    {
      var x := Column(frozen, centroids, j);
      forall c | 0 <= c < hassign.Length
        ensures Times(hassign[..][c], x[c]) == First(s, |s.xs|, frozen + c, j)
      {
        assert hassign[frozen + c - frozen] * centroids[frozen + c, j] == First(s, |s.xs|, frozen + c, j);
      }
      MomentOfAll(s, centroids.Length1, centroids.Length0, frozen, hassign[..], x, hassign.Length, j);
      assert hassign[..][..hassign.Length] == hassign[..] && x[..hassign.Length] == x;
      MomentsAreWeightedSum(s, frozen, hassign.Length, j);
    }
    ok, nsplit := SplitClusters(|s.xs|, frozen, hassign, centroids, draws);
  }
}
