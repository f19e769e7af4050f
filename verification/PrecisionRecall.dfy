/**
 Precision and recall of range search results, for one threshold and for several in one pass
 (contrib/evaluation.py). A result is a hit with a distance; the ground truth is a list of ids per query.
 */
module PrecisionRecall {

  import opened AdaptiveRange
  import opened Rearrangements
  import H = HybridRange

  // Counting correct results.

  function IdsOf(hits: seq<Hit>): set<int> {
    if hits == [] then {} else IdsOf(hits[..|hits| - 1]) + {hits[|hits| - 1].id}
  }

  function SetOf(ids: seq<int>): set<int> {
    if ids == [] then {} else SetOf(ids[..|ids| - 1]) + {ids[|ids| - 1]}
  }

  lemma {:induction false} SetOfMembers(ids: seq<int>, x: int)
    ensures x in SetOf(ids) <==> x in ids
  {
    if ids != [] {
      SetOfMembers(ids[..|ids| - 1], x);
      assert ids == ids[..|ids| - 1] + [ids[|ids| - 1]];
    }
  }

  /** Correct ids among the hits, each counted once: the size of the intersection. */
  function Intersection(gt: seq<int>, hits: seq<Hit>): nat {
    |SetOf(gt) * IdsOf(hits)|
  }

  /** Hits whose id is in the ground truth, counted one by one. */
  function Correct(gt: seq<int>, hits: seq<Hit>): nat {
    if hits == [] then 0
    else Correct(gt, hits[..|hits| - 1]) + if hits[|hits| - 1].id in gt then 1 else 0
  }

  /** No ground-truth id is reported twice. */
  ghost predicate NoneRepeated(gt: seq<int>, hits: seq<Hit>) {
    forall i, j :: 0 <= i < j < |hits| && hits[i].id in gt ==> hits[i].id != hits[j].id
  }

  lemma {:induction false} IdsOfMembers(hits: seq<Hit>, id: int)
    ensures id in IdsOf(hits) <==> exists i :: 0 <= i < |hits| && hits[i].id == id
  {
    if hits != [] {
      var n := |hits| - 1;
      IdsOfMembers(hits[..n], id);
      if id in IdsOf(hits[..n]) {
        var i :| 0 <= i < n && hits[..n][i].id == id;
        assert hits[i].id == id;
      } else {
        assert forall i :: 0 <= i < n ==> hits[..n][i] == hits[i];
      }
    }
  }

  /** One more hit adds to the intersection when it is correct and new. */
  lemma IntersectionStep(gt: seq<int>, hits: seq<Hit>, h: Hit)
    ensures Intersection(gt, hits + [h]) ==
      Intersection(gt, hits) + if h.id in gt && h.id !in IdsOf(hits) then 1 else 0
  {
    assert (hits + [h])[..|hits|] == hits;
    SetOfMembers(gt, h.id);
    var before, after := SetOf(gt) * IdsOf(hits), SetOf(gt) * (IdsOf(hits) + {h.id});
    if h.id in gt && h.id !in IdsOf(hits) {
      assert after == before + {h.id};
    } else {
      assert after == before;
    }
  }

  /** Counting one by one never gives less than the intersection, and gives it exactly when no correct id is
      repeated. */
  lemma {:induction false} CorrectIsIntersectionIff(gt: seq<int>, hits: seq<Hit>)
    ensures Correct(gt, hits) >= Intersection(gt, hits)
    ensures Correct(gt, hits) == Intersection(gt, hits) <==> NoneRepeated(gt, hits)
  {
    if hits == [] {
      assert SetOf(gt) * {} == {};
    } else {
      var n := |hits| - 1;
      CorrectIsIntersectionIff(gt, hits[..n]);
      assert hits == hits[..n] + [hits[n]];
      IntersectionStep(gt, hits[..n], hits[n]);
      RepeatStep(gt, hits[..n], hits[n]);
    }
  }

  lemma RepeatStep(gt: seq<int>, hits: seq<Hit>, h: Hit)
    ensures NoneRepeated(gt, hits + [h]) <==> NoneRepeated(gt, hits) && !(h.id in gt && h.id in IdsOf(hits))
  {
    IdsOfMembers(hits, h.id);
    var all := hits + [h];
    if NoneRepeated(gt, all) {
      forall i, j | 0 <= i < j < |hits| && hits[i].id in gt
        ensures hits[i].id != hits[j].id
      {
        assert all[i].id != all[j].id;
      }
      forall i | 0 <= i < |hits| && hits[i].id in gt
        ensures hits[i].id != h.id
      {
        assert all[i].id != all[|hits|].id;
      }
    }
  }

  lemma {:induction false} CorrectConcat(gt: seq<int>, a: seq<Hit>, b: seq<Hit>)
    ensures Correct(gt, a + b) == Correct(gt, a) + Correct(gt, b)
  {
    if b == [] {
      assert a + b == a;
    } else {
      CorrectConcat(gt, a, b[..|b| - 1]);
      assert (a + b)[..|a + b| - 1] == a + b[..|b| - 1];
    }
  }

  lemma {:induction false} CorrectIgnoresOrder(gt: seq<int>, a: seq<Hit>, b: seq<Hit>)
    requires multiset(a) == multiset(b)
    ensures Correct(gt, a) == Correct(gt, b)
  {
    if a == [] {
      assert |multiset(b)| == 0;
    } else {
      var i := LastTakenOut(a, b);
      var n := |a| - 1;
      var x, front, back := a[n], b[..i], b[i + 1..];
      assert a == a[..n] + [x];
      CorrectIgnoresOrder(gt, a[..n], front + back);
      MovedToEnd(gt, front, x, back);
      CorrectConcat(gt, a[..n], [x]);
    }
  }

  lemma MovedToEnd(gt: seq<int>, front: seq<Hit>, x: Hit, back: seq<Hit>)
    ensures Correct(gt, front + [x] + back) == Correct(gt, front + back) + Correct(gt, [x])
  {
    CorrectConcat(gt, front, back);
    CorrectConcat(gt, front + [x], back);
    CorrectConcat(gt, front, [x]);
  }

  // Sorted search.

  predicate SortedByDis(hits: seq<Hit>) {
    forall i, j :: 0 <= i < j < |hits| ==> hits[i].dis <= hits[j].dis
  }

  /** How many entries at the front of a sorted list are below v. */
  function LowerBound(s: seq<int>, v: int): (n: nat)
    ensures n <= |s| && (forall i :: 0 <= i < n ==> s[i] < v) && (n < |s| ==> s[n] >= v)
  {
    if s == [] || s[0] >= v then 0 else 1 + LowerBound(s[1..], v)
  }

  /** The place where the search looks for an id, with an index past the end wrapped to the last entry. */
  function Probe(gt: seq<int>, id: int): int
    requires gt != []
  {
    var i := LowerBound(gt, id);
    gt[if i == |gt| then |gt| - 1 else i]
  }

  /** The probe finds an id exactly when it is there: the wrapped index never matches. */
  lemma ProbeFinds(gt: seq<int>, id: int)
    requires Sorted(gt) && gt != []
    ensures Probe(gt, id) == id <==> id in gt
  {
    var n := LowerBound(gt, id);
    if id in gt {
      var i :| 0 <= i < |gt| && gt[i] == id;
      assert n <= i;
      assert n < i ==> gt[n] <= gt[i];
    }
  }

  /** A copy of the hits sorted by distance, ties in any order. */
  method SortHits(hits: seq<Hit>) returns (sorted: seq<Hit>)
    ensures SortedByDis(sorted) && multiset(sorted) == multiset(hits)
  {
    NothingToSort();
    hide *;
    sorted := [];
    assert hits[..0] == [];
    for i := 0 to |hits|
      invariant SortedByDis(sorted) && multiset(sorted) == multiset(hits[..i])
    {
      var p := Place(sorted, hits[i]);
      InsertAt(sorted, p, hits[i]);
      OneMore(hits, i);
      sorted := sorted[..p] + [hits[i]] + sorted[p..];
    }
    assert hits[..|hits|] == hits;
  }

  lemma NothingToSort()
    ensures SortedByDis([])
  {
  }

  lemma OneMore(hits: seq<Hit>, i: nat)
    requires i < |hits|
    ensures multiset(hits[..i + 1]) == multiset(hits[..i]) + multiset{hits[i]}
  {
    assert hits[..i + 1] == hits[..i] + [hits[i]];
  }

  /** Where a hit goes: behind the last entry that is not further. */
  method Place(sorted: seq<Hit>, h: Hit) returns (p: nat)
    ensures p <= |sorted| && (p > 0 ==> sorted[p - 1].dis <= h.dis)
    ensures forall m :: p <= m < |sorted| ==> sorted[m].dis > h.dis
  {
    p := |sorted|;
    while p > 0 && sorted[p - 1].dis > h.dis
      invariant p <= |sorted| && forall m :: p <= m < |sorted| ==> sorted[m].dis > h.dis
    {
      p := p - 1;
    }
  }

  lemma InsertAt(s: seq<Hit>, p: nat, h: Hit)
    requires p <= |s| && SortedByDis(s)
    requires (p > 0 ==> s[p - 1].dis <= h.dis) && forall m :: p <= m < |s| ==> s[m].dis > h.dis
    ensures SortedByDis(s[..p] + [h] + s[p..])
    ensures multiset(s[..p] + [h] + s[p..]) == multiset(s) + multiset{h}
  {
    forall m | 0 <= m < p
      ensures s[m].dis <= h.dis
    {
      assert m < p - 1 ==> s[m].dis <= s[p - 1].dis;
    }
    InsertKeepsOrder(s, p, h);
    InsertKeepsAll(s, p, h);
  }

  lemma InsertKeepsAll(s: seq<Hit>, p: nat, h: Hit)
    requires p <= |s|
    ensures multiset(s[..p] + [h] + s[p..]) == multiset(s) + multiset{h}
  {
    assert s == s[..p] + s[p..];
  }

  lemma InsertKeepsOrder(s: seq<Hit>, p: nat, h: Hit)
    requires p <= |s| && SortedByDis(s)
    requires (forall m :: 0 <= m < p ==> s[m].dis <= h.dis) && forall m :: p <= m < |s| ==> s[m].dis > h.dis
    ensures SortedByDis(s[..p] + [h] + s[p..])
  {
    var t := s[..p] + [h] + s[p..];
    forall i, j | 0 <= i < j < |t|
      ensures t[i].dis <= t[j].dis
    {
      assert i < p ==> t[i] == s[i];
      assert i > p ==> t[i] == s[i - 1];
      assert j < p ==> t[j] == s[j];
      assert j > p ==> t[j] == s[j - 1];
    }
  }

  /** The prefix that a sorted search finds below a threshold is what filtering keeps. */
  lemma PrefixIsFilter(hits: seq<Hit>, sorted: seq<Hit>, thresh: int)
    requires SortedByDis(sorted) && multiset(sorted) == multiset(hits)
    ensures var n := LowerBound(Distances(sorted), thresh);
      n <= |sorted| && multiset(sorted[..n]) == multiset(Filter(hits, thresh, false)) && n == |Filter(hits, thresh, false)|
  {
    var dis := Distances(sorted);
    var n := LowerBound(dis, thresh);
    forall i | 0 <= i < |sorted|
      ensures i < n <==> Inside(sorted[i], thresh, false)
    {
      assert dis[i] == sorted[i].dis && (n <= i ==> dis[n] <= dis[i]);
    }
    hide *;
    var front, found := sorted[..n], Filter(hits, thresh, false);
    forall h: Hit
      ensures multiset(front)[h] == multiset(found)[h]
    {
      H.PrefixMembers(sorted, n, thresh, false, h);
      H.FilterMembers(hits, thresh, false, h);
    }
    H.SameSizes(front, found);
  }

  // The counts of a query.

  datatype Counts = Counts(ngt: nat, nres: nat, ninter: nat)

  /** Counts by filtering and intersecting. */
  function CountsAt(gt: seq<int>, hits: seq<Hit>, thresh: int): Counts {
    var kept := Filter(hits, thresh, false);
    Counts(|gt|, |kept|, Intersection(gt, kept))
  }

  lemma {:induction false} CorrectSameMembers(a: seq<int>, b: seq<int>, hits: seq<Hit>)
    requires forall x :: x in a <==> x in b
    ensures Correct(a, hits) == Correct(b, hits)
  {
    if hits != [] {
      CorrectSameMembers(a, b, hits[..|hits| - 1]);
    }
  }

  lemma {:induction false} NothingCorrect(hits: seq<Hit>)
    ensures Correct([], hits) == 0
  {
    if hits != [] {
      NothingCorrect(hits[..|hits| - 1]);
    }
  }

  lemma SortedCopy(gt: seq<int>)
    ensures Sorted(Sort(gt)) && |Sort(gt)| == |gt| && forall x :: x in Sort(gt) <==> x in gt
  {
    SortSorts(gt);
    forall x
      ensures x in Sort(gt) <==> x in gt
    {
      assert x in Sort(gt) <==> x in multiset(Sort(gt));
      assert x in gt <==> x in multiset(gt);
    }
  }

  /** One pass over the results of a query, for all thresholds: sort, find the offsets, and read the number of
      correct results off a cumulative sum. It counts correct results one by one. */
  method CountQuery(gt: seq<int>, hits: seq<Hit>, thresholds: seq<int>) returns (counts: seq<Counts>)
    ensures |counts| == |thresholds|
    ensures forall t :: 0 <= t < |thresholds| ==>
      var kept := Filter(hits, thresholds[t], false);
      counts[t] == Counts(|gt|, |kept|, Correct(gt, kept))
  {
    var gtIds := Sort(gt);
    SortedCopy(gt);
    hide Sort, Sorted;
    var sorted := SortHits(hits);
    var dis := Distances(sorted);
    var nOk := CumulativeCorrect(gt, gtIds, sorted);
    counts := [];
    for t := 0 to |thresholds|
      invariant |counts| == t
      invariant forall u :: 0 <= u < t ==>
        var kept := Filter(hits, thresholds[u], false);
        counts[u] == Counts(|gt|, |kept|, Correct(gt, kept))
    {
      PrefixIsFilter(hits, sorted, thresholds[t]);
      var n := LowerBound(dis, thresholds[t]);
      CorrectIgnoresOrder(gt, sorted[..n], Filter(hits, thresholds[t], false));
      counts := counts + [Counts(|gt|, n, nOk[n])];
    }
  }

  /** How many of the first results are correct, for every number of results. */
  method CumulativeCorrect(ghost gt: seq<int>, gtIds: seq<int>, sorted: seq<Hit>) returns (nOk: seq<nat>)
    requires Sorted(gtIds) && forall x :: x in gtIds <==> x in gt
    ensures |nOk| == |sorted| + 1
    ensures forall m :: 0 <= m <= |sorted| ==> nOk[m] == Correct(gt, sorted[..m])
  {
    nOk := [0];
    for j := 0 to |sorted|
      invariant |nOk| == j + 1
      invariant forall m :: 0 <= m <= j ==> nOk[m] == Correct(gt, sorted[..m])
    {
      assert sorted[..j + 1][..j] == sorted[..j];
      var ok := 0;
      if gtIds != [] {
        ProbeFinds(gtIds, sorted[j].id);
        if Probe(gtIds, sorted[j].id) == sorted[j].id {
          ok := 1;
        }
      }
      assert ok == 1 <==> sorted[j].id in gt;
      nOk := nOk + [nOk[j] + ok];
    }
  }

  /** At a threshold the one-pass counts are those of filtering and intersecting exactly when no
      ground-truth id is repeated among the results below it. */
  lemma OnePassCountsIff(gt: seq<int>, hits: seq<Hit>, thresh: int)
    ensures var kept := Filter(hits, thresh, false);
      Counts(|gt|, |kept|, Correct(gt, kept)) == CountsAt(gt, hits, thresh) <==> NoneRepeated(gt, kept)
  {
    CorrectIsIntersectionIff(gt, Filter(hits, thresh, false));
  }

  // From counts to precision and recall.

  datatype Mode = Overall | Average

  function SumOf(xs: seq<nat>): nat {
    if xs == [] then 0 else SumOf(xs[..|xs| - 1]) + xs[|xs| - 1]
  }

  function Ratio(a: nat, b: nat): real
    requires b > 0
  {
    a as real / b as real
  }

  /** Precision of one count; without results it is one. */
  function Precision(nres: nat, ninter: nat): real {
    if nres > 0 then Ratio(ninter, nres) else 1.0
  }

  /** Recall of one count; without ground truth it is one for no results and else zero. */
  function Recall(ngt: nat, nres: nat, ninter: nat): real {
    if ngt > 0 then Ratio(ninter, ngt) else if nres == 0 then 1.0 else 0.0
  }

  function RealSum(xs: seq<real>): real {
    if xs == [] then 0.0 else RealSum(xs[..|xs| - 1]) + xs[|xs| - 1]
  }

  function Mean(xs: seq<real>): real
    requires xs != []
  {
    RealSum(xs) / |xs| as real
  }

  function Ngts(counts: seq<Counts>): seq<nat> { seq(|counts|, i requires 0 <= i < |counts| => counts[i].ngt) }

  function Nress(counts: seq<Counts>): seq<nat> { seq(|counts|, i requires 0 <= i < |counts| => counts[i].nres) }

  function Ninters(counts: seq<Counts>): seq<nat> { seq(|counts|, i requires 0 <= i < |counts| => counts[i].ninter) }

  function Precisions(counts: seq<Counts>): seq<real> {
    seq(|counts|, i requires 0 <= i < |counts| => Precision(counts[i].nres, counts[i].ninter))
  }

  function Recalls(counts: seq<Counts>): seq<real> {
    seq(|counts|, i requires 0 <= i < |counts| => Recall(counts[i].ngt, counts[i].nres, counts[i].ninter))
  }

  /** Precision and recall over all queries together, or averaged over the queries. */
  function PrOf(counts: seq<Counts>, mode: Mode): (real, real)
    requires mode == Average ==> counts != []
  {
    match mode
    case Overall =>
      var ngt, nres, ninter := SumOf(Ngts(counts)), SumOf(Nress(counts)), SumOf(Ninters(counts));
      (Precision(nres, ninter), Recall(ngt, nres, ninter))
    case Average =>
      (Mean(Precisions(counts)), Mean(Recalls(counts)))
  }

  /** The averages by masking: counts that would be divided by are overwritten with one, in place. Refused
      when a query without results has correct ones. */
  method AverageInPlace(ngt: array<nat>, nres: array<nat>, ninter: array<nat>)
    returns (ok: bool, precision: real, recall: real)
    requires 0 < ngt.Length == nres.Length == ninter.Length && ngt != nres && nres != ninter && ngt != ninter
    modifies ngt, nres, ninter
    ensures ok <==> forall i :: 0 <= i < nres.Length ==> old(nres[i]) == 0 ==> old(ninter[i]) == 0
    ensures ok ==>
      var counts := old(seq(ngt.Length, i requires 0 <= i < ngt.Length reads ngt, nres, ninter =>
        Counts(ngt[i], nres[i], ninter[i])));
      counts != [] && (precision, recall) == PrOf(counts, Average)
  {
    ghost var counts := seq(ngt.Length, i requires 0 <= i < ngt.Length reads ngt, nres, ninter =>
      Counts(ngt[i], nres[i], ninter[i]));
    ghost var ps, rs := Precisions(counts), Recalls(counts);
    ok, precision, recall := true, 0.0, 0.0;
    var recalls: seq<real> := [];
    for i := 0 to ngt.Length
      invariant nres[..] == old(nres[..]) && ninter[..] == old(ninter[..])
      invariant forall m :: i <= m < ngt.Length ==> ngt[m] == counts[m].ngt
      invariant recalls == rs[..i]
    {
      var masked := ngt[i] == 0;
      if masked {
        ngt[i] := 1;
      }
      assert nres[i] == counts[i].nres && ninter[i] == counts[i].ninter;
      recalls := recalls + [if masked then (if nres[i] == 0 then 1.0 else 0.0) else Ratio(ninter[i], ngt[i])];
    }
    assert forall m :: 0 <= m < nres.Length ==> nres[m] == counts[m].nres && ninter[m] == counts[m].ninter;
    var precisions: seq<real> := [];
    for i := 0 to nres.Length
      invariant forall m :: i <= m < nres.Length ==> nres[m] == counts[m].nres && ninter[m] == counts[m].ninter
      invariant forall m :: 0 <= m < i ==> counts[m].nres == 0 ==> counts[m].ninter == 0
      invariant precisions == ps[..i]
    {
      if nres[i] == 0 {
        if ninter[i] != 0 {
          return false, 0.0, 0.0;
        }
        ninter[i] := 1;
        nres[i] := 1;
      }
      precisions := precisions + [Ratio(ninter[i], nres[i])];
    }
    assert precisions == ps && recalls == rs;
    return true, Mean(precisions), Mean(recalls);
  }

  method CountsToPr(counts: seq<Counts>, mode: Mode) returns (ok: bool, pr: (real, real))
    requires mode == Average ==> counts != []
    ensures ok <==> mode == Overall || forall i :: 0 <= i < |counts| ==> counts[i].nres == 0 ==> counts[i].ninter == 0
    ensures ok ==> pr == PrOf(counts, mode)
  {
    match mode {
      case Overall => return true, PrOf(counts, Overall);
      case Average =>
        var ngt := new nat[|counts|](i requires 0 <= i < |counts| => counts[i].ngt);
        var nres := new nat[|counts|](i requires 0 <= i < |counts| => counts[i].nres);
        var ninter := new nat[|counts|](i requires 0 <= i < |counts| => counts[i].ninter);
        ghost var held := seq(ngt.Length, i requires 0 <= i < ngt.Length reads ngt, nres, ninter =>
          Counts(ngt[i], nres[i], ninter[i]));
        assert held == counts;
        var p, r;
        ok, p, r := AverageInPlace(ngt, nres, ninter);
        pr := (p, r);
    }
  }

  /** The counts of all queries by filtering and intersecting. */
  function AllCounts(gts: seq<seq<int>>, results: seq<seq<Hit>>, thresh: int): seq<Counts>
    requires |gts| == |results|
  {
    seq(|gts|, q requires 0 <= q < |gts| => CountsAt(gts[q], results[q], thresh))
  }

  /** The counts of all queries by counting correct results one by one. */
  function OnePassCounts(gts: seq<seq<int>>, results: seq<seq<Hit>>, thresh: int): seq<Counts>
    requires |gts| == |results|
  {
    seq(|gts|, q requires 0 <= q < |gts| =>
      var kept := Filter(results[q], thresh, false);
      Counts(|gts[q]|, |kept|, Correct(gts[q], kept)))
  }

  /** No query has a ground-truth id twice among its results below the threshold. */
  ghost predicate Distinct(gts: seq<seq<int>>, results: seq<seq<Hit>>, thresh: int)
    requires |gts| == |results|
  {
    forall q :: 0 <= q < |gts| ==> NoneRepeated(gts[q], Filter(results[q], thresh, false))
  }

  lemma OnePassIsFilterAndIntersect(gts: seq<seq<int>>, results: seq<seq<Hit>>, thresh: int)
    requires |gts| == |results|
    ensures OnePassCounts(gts, results, thresh) == AllCounts(gts, results, thresh) <==> Distinct(gts, results, thresh)
  {
    hide NoneRepeated, Correct, Filter;
    var a, b := OnePassCounts(gts, results, thresh), AllCounts(gts, results, thresh);
    forall q | 0 <= q < |gts|
      ensures a[q] == b[q] <==> NoneRepeated(gts[q], Filter(results[q], thresh, false))
    {
      OnePassCountsIff(gts[q], results[q], thresh);
    }
    if a != b {
      assert exists q :: 0 <= q < |gts| && a[q] != b[q];
    }
  }

  lemma NothingKeptNothingCorrect(gt: seq<int>)
    ensures Correct(gt, []) == 0
  {
  }

  /** The same queries with the same results, of which at least as many count as correct; more only where
      there are results. */
  ghost predicate NoFewer(a: seq<Counts>, b: seq<Counts>) {
    && |a| == |b|
    && forall q :: 0 <= q < |a| ==>
      && a[q].ngt == b[q].ngt && a[q].nres == b[q].nres && a[q].ninter >= b[q].ninter
      && (a[q].ninter > b[q].ninter ==> a[q].nres > 0)
  }

  lemma RatioGrows(x: nat, y: nat, n: nat)
    requires n > 0 && x >= y
    ensures Ratio(x, n) >= Ratio(y, n) && (Ratio(x, n) == Ratio(y, n) <==> x == y)
  {
    var r, s := Ratio(x, n), Ratio(y, n);
    assert r * n as real == x as real && s * n as real == y as real;
    assert (r - s) * n as real == (x - y) as real;
    assert x > y ==> r - s > 0.0;
  }

  lemma PrecisionGrows(nres: nat, x: nat, y: nat)
    requires x >= y && (x > y ==> nres > 0)
    ensures Precision(nres, x) >= Precision(nres, y) && (Precision(nres, x) == Precision(nres, y) <==> x == y)
  {
    hide Ratio;
    if nres > 0 {
      RatioGrows(x, y, nres);
    }
  }

  lemma RecallGrows(ngt: nat, nres: nat, x: nat, y: nat)
    requires x >= y
    ensures Recall(ngt, nres, x) >= Recall(ngt, nres, y)
  {
    hide Ratio;
    if ngt > 0 {
      RatioGrows(x, y, ngt);
    }
  }

  lemma {:induction false} SumGrows(xs: seq<nat>, ys: seq<nat>)
    requires |xs| == |ys| && forall i :: 0 <= i < |xs| ==> xs[i] >= ys[i]
    ensures SumOf(xs) >= SumOf(ys) && (SumOf(xs) == SumOf(ys) <==> xs == ys)
  {
    if xs != [] {
      var n := |xs| - 1;
      SumGrows(xs[..n], ys[..n]);
      assert xs == xs[..n] + [xs[n]] && ys == ys[..n] + [ys[n]];
    }
  }

  lemma {:induction false} RealSumGrows(xs: seq<real>, ys: seq<real>)
    requires |xs| == |ys| && forall i :: 0 <= i < |xs| ==> xs[i] >= ys[i]
    ensures RealSum(xs) >= RealSum(ys) && (RealSum(xs) == RealSum(ys) <==> xs == ys)
  {
    if xs != [] {
      var n := |xs| - 1;
      RealSumGrows(xs[..n], ys[..n]);
      assert xs == xs[..n] + [xs[n]] && ys == ys[..n] + [ys[n]];
    }
  }

  lemma MeanGrows(xs: seq<real>, ys: seq<real>)
    requires |xs| == |ys| && xs != [] && forall i :: 0 <= i < |xs| ==> xs[i] >= ys[i]
    ensures Mean(xs) >= Mean(ys) && (Mean(xs) == Mean(ys) <==> xs == ys)
  {
    RealSumGrows(xs, ys);
    hide RealSum;
    QuotientGrows(RealSum(xs), RealSum(ys), |xs| as real);
  }

  lemma QuotientGrows(x: real, y: real, n: real)
    requires n > 0.0 && x >= y
    ensures x / n >= y / n && (x / n == y / n <==> x == y)
  {
    assert x / n - y / n == (x - y) / n;
    QuotientSign(x - y, n);
  }

  lemma QuotientSign(x: real, n: real)
    requires n > 0.0 && x >= 0.0
    ensures x / n >= 0.0 && (x / n == 0.0 <==> x == 0.0)
  {
    assert (x / n) * n == x;
  }

  /** A correct result more among those reported is seen in the precision, in both modes. */
  lemma PrOfTellsApart(a: seq<Counts>, b: seq<Counts>, mode: Mode)
    requires NoFewer(a, b) && (mode == Average ==> a != [])
    ensures PrOf(a, mode).0 >= PrOf(b, mode).0 && PrOf(a, mode).1 >= PrOf(b, mode).1
    ensures PrOf(a, mode).0 == PrOf(b, mode).0 <==> a == b
  {
    hide *;
    match mode {
      case Overall => OverallTellsApart(a, b);
      case Average => AverageTellsApart(a, b);
    }
  }

  lemma {:induction false} SumIsLarge(xs: seq<nat>, i: nat)
    requires i < |xs|
    ensures SumOf(xs) >= xs[i]
  {
    if i < |xs| - 1 {
      SumIsLarge(xs[..|xs| - 1], i);
    }
  }

  lemma SameInters(a: seq<Counts>, b: seq<Counts>)
    requires NoFewer(a, b) && Ninters(a) == Ninters(b)
    ensures a == b
  {
    forall q | 0 <= q < |a|
      ensures a[q] == b[q]
    {
      assert Ninters(a)[q] == Ninters(b)[q];
    }
  }

  lemma OverallTellsApart(a: seq<Counts>, b: seq<Counts>)
    requires NoFewer(a, b)
    ensures PrOf(a, Overall).0 >= PrOf(b, Overall).0 && PrOf(a, Overall).1 >= PrOf(b, Overall).1
    ensures PrOf(a, Overall).0 == PrOf(b, Overall).0 <==> a == b
  {
    assert Ngts(a) == Ngts(b) && Nress(a) == Nress(b);
    var ngt, nres := SumOf(Ngts(a)), SumOf(Nress(a));
    var x, y := SumOf(Ninters(a)), SumOf(Ninters(b));
    SumGrows(Ninters(a), Ninters(b));
    if a != b {
      var q :| 0 <= q < |a| && a[q] != b[q];
      SumIsLarge(Nress(a), q);
      assert nres > 0;
    }
    assert PrOf(a, Overall) == (Precision(nres, x), Recall(ngt, nres, x));
    assert PrOf(b, Overall) == (Precision(nres, y), Recall(ngt, nres, y));
    if Ninters(a) == Ninters(b) {
      SameInters(a, b);
    }
    hide *;
    PrecisionGrows(nres, x, y);
    RecallGrows(ngt, nres, x, y);
  }

  lemma AverageTellsApart(a: seq<Counts>, b: seq<Counts>)
    requires NoFewer(a, b) && a != []
    ensures PrOf(a, Average).0 >= PrOf(b, Average).0 && PrOf(a, Average).1 >= PrOf(b, Average).1
    ensures PrOf(a, Average).0 == PrOf(b, Average).0 <==> a == b
  {
    assert PrOf(a, Average) == (Mean(Precisions(a)), Mean(Recalls(a)));
    assert PrOf(b, Average) == (Mean(Precisions(b)), Mean(Recalls(b)));
    hide Mean, Precision, Recall, PrOf;
    forall q | 0 <= q < |a|
      ensures Precisions(a)[q] >= Precisions(b)[q] && Recalls(a)[q] >= Recalls(b)[q]
      ensures Precisions(a)[q] == Precisions(b)[q] <==> a[q] == b[q]
    {
      PrecisionGrows(a[q].nres, a[q].ninter, b[q].ninter);
      RecallGrows(a[q].ngt, a[q].nres, a[q].ninter, b[q].ninter);
    }
    assert Precisions(a) == Precisions(b) ==> a == b;
    MeanGrows(Precisions(a), Precisions(b));
    MeanGrows(Recalls(a), Recalls(b));
  }

  lemma OnePassNoFewer(gts: seq<seq<int>>, results: seq<seq<Hit>>, thresh: int)
    requires |gts| == |results|
    ensures NoFewer(OnePassCounts(gts, results, thresh), AllCounts(gts, results, thresh))
  {
    hide Correct, Filter, Intersection;
    forall q | 0 <= q < |gts|
      ensures var kept := Filter(results[q], thresh, false);
        Correct(gts[q], kept) >= Intersection(gts[q], kept) && (|kept| == 0 ==> Correct(gts[q], kept) == 0)
    {
      var kept := Filter(results[q], thresh, false);
      CorrectIsIntersectionIff(gts[q], kept);
      if kept == [] {
        NothingKeptNothingCorrect(gts[q]);
      }
    }
  }

  /** Both modes give the precision of filtering and intersecting exactly when no ground-truth id is repeated
      among the results of a query, and a larger one otherwise. */
  lemma OnePassPrIff(gts: seq<seq<int>>, results: seq<seq<Hit>>, thresh: int, mode: Mode)
    requires |gts| == |results| && (mode == Average ==> gts != [])
    ensures
      var once, all := PrOf(OnePassCounts(gts, results, thresh), mode), PrOf(AllCounts(gts, results, thresh), mode);
      && once.0 >= all.0 && once.1 >= all.1 && (once == all <==> Distinct(gts, results, thresh))
      && (once.0 == all.0 <==> Distinct(gts, results, thresh))
  {
    assert |OnePassCounts(gts, results, thresh)| == |gts|;
    hide *;
    OnePassNoFewer(gts, results, thresh);
    PrOfTellsApart(OnePassCounts(gts, results, thresh), AllCounts(gts, results, thresh), mode);
    OnePassIsFilterAndIntersect(gts, results, thresh);
  }

  lemma Shapes(gts: seq<seq<int>>, results: seq<seq<Hit>>, thresh: int)
    requires |gts| == |results|
    ensures |OnePassCounts(gts, results, thresh)| == |AllCounts(gts, results, thresh)| == |gts|
    ensures forall q :: 0 <= q < |gts| ==>
      var kept := Filter(results[q], thresh, false);
      OnePassCounts(gts, results, thresh)[q] == Counts(|gts[q]|, |kept|, Correct(gts[q], kept))
  {
  }

  /** The counts of one threshold, for all queries. */
  method Column(counts: seq<seq<Counts>>, t: nat) returns (column: seq<Counts>)
    requires forall q :: 0 <= q < |counts| ==> t < |counts[q]|
    ensures |column| == |counts| && forall q :: 0 <= q < |counts| ==> column[q] == counts[q][t]
  {
    column := [];
    for q := 0 to |counts|
      invariant |column| == q && forall p :: 0 <= p < q ==> column[p] == counts[p][t]
    {
      column := column + [counts[q][t]];
    }
  }

  lemma NoneWithoutResults(gts: seq<seq<int>>, results: seq<seq<Hit>>, thresh: int, counts: seq<Counts>)
    requires |gts| == |results| && counts == OnePassCounts(gts, results, thresh)
    ensures forall q :: 0 <= q < |counts| ==> counts[q].nres == 0 ==> counts[q].ninter == 0
  {
    Shapes(gts, results, thresh);
    hide Filter, Correct;
    forall q | 0 <= q < |counts| && counts[q].nres == 0
      ensures counts[q].ninter == 0
    {
      NothingKeptNothingCorrect(gts[q]);
      assert Filter(results[q], thresh, false) == [];
    }
  }

  /** Precision and recall for every threshold, in one pass over the results of each query. Both modes give
      what filtering and intersecting at each threshold gives exactly when no ground-truth id is repeated
      among the results of a query; otherwise they report a larger precision. */
  method MultipleThresholds(gts: seq<seq<int>>, results: seq<seq<Hit>>, thresholds: seq<int>, mode: Mode)
    returns (prs: seq<(real, real)>)
    requires |gts| == |results| && (mode == Average ==> gts != [])
    ensures |prs| == |thresholds|
    ensures forall t :: 0 <= t < |thresholds| ==> prs[t] == PrOf(OnePassCounts(gts, results, thresholds[t]), mode)
    ensures forall t :: 0 <= t < |thresholds| ==>
      var exact := PrOf(AllCounts(gts, results, thresholds[t]), mode);
      && (prs[t] == exact <==> Distinct(gts, results, thresholds[t]))
      && (!Distinct(gts, results, thresholds[t]) ==> prs[t].0 > exact.0)
  {
    hide *;
    var counts: seq<seq<Counts>> := [];
    for q := 0 to |gts|
      invariant |counts| == q
      invariant forall p :: 0 <= p < q ==> |counts[p]| == |thresholds|
      invariant forall p, t :: 0 <= p < q && 0 <= t < |thresholds| ==>
        var kept := Filter(results[p], thresholds[t], false);
        |counts[p]| == |thresholds| && counts[p][t] == Counts(|gts[p]|, |kept|, Correct(gts[p], kept))
    {
      var c := CountQuery(gts[q], results[q], thresholds);
      counts := counts + [c];
    }
    prs := [];
    for t := 0 to |thresholds|
      invariant |prs| == t
      invariant forall u :: 0 <= u < t ==>
        (mode == Average ==> OnePassCounts(gts, results, thresholds[u]) != []) &&
        prs[u] == PrOf(OnePassCounts(gts, results, thresholds[u]), mode)
    {
      var column := Column(counts, t);
      Shapes(gts, results, thresholds[t]);
      assert column == OnePassCounts(gts, results, thresholds[t]);
      NoneWithoutResults(gts, results, thresholds[t], column);
      var ok, pr := CountsToPr(column, mode);
      prs := prs + [pr];
    }
    forall t | 0 <= t < |thresholds|
      ensures (mode == Average ==> AllCounts(gts, results, thresholds[t]) != [])
      ensures var exact := PrOf(AllCounts(gts, results, thresholds[t]), mode);
        && (prs[t] == exact <==> Distinct(gts, results, thresholds[t]))
        && (!Distinct(gts, results, thresholds[t]) ==> prs[t].0 > exact.0)
    {
      Shapes(gts, results, thresholds[t]);
      OnePassPrIff(gts, results, thresholds[t], mode);
    }
  }
}
