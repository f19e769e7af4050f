/**
 Range search with a radius that adapts to a result budget (contrib/exhaustive_search.py,
 range_search_max_results). What the index holds for a query is given as the sequence of its hits.
 */
module AdaptiveRange {

  import opened Rearrangements

  datatype Hit = Hit(dis: int, id: int)

  /** Inside the radius: above it when similarities are kept, else below it. */
  predicate Inside(h: Hit, radius: int, keepMax: bool) {
    if keepMax then h.dis > radius else h.dis < radius
  }

  /** What a range search reports for a query: the hits inside the radius, in order. */
  function Filter(hits: seq<Hit>, radius: int, keepMax: bool): (r: seq<Hit>)
    ensures |r| <= |hits|
  {
    if hits == [] then []
    else
      var n := |hits| - 1;
      Filter(hits[..n], radius, keepMax) + if Inside(hits[n], radius, keepMax) then [hits[n]] else []
  }

  /** A radius that lets no more in. */
  predicate AtLeastAsTight(r: int, s: int, keepMax: bool) {
    if keepMax then r >= s else r <= s
  }

  lemma {:induction false} FilterConcat(a: seq<Hit>, b: seq<Hit>, radius: int, keepMax: bool)
    ensures Filter(a + b, radius, keepMax) == Filter(a, radius, keepMax) + Filter(b, radius, keepMax)
  {
    if b == [] {
      assert a + b == a;
    } else {
      var n := |b| - 1;
      FilterConcat(a, b[..n], radius, keepMax);
      assert (a + b)[..|a + b| - 1] == a + b[..n];
      var last := if Inside(b[n], radius, keepMax) then [b[n]] else [];
      assert Filter(a + b, radius, keepMax) == Filter(a + b[..n], radius, keepMax) + last;
      assert Filter(b, radius, keepMax) == Filter(b[..n], radius, keepMax) + last;
      hide *;
      assert Filter(a, radius, keepMax) + (Filter(b[..n], radius, keepMax) + last)
          == (Filter(a, radius, keepMax) + Filter(b[..n], radius, keepMax)) + last;
      assert Filter(a + b, radius, keepMax) == Filter(a, radius, keepMax) + Filter(b, radius, keepMax);
    }
  }

  /** Filtering again with a tighter radius is filtering with the tighter radius. */
  lemma {:induction false} FilterTwice(hits: seq<Hit>, r: int, s: int, keepMax: bool)
    requires AtLeastAsTight(s, r, keepMax)
    ensures Filter(Filter(hits, r, keepMax), s, keepMax) == Filter(hits, s, keepMax)
  {
    if hits != [] {
      var n := |hits| - 1;
      FilterTwice(hits[..n], r, s, keepMax);
      var last := if Inside(hits[n], r, keepMax) then [hits[n]] else [];
      FilterConcat(Filter(hits[..n], r, keepMax), last, s, keepMax);
      assert [hits[n]][..0] == [];
    }
  }

  /** The hits of several queries, one after the other, and how many each has. */
  datatype Block = Block(nres: seq<nat>, hits: seq<Hit>)

  /** A plain range search over these queries. */
  function Range(queries: seq<seq<Hit>>, radius: int, keepMax: bool): (b: Block)
    ensures |b.nres| == |queries|
  {
    if queries == [] then Block([], [])
    else
      var n := |queries| - 1;
      var front, last := Range(queries[..n], radius, keepMax), Filter(queries[n], radius, keepMax);
      Block(front.nres + [|last|], front.hits + last)
  }

  lemma {:induction false} RangeConcat(a: seq<seq<Hit>>, b: seq<seq<Hit>>, radius: int, keepMax: bool)
    ensures Range(a + b, radius, keepMax) ==
      Block(Range(a, radius, keepMax).nres + Range(b, radius, keepMax).nres,
            Range(a, radius, keepMax).hits + Range(b, radius, keepMax).hits)
  {
    if b == [] {
      assert a + b == a;
    } else {
      var n := |b| - 1;
      RangeConcat(a, b[..n], radius, keepMax);
      assert (a + b)[..|a + b| - 1] == a + b[..n];
    }
  }

  /** All hits of a block come from one filter over all its queries. */
  function Flat(queries: seq<seq<Hit>>): seq<Hit> {
    if queries == [] then [] else Flat(queries[..|queries| - 1]) + queries[|queries| - 1]
  }

  lemma {:induction false} RangeIsFilter(queries: seq<seq<Hit>>, radius: int, keepMax: bool)
    ensures Range(queries, radius, keepMax).hits == Filter(Flat(queries), radius, keepMax)
  {
    if queries != [] {
      var n := |queries| - 1;
      RangeIsFilter(queries[..n], radius, keepMax);
      FilterConcat(Flat(queries[..n]), queries[n], radius, keepMax);
    }
  }

  // Choosing the radius.

  function Insert(s: seq<int>, x: int): seq<int> {
    if s == [] || s[|s| - 1] <= x then s + [x] else Insert(s[..|s| - 1], x) + [s[|s| - 1]]
  }

  function Sort(s: seq<int>): seq<int> {
    if s == [] then [] else Insert(Sort(s[..|s| - 1]), s[|s| - 1])
  }

  predicate Sorted(s: seq<int>) {
    forall i, j :: 0 <= i < j < |s| ==> s[i] <= s[j]
  }

  predicate UpTo(s: seq<int>, top: int) {
    forall i :: 0 <= i < |s| ==> s[i] <= top
  }

  lemma SortedSnoc(s: seq<int>, x: int)
    requires s == [] || s[|s| - 1] <= x
    ensures Sorted(s) ==> Sorted(s + [x])
    ensures UpTo(s, x) ==> UpTo(s + [x], x)
  {
  }

  lemma SortedFront(s: seq<int>)
    requires Sorted(s) && s != []
    ensures Sorted(s[..|s| - 1]) && UpTo(s[..|s| - 1], s[|s| - 1])
  {
  }

  lemma UpToSnoc(s: seq<int>, x: int, low: int, top: int)
    requires UpTo(s, low) && low <= top && x <= top
    ensures UpTo(s + [x], top)
    ensures s == [] || s[|s| - 1] <= low
  {
  }

  lemma {:induction false} InsertSorts(s: seq<int>, x: int, top: int)
    requires Sorted(s) && UpTo(s, top) && x <= top
    ensures Sorted(Insert(s, x)) && |Insert(s, x)| == |s| + 1 && UpTo(Insert(s, x), top)
    ensures multiset(Insert(s, x)) == multiset(s) + multiset{x}
  {
    assert s != [] ==> s[|s| - 1] <= top;
    hide Sorted, UpTo;
    if s == [] || s[|s| - 1] <= x {
      SortedSnoc(s, x);
      UpToSnoc(s, x, top, top);
    } else {
      var n := |s| - 1;
      SortedFront(s);
      InsertSorts(s[..n], x, s[n]);
      assert s == s[..n] + [s[n]];
      UpToSnoc(Insert(s[..n], x), s[n], s[n], top);
      SortedSnoc(Insert(s[..n], x), s[n]);
    }
  }

  function TopOf(s: seq<int>, x: int): int {
    if s == [] || s[|s| - 1] <= x then x else s[|s| - 1]
  }

  lemma TopIsTop(s: seq<int>, x: int)
    requires Sorted(s)
    ensures UpTo(s, TopOf(s, x)) && x <= TopOf(s, x)
  {
  }

  lemma {:induction false} SortSorts(s: seq<int>)
    ensures Sorted(Sort(s)) && |Sort(s)| == |s| && multiset(Sort(s)) == multiset(s)
  {
    if s != [] {
      var n := |s| - 1;
      var front, x := s[..n], s[n];
      var t := Sort(front);
      assert Sort(s) == Insert(t, x);
      hide *;
      SortSorts(front);
      TopIsTop(t, x);
      InsertSorts(t, x, TopOf(t, x));
      assert s == front + [x];
      assert multiset(front + [x]) == multiset(front) + multiset{x};
      assert Sorted(Sort(s)) && |Sort(s)| == |s| && multiset(Sort(s)) == multiset(s);
    }
  }

  function Distances(hits: seq<Hit>): (d: seq<int>)
    ensures |d| == |hits| && forall i :: 0 <= i < |d| ==> d[i] == hits[i].dis
  {
    seq(|hits|, i requires 0 <= i < |hits| => hits[i].dis)
  }

  /** How many distances are inside the radius. */
  function CountInside(dis: seq<int>, radius: int, keepMax: bool): nat {
    if dis == [] then 0
    else
      var d := dis[|dis| - 1];
      CountInside(dis[..|dis| - 1], radius, keepMax) + if Inside(Hit(d, 0), radius, keepMax) then 1 else 0
  }

  lemma {:induction false} FilterCounts(hits: seq<Hit>, radius: int, keepMax: bool)
    ensures |Filter(hits, radius, keepMax)| == CountInside(Distances(hits), radius, keepMax)
  {
    if hits != [] {
      var n := |hits| - 1;
      FilterCounts(hits[..n], radius, keepMax);
      assert Distances(hits)[..n] == Distances(hits[..n]);
    }
  }

  lemma {:induction false} CountConcat(a: seq<int>, b: seq<int>, radius: int, keepMax: bool)
    ensures CountInside(a + b, radius, keepMax) == CountInside(a, radius, keepMax) + CountInside(b, radius, keepMax)
  {
    if b == [] {
      assert a + b == a;
    } else {
      CountConcat(a, b[..|b| - 1], radius, keepMax);
      assert (a + b)[..|a + b| - 1] == a + b[..|b| - 1];
    }
  }

  lemma {:induction false} CountIgnoresOrder(a: seq<int>, b: seq<int>, radius: int, keepMax: bool)
    requires multiset(a) == multiset(b)
    ensures CountInside(a, radius, keepMax) == CountInside(b, radius, keepMax)
  {
    if a == [] {
      assert |multiset(b)| == 0;
    } else {
      var i := LastTakenOut(a, b);
      var n := |a| - 1;
      var x, front, back := a[n], b[..i], b[i + 1..];
      assert a == a[..n] + [x];
      CountIgnoresOrder(a[..n], front + back, radius, keepMax);
      CountConcat(front, back, radius, keepMax);
      CountConcat(front + [x], back, radius, keepMax);
      CountConcat(front, [x], radius, keepMax);
      CountConcat(a[..n], [x], radius, keepMax);
    }
  }

  lemma {:induction false} AllCounted(dis: seq<int>, radius: int, keepMax: bool)
    ensures CountInside(dis, radius, keepMax) <= |dis|
    ensures (forall i :: 0 <= i < |dis| ==> Inside(Hit(dis[i], 0), radius, keepMax)) ==>
      CountInside(dis, radius, keepMax) == |dis|
    ensures (forall i :: 0 <= i < |dis| ==> !Inside(Hit(dis[i], 0), radius, keepMax)) ==>
      CountInside(dis, radius, keepMax) == 0
  {
    if dis != [] {
      AllCounted(dis[..|dis| - 1], radius, keepMax);
    }
  }

  /** The distance that leaves `target` others closer: what partitioning the distances around it finds. */
  function Cut(dis: seq<int>, target: nat, keepMax: bool): int
    requires target < |dis|
  {
    SortSorts(dis);
    if keepMax then Sort(dis)[|dis| - 1 - target] else Sort(dis)[target]
  }

  /** The cut keeps at most the target, and every looser radius keeps more. */
  lemma CutIsLoosest(dis: seq<int>, target: nat, keepMax: bool, looser: int)
    requires target < |dis|
    ensures CountInside(dis, Cut(dis, target, keepMax), keepMax) <= target
    ensures !AtLeastAsTight(looser, Cut(dis, target, keepMax), keepMax) ==>
      CountInside(dis, looser, keepMax) > target
  {
    SortSorts(dis);
    var s, r := Sort(dis), Cut(dis, target, keepMax);
    var at := if keepMax then |dis| - 1 - target else target;
    assert s[at] == r;
    hide Sort, Cut;
    CountIgnoresOrder(dis, s, r, keepMax);
    CountIgnoresOrder(dis, s, looser, keepMax);
    hide CountInside;
    if keepMax {
      CutFromAbove(s, at, looser);
    } else {
      CutFromBelow(s, at, looser);
    }
  }

  lemma SplitCount(s: seq<int>, at: nat, radius: int, keepMax: bool)
    requires at <= |s|
    ensures CountInside(s, radius, keepMax) == CountInside(s[..at], radius, keepMax) + CountInside(s[at..], radius, keepMax)
  {
    assert s[..at] + s[at..] == s;
    CountConcat(s[..at], s[at..], radius, keepMax);
  }

  lemma CutFromBelow(s: seq<int>, at: nat, looser: int)
    requires Sorted(s) && at < |s|
    ensures CountInside(s, s[at], false) <= at
    ensures looser > s[at] ==> CountInside(s, looser, false) > at
  {
    hide CountInside;
    SplitCount(s, at, s[at], false);
    AllCounted(s[..at], s[at], false);
    AllCounted(s[at..], s[at], false);
    SplitCount(s, at + 1, looser, false);
    AllCounted(s[..at + 1], looser, false);
  }

  lemma CutFromAbove(s: seq<int>, at: nat, looser: int)
    requires Sorted(s) && at < |s|
    ensures CountInside(s, s[at], true) <= |s| - 1 - at
    ensures looser < s[at] ==> CountInside(s, looser, true) > |s| - 1 - at
  {
    hide CountInside;
    SplitCount(s, at + 1, s[at], true);
    AllCounted(s[..at + 1], s[at], true);
    AllCounted(s[at + 1..], s[at], true);
    SplitCount(s, at, looser, true);
    AllCounted(s[at..], looser, true);
  }

  // The batches collected so far.

  /** The queries of all batches, in order. */
  function AllQueries(batches: seq<seq<seq<Hit>>>): seq<seq<Hit>> {
    if batches == [] then [] else AllQueries(batches[..|batches| - 1]) + batches[|batches| - 1]
  }

  /** The blocks one after the other. */
  function Stacked(blocks: seq<Block>): Block {
    if blocks == [] then Block([], [])
    else
      var front, last := Stacked(blocks[..|blocks| - 1]), blocks[|blocks| - 1];
      Block(front.nres + last.nres, front.hits + last.hits)
  }

  ghost predicate Plain(blocks: seq<Block>, batches: seq<seq<seq<Hit>>>, radius: int, keepMax: bool) {
    |blocks| == |batches| && forall i :: 0 <= i < |blocks| ==> blocks[i] == Range(batches[i], radius, keepMax)
  }

  /** Stacked, the batches are a plain range search over all queries. */
  lemma {:induction false} StackedIsPlain(blocks: seq<Block>, batches: seq<seq<seq<Hit>>>, radius: int, keepMax: bool)
    requires Plain(blocks, batches, radius, keepMax)
    ensures Stacked(blocks) == Range(AllQueries(batches), radius, keepMax)
  {
    if blocks != [] {
      var n := |blocks| - 1;
      StackedIsPlain(blocks[..n], batches[..n], radius, keepMax);
      RangeConcat(AllQueries(batches[..n]), batches[n], radius, keepMax);
    }
  }

  lemma StackedSnoc(blocks: seq<Block>, b: Block)
    ensures Stacked(blocks + [b]) == Block(Stacked(blocks).nres + b.nres, Stacked(blocks).hits + b.hits)
  {
    assert (blocks + [b])[..|blocks|] == blocks;
  }

  lemma RangeSnoc(queries: seq<seq<Hit>>, i: nat, radius: int, keepMax: bool)
    requires i < |queries|
    ensures var front, last := Range(queries[..i], radius, keepMax), Filter(queries[i], radius, keepMax);
      Range(queries[..i + 1], radius, keepMax) == Block(front.nres + [|last|], front.hits + last)
  {
    assert queries[..i + 1][..i] == queries[..i];
  }

  /** Where the hits of a query are in its block. */
  lemma {:induction false} HitsOfQuery(queries: seq<seq<Hit>>, i: nat, radius: int, keepMax: bool)
    requires i < |queries|
    ensures var b, o := Range(queries, radius, keepMax), |Range(queries[..i], radius, keepMax).hits|;
      && b.nres[i] == |Filter(queries[i], radius, keepMax)|
      && o + b.nres[i] <= |b.hits| && b.hits[o..o + b.nres[i]] == Filter(queries[i], radius, keepMax)
  {
    var n := |queries| - 1;
    if i < n {
      HitsOfQuery(queries[..n], i, radius, keepMax);
      assert queries[..n][..i] == queries[..i];
    }
  }

  method FilterHits(hits: seq<Hit>, radius: int, keepMax: bool) returns (kept: seq<Hit>)
    ensures kept == Filter(hits, radius, keepMax)
  {
    kept := [];
    for i := 0 to |hits|
      invariant kept == Filter(hits[..i], radius, keepMax)
    {
      assert hits[..i + 1][..i] == hits[..i];
      if Inside(hits[i], radius, keepMax) {
        kept := kept + [hits[i]];
      }
    }
    assert hits[..|hits|] == hits;
  }

  /** Restricts a block to a tighter radius, counting query by query. */
  method ThresholdRadiusNres(b: Block, thresh: int, keepMax: bool, ghost queries: seq<seq<Hit>>, ghost radius: int)
    returns (next: Block)
    requires b == Range(queries, radius, keepMax) && AtLeastAsTight(thresh, radius, keepMax)
    ensures next == Range(queries, thresh, keepMax)
  {
    var nres: seq<nat> := [];
    var o := 0;
    hide Filter, Range;
    assert Range(queries[..0], thresh, keepMax).nres == [] by { NoQueries(thresh, keepMax); }
    assert |Range(queries[..0], radius, keepMax).hits| == 0 by { NoQueries(radius, keepMax); }
    for i := 0 to |b.nres|
      invariant o == |Range(queries[..i], radius, keepMax).hits|
      invariant nres == Range(queries[..i], thresh, keepMax).nres
    {
      HitsOfQuery(queries, i, radius, keepMax);
      RangeSnoc(queries, i, radius, keepMax);
      RangeSnoc(queries, i, thresh, keepMax);
      FilterTwice(queries[i], radius, thresh, keepMax);
      var kept := FilterHits(b.hits[o..o + b.nres[i]], thresh, keepMax);
      nres := nres + [|kept|];
      o := o + b.nres[i];
    }
    assert queries[..|b.nres|] == queries;
    RangeIsFilter(queries, radius, keepMax);
    RangeIsFilter(queries, thresh, keepMax);
    FilterTwice(Flat(queries), radius, thresh, keepMax);
    var hits := FilterHits(b.hits, thresh, keepMax);
    next := Block(nres, hits);
  }

  lemma NoQueries(radius: int, keepMax: bool)
    ensures Range([], radius, keepMax) == Block([], [])
  {
  }

  /** The list of result batches, tightened in place. */
  class ResultBatches {
    const keepMax: bool
    var blocks: seq<Block>

    constructor (keepMax: bool)
      ensures this.keepMax == keepMax && blocks == []
    {
      this.keepMax, blocks := keepMax, [];
    }

    /** Nothing when there are not more hits than wanted; else the radius that keeps at most so many. */
    method ApplyMaxres(target: nat, ghost batches: seq<seq<seq<Hit>>>, ghost before: int)
      returns (ok: bool, radius: int, totres: nat)
      requires Plain(blocks, batches, before, keepMax)
      modifies this
      ensures ok <==> |old(Stacked(blocks).hits)| > target
      ensures !ok ==> blocks == old(blocks)
      ensures ok ==> radius == Cut(Distances(old(Stacked(blocks).hits)), target, keepMax)
      ensures ok ==> AtLeastAsTight(radius, before, keepMax) && radius != before
      ensures ok ==> Plain(blocks, batches, radius, keepMax) && totres == |Stacked(blocks).hits| <= target
    {
      radius, totres := 0, 0;
      var all := Stacked(blocks).hits;
      StackedIsPlain(blocks, batches, before, keepMax);
      if |all| <= target {
        return false, radius, totres;
      }
      ok := true;
      radius := Cut(Distances(all), target, keepMax);
      CutIsTighter(AllQueries(batches), target, before, keepMax);
      TightenAll(radius, batches, before);
      StackedIsPlain(blocks, batches, radius, keepMax);
      CutFits(AllQueries(batches), target, before, keepMax);
      totres := |Stacked(blocks).hits|;
    }

    method TightenAll(radius: int, ghost batches: seq<seq<seq<Hit>>>, ghost before: int)
      requires Plain(blocks, batches, before, keepMax) && AtLeastAsTight(radius, before, keepMax)
      modifies this
      ensures Plain(blocks, batches, radius, keepMax)
    {
      for i := 0 to |blocks|
        invariant |blocks| == |batches|
        invariant forall j :: 0 <= j < i ==> blocks[j] == Range(batches[j], radius, keepMax)
        invariant forall j :: i <= j < |blocks| ==> blocks[j] == Range(batches[j], before, keepMax)
      {
        var next := ThresholdRadiusNres(blocks[i], radius, keepMax, batches[i], before);
        blocks := blocks[i := next];
      }
    }
  }

  lemma {:induction false} FilteredAreInside(hits: seq<Hit>, radius: int, keepMax: bool)
    ensures forall i :: 0 <= i < |Filter(hits, radius, keepMax)| ==>
      Inside(Filter(hits, radius, keepMax)[i], radius, keepMax)
  {
    if hits != [] {
      FilteredAreInside(hits[..|hits| - 1], radius, keepMax);
    }
  }

  /** The cut is the distance of a hit, so it is strictly inside the radius so far. */
  lemma CutIsTighter(queries: seq<seq<Hit>>, target: nat, radius: int, keepMax: bool)
    requires |Range(queries, radius, keepMax).hits| > target
    ensures var cut := Cut(Distances(Range(queries, radius, keepMax).hits), target, keepMax);
      AtLeastAsTight(cut, radius, keepMax) && cut != radius
  {
    var hits := Range(queries, radius, keepMax).hits;
    RangeIsFilter(queries, radius, keepMax);
    FilteredAreInside(Flat(queries), radius, keepMax);
    var dis := Distances(hits);
    SortSorts(dis);
    hide Sort, Filter, Range;
    var cut := Cut(dis, target, keepMax);
    assert cut in multiset(Sort(dis));
    assert cut in multiset(dis);
    var i :| 0 <= i < |dis| && dis[i] == cut;
    assert Inside(hits[i], radius, keepMax);
  }

  /** What the cut keeps is at most the target; a looser radius would keep more of the same hits. */
  lemma CutFits(queries: seq<seq<Hit>>, target: nat, radius: int, keepMax: bool)
    requires |Range(queries, radius, keepMax).hits| > target
    ensures var cut := Cut(Distances(Range(queries, radius, keepMax).hits), target, keepMax);
      |Range(queries, cut, keepMax).hits| <= target
  {
    var hits := Range(queries, radius, keepMax).hits;
    var cut := Cut(Distances(hits), target, keepMax);
    CutIsTighter(queries, target, radius, keepMax);
    RangeIsFilter(queries, radius, keepMax);
    RangeIsFilter(queries, cut, keepMax);
    FilterTwice(Flat(queries), radius, cut, keepMax);
    FilterCounts(hits, cut, keepMax);
    CutIsLoosest(Distances(hits), target, keepMax, cut);
  }

  /** Every radius between the cut and the one before would let more than the target in. */
  lemma LooserKeepsMore(queries: seq<seq<Hit>>, target: nat, radius: int, keepMax: bool, looser: int)
    requires |Range(queries, radius, keepMax).hits| > target && AtLeastAsTight(looser, radius, keepMax)
    requires !AtLeastAsTight(looser, Cut(Distances(Range(queries, radius, keepMax).hits), target, keepMax), keepMax)
    ensures |Range(queries, looser, keepMax).hits| > target
  {
    var hits := Range(queries, radius, keepMax).hits;
    RangeIsFilter(queries, radius, keepMax);
    RangeIsFilter(queries, looser, keepMax);
    FilterTwice(Flat(queries), radius, looser, keepMax);
    FilterCounts(hits, looser, keepMax);
    CutIsLoosest(Distances(hits), target, keepMax, looser);
  }

  // The adaptive search.

  datatype Adapted = Radius(r: int) | TooFewToCut

  /** The radius after these batches. A cut is made when there are more than maxRes hits, and fails when
      there are no more than minRes. */
  function RadiusAfter(batches: seq<seq<seq<Hit>>>, radius: int, maxRes: nat, minRes: nat, keepMax: bool): Adapted {
    if batches == [] then Radius(radius)
    else
      var before := RadiusAfter(batches[..|batches| - 1], radius, maxRes, minRes, keepMax);
      if before.TooFewToCut? then before
      else
        var hits := Range(AllQueries(batches), before.r, keepMax).hits;
        if |hits| <= maxRes then before
        else if |hits| <= minRes then TooFewToCut
        else Radius(Cut(Distances(hits), minRes, keepMax))
  }

  /** With minRes <= maxRes the search never fails, the radius only tightens, and no more than maxRes
      results are inside it. */
  lemma {:induction false} AdaptedFits(batches: seq<seq<seq<Hit>>>, radius: int, maxRes: nat, minRes: nat, keepMax: bool)
    requires minRes <= maxRes
    ensures var a := RadiusAfter(batches, radius, maxRes, minRes, keepMax);
      && a.Radius? && AtLeastAsTight(a.r, radius, keepMax)
      && |Range(AllQueries(batches), a.r, keepMax).hits| <= maxRes
  {
    if batches != [] {
      AdaptedFits(batches[..|batches| - 1], radius, maxRes, minRes, keepMax);
      var before := RadiusAfter(batches[..|batches| - 1], radius, maxRes, minRes, keepMax).r;
      hide Range, Cut;
      if |Range(AllQueries(batches), before, keepMax).hits| > maxRes {
        CutIsTighter(AllQueries(batches), minRes, before, keepMax);
        CutFits(AllQueries(batches), minRes, before, keepMax);
      }
    } else {
      NoQueries(radius, keepMax);
    }
  }

  /** Where the results of every query start and end. */
  ghost predicate Limits(lims: seq<nat>, nres: seq<nat>) {
    && |lims| == |nres| + 1 && lims[0] == 0
    && forall i :: 0 <= i < |nres| ==> Width(lims, i) == nres[i]
  }

  ghost function Width(lims: seq<nat>, i: nat): int
    requires i + 1 < |lims|
  {
    lims[i + 1] as int - lims[i] as int
  }

  method CumulativeSum(nres: seq<nat>) returns (lims: seq<nat>)
    ensures Limits(lims, nres)
  {
    lims := [0];
    for i := 0 to |nres|
      invariant |lims| == i + 1 && lims[0] == 0
      invariant forall j: nat :: j < i ==> Width(lims, j) == nres[j]
    {
      ghost var before := lims;
      lims := lims + [lims[i] + nres[i]];
      assert forall j: nat :: j < i ==> Width(lims, j) == Width(before, j);
    }
  }

  /** After i batches: they are held at the radius reached so far. */
  ghost predicate Adapting(res: ResultBatches, batches: seq<seq<seq<Hit>>>, i: int, radius: int, maxRes: nat, minRes: nat,
                           final: int, totres: nat)
    requires 0 <= i <= |batches|
    reads res
  {
    && Plain(res.blocks, batches[..i], final, res.keepMax)
    && RadiusAfter(batches[..i], radius, maxRes, minRes, res.keepMax) == Radius(final)
    && totres == |Stacked(res.blocks).hits|
  }

  lemma NextPlain(blocks: seq<Block>, batches: seq<seq<seq<Hit>>>, i: nat, final: int, keepMax: bool)
    requires i < |batches| && Plain(blocks, batches[..i], final, keepMax)
    ensures Plain(blocks + [Range(batches[i], final, keepMax)], batches[..i + 1], final, keepMax)
  {
    hide Range;
  }

  /** The hits after one more batch, and what becomes of the radius. */
  lemma NextRadius(blocks: seq<Block>, batches: seq<seq<seq<Hit>>>, i: nat, radius: int, maxRes: nat, minRes: nat,
                   final: int, keepMax: bool)
    requires i < |batches| && Plain(blocks, batches[..i + 1], final, keepMax)
    requires RadiusAfter(batches[..i], radius, maxRes, minRes, keepMax) == Radius(final)
    ensures
      var hits := Stacked(blocks).hits;
      RadiusAfter(batches[..i + 1], radius, maxRes, minRes, keepMax) ==
        if |hits| <= maxRes then Radius(final)
        else if |hits| <= minRes then TooFewToCut
        else Radius(Cut(Distances(hits), minRes, keepMax))
  {
    StackedIsPlain(blocks, batches[..i + 1], final, keepMax);
    assert batches[..i + 1][..i] == batches[..i];
    hide Range, Cut, Stacked, Plain, Distances;
  }

  /** One turn of the loop over the batches. */
  method AddBatch(res: ResultBatches, batches: seq<seq<seq<Hit>>>, i: nat, ghost radius: int, maxRes: nat, minRes: nat,
                  before: int, total: nat)
    returns (ok: bool, final: int, totres: nat)
    requires i < |batches| && Adapting(res, batches, i, radius, maxRes, minRes, before, total)
    modifies res
    ensures ok ==> Adapting(res, batches, i + 1, radius, maxRes, minRes, final, totres)
    ensures !ok ==> RadiusAfter(batches, radius, maxRes, minRes, res.keepMax).TooFewToCut?
  {
    hide Range, Cut, Stacked, Plain, Distances, RadiusAfter;
    var block := Range(batches[i], before, res.keepMax);
    StackedSnoc(res.blocks, block);
    NextPlain(res.blocks, batches, i, before, res.keepMax);
    NextRadius(res.blocks + [block], batches, i, radius, maxRes, minRes, before, res.keepMax);
    ok, final, totres := true, before, total + |block.hits|;
    res.blocks := res.blocks + [block];
    if totres > maxRes {
      ok, final, totres := res.ApplyMaxres(minRes, batches[..i + 1], final);
      if !ok {
        FailureStays(batches, i + 1, radius, maxRes, minRes, res.keepMax);
      }
    }
  }

  lemma StartAdapting(res: ResultBatches, batches: seq<seq<seq<Hit>>>, radius: int, maxRes: nat, minRes: nat)
    requires res.blocks == []
    ensures Adapting(res, batches, 0, radius, maxRes, minRes, radius, 0)
  {
    StackedEmpty();
  }

  /** All batches are in. */
  lemma EndAdapting(res: ResultBatches, batches: seq<seq<seq<Hit>>>, radius: int, maxRes: nat, minRes: nat, final: int,
                    totres: nat)
    requires Adapting(res, batches, |batches|, radius, maxRes, minRes, final, totres)
    ensures Plain(res.blocks, batches, final, res.keepMax) && |res.blocks| == |batches|
    ensures RadiusAfter(batches, radius, maxRes, minRes, res.keepMax) == Radius(final)
    ensures Stacked(res.blocks) == Range(AllQueries(batches), final, res.keepMax)
    ensures totres == |Stacked(res.blocks).hits|
    ensures minRes <= maxRes ==> totres <= maxRes
  {
    assert batches[..|batches|] == batches;
    StackedIsPlain(res.blocks, batches, final, res.keepMax);
    hide Range, Cut, Stacked, RadiusAfter;
    if minRes <= maxRes {
      AdaptedFits(batches, radius, maxRes, minRes, res.keepMax);
    }
  }

  /** Whatever cuts were made on the way, the result is a plain range search over all queries at the radius
      returned. It fails on no batches at all, and when a cut has too few results to choose from. */
  method RangeSearchMaxResults(batches: seq<seq<seq<Hit>>>, radius: int, maxRes: nat, minRes: nat, clip: bool,
                               keepMax: bool)
    returns (ok: bool, final: int, lims: seq<nat>, hits: seq<Hit>)
    ensures ok <==> batches != [] && RadiusAfter(batches, radius, maxRes, minRes, keepMax).Radius?
    ensures ok ==> Limits(lims, Range(AllQueries(batches), final, keepMax).nres)
    ensures ok ==> hits == Range(AllQueries(batches), final, keepMax).hits
    ensures ok ==>
      var r := RadiusAfter(batches, radius, maxRes, minRes, keepMax).r;
      var found := Range(AllQueries(batches), r, keepMax).hits;
      final == if clip && |found| > minRes then Cut(Distances(found), minRes, keepMax) else r
    ensures ok && minRes <= maxRes ==> |hits| <= if clip then minRes else maxRes
  {
    hide *;
    final, lims, hits := radius, [], [];
    var res := new ResultBatches(keepMax);
    var totres: nat := 0;
    StartAdapting(res, batches, radius, maxRes, minRes);
    for i := 0 to |batches|
      invariant fresh(res) && res.keepMax == keepMax
      invariant Adapting(res, batches, i, radius, maxRes, minRes, final, totres)
    {
      ok, final, totres := AddBatch(res, batches, i, radius, maxRes, minRes, final, totres);
      if !ok {
        return;
      }
    }
    EndAdapting(res, batches, radius, maxRes, minRes, final, totres);
    if clip && totres > minRes {
      ok, final, totres := res.ApplyMaxres(minRes, batches, final);
      StackedIsPlain(res.blocks, batches, final, keepMax);
    }
    if |batches| == 0 {
      return false, final, [], [];
    }
    ok := true;
    hits := Stacked(res.blocks).hits;
    lims := CumulativeSum(Stacked(res.blocks).nres);
  }

  lemma StackedEmpty()
    ensures Stacked([]) == Block([], [])
  {
  }

  lemma {:induction false} FailureStays(batches: seq<seq<seq<Hit>>>, i: nat, radius: int, maxRes: nat, minRes: nat,
                                        keepMax: bool)
    requires i <= |batches| && RadiusAfter(batches[..i], radius, maxRes, minRes, keepMax).TooFewToCut?
    ensures RadiusAfter(batches, radius, maxRes, minRes, keepMax).TooFewToCut?
  {
    if i == |batches| {
      assert batches[..i] == batches;
    } else {
      assert batches[..|batches| - 1][..i] == batches[..i];
      FailureStays(batches[..|batches| - 1], i, radius, maxRes, minRes, keepMax);
    }
  }
}
