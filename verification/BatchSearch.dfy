/**
 List-major batch search (contrib/big_batch_search.py): queries are regrouped by inverted list, every list
 is searched once for all its queries and the results go into the queries' heaps. Distances are given: what
 a list holds for a query is a parameter, and so is what the block computation reports of it.
 */
module BatchSearch {

  import opened BinaryIvf
  import opened BucketSort
  import opened Collectors
  import opened Heaps
  import opened Nearest
  import opened Options
  import opened Rearrangements
  import P = BatchPipeline
  import S = ParallelBucketSort

  // What a block computation reports.

  /** The entries that can enter a heap: closer than the neutral one. */
  function Near(found: seq<Entry>): multiset<Entry> {
    if found == [] then multiset{}
    else
      var e := found[|found| - 1];
      Near(found[..|found| - 1]) + if e.dis < MAX_DIS then multiset{e} else multiset{}
  }

  /** All distances to the list, or at least the k nearest of it, padded with far entries. */
  ghost predicate Summarises(found: multiset<Entry>, scan: multiset<Entry>, k: nat) {
    && found <= scan
    && forall y :: y in scan - found ==> |found| >= k && forall x :: x in found ==> x.dis <= y.dis
  }

  /** A row that kept the nearest of a summary kept the nearest of what is summarised. */
  lemma NearestOfSummary(row: multiset<Entry>, cands: multiset<Entry>, found: multiset<Entry>, scan: multiset<Entry>,
                         k: nat)
    requires KeepsNearest(row, cands + found, k) && Summarises(found, scan, k)
    ensures KeepsNearest(row, cands + scan, k)
  {
    var part, all := cands + found + Pads(k), cands + scan + Pads(k);
    forall x, y | x in row && y in all - row
      ensures x.dis <= y.dis
    {
      if y !in part - row {
        assert y in scan - found;
        if found <= row {
          IncludedIsSmaller(found, row);
          SameSizeIncluded(found, row);
          assert x in found;
        } else {
          var z :| found[z] > row[z];
          assert z in part - row;
        }
      }
    }
  }

  // The regrouped queries.

  /** How many of the first n cells of the matrix belong to row r and hold b. */
  function CellCount(input: seq<int>, n: nat, ncol: nat, r: int, b: int): nat
    requires n <= |input| && ncol > 0
  {
    if n == 0 then 0
    else CellCount(input, n - 1, ncol, r, b) + if RowOf(n - 1, ncol) == r && input[n - 1] == b then 1 else 0
  }

  ghost function Cells(input: seq<int>, n: nat, ncol: nat, r: int, b: int): (cells: set<int>)
    requires n <= |input| && ncol > 0
    ensures |cells| == CellCount(input, n, ncol, r, b)
    ensures forall c :: c in cells <==> 0 <= c < n && RowOf(c, ncol) == r && input[c] == b
  {
    if n == 0 then {}
    else Cells(input, n - 1, ncol, r, b) + if RowOf(n - 1, ncol) == r && input[n - 1] == b then {n - 1} else {}
  }

  /** Where the first n places of a slice hold r. */
  ghost function Places(slice: seq<int>, n: nat, start: int, r: int): (places: set<int>)
    requires n <= |slice|
    ensures |places| == multiset(slice[..n])[r]
    ensures forall p :: p in places <==> start <= p < start + n && slice[p - start] == r
  {
    if n == 0 then {}
    else
      assert slice[..n] == slice[..n - 1] + [slice[n - 1]];
      Places(slice, n - 1, start, r) + if slice[n - 1] == r then {start + n - 1} else {}
  }

  /** The slice of a bucket holds every row as often as the row names the bucket. */
  lemma SliceCounts(vals: seq<int>, input: seq<int>, lims: seq<int>, ncol: nat, from: map<int, int>,
                    to: map<int, int>, b: nat, r: int)
    requires ncol > 0 && Grouped(vals, input, lims, ncol, from, to) && Limits(lims, input)
    requires b < |lims| - 1 && 0 <= lims[b] <= lims[b + 1] <= |vals|
    ensures multiset(vals[lims[b]..lims[b + 1]])[r] == CellCount(input, |input|, ncol, r, b)
  {
    var lo, slice := lims[b], vals[lims[b]..lims[b + 1]];
    assert slice[..|slice|] == slice;
    PlacesToCells(vals, input, lims, ncol, from, to, b, r);
    CellsToPlaces(vals, input, lims, ncol, from, to, b, r);
    hide Grouped, Limits, CellCount;
    InjectionSize(Places(slice, |slice|, lo, r), Cells(input, |input|, ncol, r, b), from, to);
    InjectionSize(Cells(input, |input|, ncol, r, b), Places(slice, |slice|, lo, r), to, from);
  }

  lemma PlacesToCells(vals: seq<int>, input: seq<int>, lims: seq<int>, ncol: nat, from: map<int, int>,
                      to: map<int, int>, b: nat, r: int)
    requires ncol > 0 && Grouped(vals, input, lims, ncol, from, to) && Limits(lims, input)
    requires b < |lims| - 1 && 0 <= lims[b] <= lims[b + 1] <= |vals|
    ensures var slice := vals[lims[b]..lims[b + 1]];
      forall p :: p in Places(slice, |slice|, lims[b], r) ==>
        p in from && from[p] in Cells(input, |input|, ncol, r, b) && from[p] in to && to[from[p]] == p
  {
    hide Grouped, Limits, CellCount, RowOf;
    var lo, slice := lims[b], vals[lims[b]..lims[b + 1]];
    forall p | p in Places(slice, |slice|, lo, r)
      ensures p in from && from[p] in Cells(input, |input|, ncol, r, b) && from[p] in to && to[from[p]] == p
    {
      assert slice[p - lo] == vals[p];
      PlaceIsCell(vals, input, lims, ncol, from, to, b, r, p);
    }
  }

  lemma CellsToPlaces(vals: seq<int>, input: seq<int>, lims: seq<int>, ncol: nat, from: map<int, int>,
                      to: map<int, int>, b: nat, r: int)
    requires ncol > 0 && Grouped(vals, input, lims, ncol, from, to) && Limits(lims, input)
    requires b < |lims| - 1 && 0 <= lims[b] <= lims[b + 1] <= |vals|
    ensures var slice := vals[lims[b]..lims[b + 1]];
      forall c :: c in Cells(input, |input|, ncol, r, b) ==>
        c in to && to[c] in Places(slice, |slice|, lims[b], r) && to[c] in from && from[to[c]] == c
  {
    var lo, slice := lims[b], vals[lims[b]..lims[b + 1]];
    hide Grouped, Limits, CellCount, RowOf;
    forall c | c in Cells(input, |input|, ncol, r, b)
      ensures c in to && to[c] in Places(slice, |slice|, lo, r) && to[c] in from && from[to[c]] == c
    {
      CellIsPlace(vals, input, lims, ncol, from, to, b, r, c);
      assert slice[to[c] - lo] == vals[to[c]];
    }
  }

  lemma PlaceIsCell(vals: seq<int>, input: seq<int>, lims: seq<int>, ncol: nat, from: map<int, int>,
                    to: map<int, int>, b: nat, r: int, p: int)
    requires ncol > 0 && Grouped(vals, input, lims, ncol, from, to) && Limits(lims, input)
    requires 0 <= p < |vals| && InBucket(lims, p, b) && vals[p] == r
    ensures p in from && from[p] in to && to[from[p]] == p
    ensures 0 <= from[p] < |input| && RowOf(from[p], ncol) == r && input[from[p]] == b
  {
    hide RowOf;
    BucketOf(vals, input, lims, ncol, from, to, p, b);
  }

  // Queries, lists, and what every list holds for every query.

  /** scan(q, l) are all entries of list l for query q and found(q, l) what the block computation reports;
      assign is the matrix of lists per query, ncol lists a query, -1 for none. */
  datatype Batch = Batch(nq: nat, nlist: nat, k: nat, assign: seq<int>, ncol: nat, scan: (nat, nat) -> seq<Entry>,
                         found: (nat, nat) -> seq<Entry>)

  ghost predicate GoodBatch(b: Batch) {
    && b.k > 0 && b.ncol > 0
    && (forall q: nat, l: nat :: q < b.nq && l < b.nlist ==>
      Genuine(multiset(b.scan(q, l))) && Summarises(Near(b.found(q, l)), multiset(b.scan(q, l)), b.k))
  }

  lemma GoodShape(b: Batch)
    requires GoodBatch(b)
    ensures b.k > 0 && b.ncol > 0
  {
  }

  ghost function Repeat(m: multiset<Entry>, n: nat): multiset<Entry> {
    if n == 0 then multiset{} else Repeat(m, n - 1) + m
  }

  /** What list l gives query q: its entries, as often as the query asks for the list. */
  ghost function Part(b: Batch, q: nat, l: nat): multiset<Entry>
    requires b.ncol > 0
  {
    Repeat(multiset(b.scan(q, l)), CellCount(b.assign, |b.assign|, b.ncol, q, l))
  }

  /** What query q gets from these lists, in this order. */
  ghost function Total(b: Batch, q: nat, order: seq<nat>): multiset<Entry>
    requires b.ncol > 0
  {
    if order == [] then multiset{} else Total(b, q, order[..|order| - 1]) + Part(b, q, order[|order| - 1])
  }

  /** What query q gets when it goes through its own row of the matrix, one list after the other: the
      first n cells, and only lists from lo up to hi. */
  ghost function Visit(b: Batch, q: nat, n: nat, lo: nat, hi: nat): multiset<Entry>
    requires n <= |b.assign| && b.ncol > 0
  {
    if n == 0 then multiset{}
    else
      var l := b.assign[n - 1];
      Visit(b, q, n - 1, lo, hi) +
      if RowOf(n - 1, b.ncol) == q && lo <= l < hi then multiset(b.scan(q, l)) else multiset{}
  }

  lemma {:induction false} OneMoreList(b: Batch, q: nat, n: nat, lo: nat, hi: nat)
    requires n <= |b.assign| && b.ncol > 0 && lo <= hi
    ensures Visit(b, q, n, lo, hi + 1) ==
      Visit(b, q, n, lo, hi) + Repeat(multiset(b.scan(q, hi)), CellCount(b.assign, n, b.ncol, q, hi))
  {
    hide RowOf;
    if n > 0 {
      OneMoreList(b, q, n - 1, lo, hi);
      var l, count := b.assign[n - 1], CellCount(b.assign, n - 1, b.ncol, q, hi);
      var here, scan := RowOf(n - 1, b.ncol) == q, multiset(b.scan(q, hi));
      var extra := if here && lo <= l < hi then multiset(b.scan(q, l)) else multiset{};
      var before, more := Visit(b, q, n - 1, lo, hi), Repeat(scan, count);
      assert Visit(b, q, n, lo, hi) == before + extra;
      assert Visit(b, q, n, lo, hi + 1) == (before + more) + if here && l == hi then scan else extra;
      assert CellCount(b.assign, n, b.ncol, q, hi) == if here && l == hi then count + 1 else count;
      assert Repeat(scan, count + 1) == more + scan;
      hide Repeat, Visit, CellCount;
      Rearrange(before, more, scan);
      Rearrange(before, more, extra);
      assert Visit(b, q, n, lo, hi + 1) == Visit(b, q, n, lo, hi) + Repeat(scan, CellCount(b.assign, n, b.ncol, q, hi));
    }
  }

  lemma Rearrange(a: multiset<Entry>, r: multiset<Entry>, m: multiset<Entry>)
    ensures (a + r) + m == (a + m) + r == a + (r + m)
    ensures a + multiset{} == a
  {
  }

  lemma {:induction false} NoList(b: Batch, q: nat, n: nat, lo: nat, hi: nat)
    requires n <= |b.assign| && b.ncol > 0 && hi <= lo
    ensures Visit(b, q, n, lo, hi) == multiset{}
  {
    if n > 0 {
      NoList(b, q, n - 1, lo, hi);
    }
  }

  /** lo, lo + 1, ... up to hi. */
  function Upward(lo: nat, hi: nat): seq<nat> {
    if hi <= lo then [] else Upward(lo, hi - 1) + [hi - 1]
  }

  lemma UpwardSnoc(lo: nat, hi: nat)
    requires lo <= hi
    ensures Upward(lo, hi + 1) == Upward(lo, hi) + [hi] && Upward(lo, lo) == []
  {
  }

  lemma UpwardEmpty(lo: nat, hi: nat)
    requires hi <= lo
    ensures Upward(lo, hi) == []
  {
  }

  lemma {:induction false} TotalConcat(b: Batch, q: nat, x: seq<nat>, y: seq<nat>)
    requires b.ncol > 0
    ensures Total(b, q, x + y) == Total(b, q, x) + Total(b, q, y)
  {
    hide Part;
    if y == [] {
      assert x + y == x;
    } else {
      var rest, l := y[..|y| - 1], y[|y| - 1];
      hide Total;
      assert y == rest + [l] && x + y == (x + rest) + [l];
      TotalConcat(b, q, x, rest);
      TotalSnoc(b, q, x + rest, l);
      TotalSnoc(b, q, rest, l);
      Rearrange(Total(b, q, x), Total(b, q, rest), Part(b, q, l));
      assert Total(b, q, x + y) == Total(b, q, x) + Total(b, q, y);
    }
  }

  lemma TotalSnoc(b: Batch, q: nat, x: seq<nat>, l: nat)
    requires b.ncol > 0
    ensures Total(b, q, x + [l]) == Total(b, q, x) + Part(b, q, l)
  {
    hide Part;
    assert (x + [l])[..|x|] == x;
  }

  /** List by list, or query by query: the same entries. */
  lemma {:induction false} ListMajorIsQueryMajor(b: Batch, q: nat, lo: nat, hi: nat)
    requires b.ncol > 0
    ensures Total(b, q, Upward(lo, hi)) == Visit(b, q, |b.assign|, lo, hi)
  {
    if hi <= lo {
      NoList(b, q, |b.assign|, lo, hi);
    } else {
      ListMajorIsQueryMajor(b, q, lo, hi - 1);
      LastListMerged(b, q, lo, hi);
      LastListVisited(b, q, lo, hi);
      hide *;
      assert Total(b, q, Upward(lo, hi)) == Visit(b, q, |b.assign|, lo, hi);
    }
  }

  lemma LastListMerged(b: Batch, q: nat, lo: nat, hi: nat)
    requires b.ncol > 0 && lo < hi
    ensures Total(b, q, Upward(lo, hi)) == Total(b, q, Upward(lo, hi - 1)) + Part(b, q, hi - 1)
  {
    assert Upward(lo, hi) == Upward(lo, hi - 1) + [hi - 1];
    hide Part, Upward, Total;
    TotalSnoc(b, q, Upward(lo, hi - 1), hi - 1);
  }

  lemma LastListVisited(b: Batch, q: nat, lo: nat, hi: nat)
    requires b.ncol > 0 && lo < hi
    ensures Visit(b, q, |b.assign|, lo, hi) == Visit(b, q, |b.assign|, lo, hi - 1) + Part(b, q, hi - 1)
  {
    hide Visit, Repeat, CellCount;
    OneMoreList(b, q, |b.assign|, lo, hi - 1);
  }

  /** The order in which lists are merged does not matter. */
  lemma {:induction false} TotalIgnoresOrder(b: Batch, q: nat, x: seq<nat>, y: seq<nat>)
    requires b.ncol > 0 && multiset(x) == multiset(y)
    ensures Total(b, q, x) == Total(b, q, y)
  {
    if x == [] {
      assert |multiset(y)| == 0;
    } else {
      var i := LastTakenOut(x, y);
      var n := |x| - 1;
      var l, front, back := x[n], y[..i], y[i + 1..];
      hide Part;
      TotalIgnoresOrder(b, q, x[..n], front + back);
      MovedToEnd(b, q, front, l, back);
      assert Total(b, q, x) == Total(b, q, x[..n]) + Part(b, q, l);
    }
  }

  lemma MovedToEnd(b: Batch, q: nat, front: seq<nat>, l: nat, back: seq<nat>)
    requires b.ncol > 0
    ensures Total(b, q, front + [l] + back) == Total(b, q, front + back) + Part(b, q, l)
  {
    hide Total, Part;
    TotalConcat(b, q, front, back);
    TotalConcat(b, q, front + [l], back);
    TotalSnoc(b, q, front, l);
    Rearrange(Total(b, q, front), Part(b, q, l), Total(b, q, back));
  }

  // Merging one block.

  lemma TopIsAtMostNeutral(row: seq<Entry>, cands: multiset<Entry>, k: nat)
    requires SearchHeap(row, cands, k) && Genuine(cands) && k > 0
    ensures row[0].dis <= MAX_DIS
  {
    assert row[0] in multiset(row);
    assert row[0] in cands + Pads(k);
  }

  lemma NearSnoc(found: seq<Entry>, e: Entry)
    ensures Near(found + [e]) == Near(found) + if e.dis < MAX_DIS then multiset{e} else multiset{}
  {
    assert (found + [e])[..|found|] == found;
  }

  lemma NothingNear()
    ensures Near([]) == multiset{}
  {
  }

  lemma NearIsGenuine(found: multiset<Entry>, scan: multiset<Entry>, cands: multiset<Entry>)
    requires found <= scan && Genuine(scan) && Genuine(cands)
    ensures Genuine(cands + found)
  {
  }

  /** One entry for one query. */
  method AddOne(rows: seq<array<Entry>>, q: nat, k: nat, e: Entry, ghost cands: seq<multiset<Entry>>)
    requires k > 0 && AllHold(rows, cands, k) && q < |rows| == |cands| && Genuine(cands[q])
    modifies rows[q]
    ensures AllHold(rows, cands[q := cands[q] + if e.dis < MAX_DIS then multiset{e} else multiset{}], k)
  {
    RowLength(rows, cands, k);
    assert rows[q][0].dis <= MAX_DIS by {
      assert Holds(rows[q], cands[q], k);
      TopIsAtMostNeutral(rows[q][..], cands[q], k);
    }
    hide AllHold;
    if e.dis < rows[q][0].dis {
      OfferTo(rows, q, k, e, cands);
    } else if e.dis < MAX_DIS {
      RefuseTo(rows, q, k, e, cands);
    } else {
      assert cands[q] + multiset{} == cands[q];
      assert cands[q := cands[q]] == cands;
    }
  }

  /** All entries reported for one query. */
  method AddRow(rows: seq<array<Entry>>, q: nat, k: nat, found: seq<Entry>, ghost scan: multiset<Entry>,
                ghost cands: seq<multiset<Entry>>)
    requires k > 0 && AllHold(rows, cands, k) && q < |rows| == |cands|
    requires Genuine(cands[q]) && Genuine(scan) && Near(found) <= scan
    modifies rows[q]
    ensures AllHold(rows, cands[q := cands[q] + Near(found)], k)
  {
    hide AllHold, Genuine, Near;
    assert Near([]) == multiset{} by { NothingNear(); }
    assert cands[q] + Near([]) == cands[q] && found[..0] == [];
    assert cands[q := cands[q]] == cands;
    for j := 0 to |found|
      invariant AllHold(rows, cands[q := cands[q] + Near(found[..j])], k)
    {
      ghost var seen := cands[q] + Near(found[..j]);
      NearPrefix(found, j);
      NearIsGenuine(Near(found[..j]), scan, cands[q]);
      NearSnoc(found[..j], found[j]);
      assert found[..j + 1] == found[..j] + [found[j]];
      AddOne(rows, q, k, found[j], cands[q := seen]);
      ghost var extra := if found[j].dis < MAX_DIS then multiset{found[j]} else multiset{};
      assert seen + extra == cands[q] + (Near(found[..j]) + extra);
      assert cands[q := seen][q := seen + extra] == cands[q := seen + extra];
    }
    assert found[..|found|] == found;
  }

  lemma {:induction false} NearPrefix(found: seq<Entry>, j: nat)
    requires j <= |found|
    ensures Near(found[..j]) <= Near(found)
  {
    if j == |found| {
      assert found[..j] == found;
    } else {
      NearPrefix(found[..|found| - 1], j);
      assert found[..|found| - 1][..j] == found[..j];
    }
  }

  lemma SummaryHolds(rows: seq<array<Entry>>, q: nat, k: nat, found: multiset<Entry>, scan: multiset<Entry>,
                     cands: seq<multiset<Entry>>)
    requires q < |rows| == |cands| && AllHold(rows, cands[q := cands[q] + found], k) && Summarises(found, scan, k)
    ensures AllHold(rows, cands[q := cands[q] + scan], k)
  {
    assert Holds(rows[q], cands[q] + found, k) by {
      assert cands[q := cands[q] + found][q] == cands[q] + found;
    }
    NearestOfSummary(multiset(rows[q][..]), cands[q], found, scan, k);
    hide KeepsNearest, Summarises, IsHeap;
    forall i | 0 <= i < |rows|
      ensures rows[i].Length == k && Holds(rows[i], cands[q := cands[q] + scan][i], k)
    {
      if i != q {
        assert Holds(rows[i], cands[q := cands[q] + found][i], k);
      }
    }
  }

  /** What every query has got from the lists merged so far. */
  ghost function Totals(b: Batch, order: seq<nat>): (t: seq<multiset<Entry>>)
    requires b.ncol > 0
  {
    seq(b.nq, q requires 0 <= q < b.nq => Total(b, q, order))
  }

  /** The same in the middle of merging list l: the first places of its slice are done. */
  ghost function Partial(b: Batch, order: seq<nat>, slice: seq<int>, l: nat): (t: seq<multiset<Entry>>)
    requires b.ncol > 0
  {
    seq(b.nq, q requires 0 <= q < b.nq => Total(b, q, order) + Repeat(multiset(b.scan(q, l)), multiset(slice)[q]))
  }

  lemma {:induction false} RepeatIsGenuine(m: multiset<Entry>, n: nat)
    requires Genuine(m)
    ensures Genuine(Repeat(m, n))
  {
    if n > 0 {
      RepeatIsGenuine(m, n - 1);
    }
  }

  lemma {:induction false} TotalIsGenuine(b: Batch, q: nat, order: seq<nat>)
    requires GoodBatch(b) && q < b.nq && forall i :: 0 <= i < |order| ==> order[i] < b.nlist
    ensures Genuine(Total(b, q, order))
  {
    if order != [] {
      var l := order[|order| - 1];
      TotalIsGenuine(b, q, order[..|order| - 1]);
      assert Genuine(multiset(b.scan(q, l)));
      RepeatIsGenuine(multiset(b.scan(q, l)), CellCount(b.assign, |b.assign|, b.ncol, q, l));
    }
  }

  lemma PartialIsGenuine(b: Batch, order: seq<nat>, slice: seq<int>, l: nat, q: nat)
    requires GoodBatch(b) && q < b.nq && l < b.nlist && forall i :: 0 <= i < |order| ==> order[i] < b.nlist
    ensures Genuine(Partial(b, order, slice, l)[q])
  {
    TotalIsGenuine(b, q, order);
    assert Genuine(multiset(b.scan(q, l)));
    RepeatIsGenuine(multiset(b.scan(q, l)), multiset(slice)[q]);
    hide Total, Repeat;
  }

  lemma PartialStarts(b: Batch, order: seq<nat>, l: nat)
    requires b.ncol > 0
    ensures Partial(b, order, [], l) == Totals(b, order)
  {
    hide Total;
    forall q | 0 <= q < b.nq
      ensures Partial(b, order, [], l)[q] == Totals(b, order)[q]
    {
      var none: seq<int> := [];
      assert multiset(none)[q] == 0;
      assert Repeat(multiset(b.scan(q, l)), 0) == multiset{};
    }
  }

  lemma PartialStep(b: Batch, order: seq<nat>, slice: seq<int>, l: nat, q: nat)
    requires b.ncol > 0 && q < b.nq
    ensures var seen := Partial(b, order, slice, l);
      Partial(b, order, slice + [q], l) == seen[q := seen[q] + multiset(b.scan(q, l))]
  {
    hide Total;
    var seen, next := Partial(b, order, slice, l), Partial(b, order, slice + [q], l);
    var scan := multiset(b.scan(q, l));
    assert multiset(slice + [q]) == multiset(slice) + multiset{q};
    assert next[q] == Total(b, q, order) + (Repeat(scan, multiset(slice)[q]) + scan);
    assert next[q] == seen[q] + scan;
    hide Repeat;
    forall i | 0 <= i < b.nq && i != q
      ensures next[i] == seen[i]
    {
      assert multiset(slice + [q])[i] == multiset(slice)[i];
    }
  }

  lemma PartialEnds(b: Batch, order: seq<nat>, slice: seq<int>, l: nat)
    requires b.ncol > 0 && Serves(b, slice, l)
    ensures Partial(b, order, slice, l) == Totals(b, order + [l])
  {
    hide Total, Repeat, CellCount;
    forall q | 0 <= q < b.nq
      ensures Partial(b, order, slice, l)[q] == Totals(b, order + [l])[q]
    {
      TotalSnoc(b, q, order, l);
    }
  }

  /** A slice for list l: queries, each as often as it asks for the list. */
  ghost predicate Serves(b: Batch, slice: seq<int>, l: nat)
    requires b.ncol > 0
  {
    && (forall i :: 0 <= i < |slice| ==> 0 <= slice[i] < b.nq)
    && (forall q: nat :: q < b.nq ==> multiset(slice)[q] == CellCount(b.assign, |b.assign|, b.ncol, q, l))
  }

  method NewHeaps(n: nat, k: nat) returns (rows: seq<array<Entry>>)
    ensures fresh(rows) && AllHold(rows, seq(n, _ => multiset{}), k)
  {
    rows := [];
    while |rows| < n
      invariant |rows| <= n && fresh(rows) && Rows(rows, k)
      invariant forall i :: 0 <= i < |rows| ==> forall j :: 0 <= j < k ==> rows[i][j] == NEUTRAL
    {
      var row := new Entry[k](_ => NEUTRAL);
      rows := rows + [row];
    }
    forall i | 0 <= i < n
      ensures Holds(rows[i], multiset{}, k)
    {
      EmptySearch(rows[i][..], k);
    }
  }

  method SortHeaps(b: Batch, rows: seq<array<Entry>>, ghost merged: seq<nat>)
    requires GoodBatch(b) && |rows| == b.nq && AllHold(rows, Totals(b, merged), b.k)
    requires forall i :: 0 <= i < |merged| ==> merged[i] < b.nlist
    modifies rows
    ensures forall q :: 0 <= q < b.nq ==> ResultRow(rows[q][..], Total(b, q, merged), b.k)
  {
    hide SearchHeap, ResultRow, Total, GoodBatch;
    GoodShape(b);
    for i := 0 to b.nq
      invariant forall q :: 0 <= q < i ==> ResultRow(rows[q][..], Total(b, q, merged), b.k)
      invariant forall q :: i <= q < b.nq ==> SearchHeap(rows[q][..], Total(b, q, merged), b.k)
    {
      TotalIsGenuine(b, i, merged);
      FinishAll(rows[i], b.k, Total(b, i, merged));
    }
  }

  method FinishAll(row: array<Entry>, k: nat, ghost cands: multiset<Entry>)
    requires row.Length == k && SearchHeap(row[..], cands, k) && Genuine(cands)
    modifies row
    ensures ResultRow(row[..], cands, k)
  {
    hide SearchHeap, ResultRow, Genuine;
    assert row[0..0 + k] == row[..];
    FinishRow(row, 0, k, cands);
    assert row[0..0 + k] == row[..];
  }

  lemma NothingMerged(b: Batch)
    requires b.ncol > 0
    ensures Totals(b, []) == seq(b.nq, _ => multiset{})
  {
  }

  lemma {:induction false} ShiftedCount(assign: seq<int>, shifted: seq<int>, n: nat, ncol: nat, r: int, l: int)
    requires n <= |assign| == |shifted| && ncol > 0
    requires forall i :: 0 <= i < |shifted| ==> shifted[i] == assign[i] + 1
    ensures CellCount(shifted, n, ncol, r, l + 1) == CellCount(assign, n, ncol, r, l)
  {
    hide RowOf;
    if n > 0 {
      ShiftedCount(assign, shifted, n - 1, ncol, r, l);
    }
  }

  /** One slice after the shift by one that gives the missing lists a bucket of their own. */
  lemma RegroupedSlice(b: Batch, vals: seq<int>, shifted: seq<int>, lims: seq<int>, from: map<int, int>,
                       to: map<int, int>, l: nat)
    requires b.ncol > 0 && l < b.nlist && |lims| == b.nlist + 2 && IsMatrix(|b.assign|, b.nq, b.ncol)
    requires |shifted| == |b.assign| && forall i :: 0 <= i < |shifted| ==> shifted[i] == b.assign[i] + 1
    requires forall i :: 0 <= i < |shifted| ==> 0 <= shifted[i] < b.nlist + 1
    requires Grouped(vals, shifted, lims, b.ncol, from, to) && Limits(lims, shifted)
    ensures 0 <= lims[l + 1] <= lims[l + 2] <= |vals|
    ensures Serves(b, vals[lims[l + 1]..lims[l + 2]], l)
  {
    hide *;
    LimitsBounds(lims, shifted, l + 1);
    LimitsBounds(lims, shifted, l + 2);
    LimitsGrow(lims, shifted, l + 1, l + 2);
    GroupedSize(vals, shifted, lims, b.ncol, from, to);
    var slice := vals[lims[l + 1]..lims[l + 2]];
    forall i | 0 <= i < |slice|
      ensures 0 <= slice[i] < b.nq
    {
      var p := lims[l + 1] + i;
      IsInBucket(lims, p, l + 1);
      BucketOf(vals, shifted, lims, b.ncol, from, to, p, l + 1);
      RowInMatrix(|b.assign|, b.nq, b.ncol, from[p]);
    }
    forall q: nat | q < b.nq
      ensures multiset(slice)[q] == CellCount(b.assign, |b.assign|, b.ncol, q, l)
    {
      SliceCounts(vals, shifted, lims, b.ncol, from, to, l + 1, q);
      ShiftedCount(b.assign, shifted, |shifted|, b.ncol, q, l);
    }
    MakeServes(b, slice, l);
  }

  lemma GroupedSize(vals: seq<int>, input: seq<int>, lims: seq<int>, ncol: nat, from: map<int, int>, to: map<int, int>)
    requires ncol > 0 && Grouped(vals, input, lims, ncol, from, to)
    ensures |vals| == |input|
  {
  }

  lemma IsInBucket(lims: seq<int>, p: int, b: nat)
    requires b < |lims| - 1 && lims[b] <= p < lims[b + 1]
    ensures InBucket(lims, p, b)
  {
  }

  lemma MakeServes(b: Batch, slice: seq<int>, l: nat)
    requires b.ncol > 0 && forall i :: 0 <= i < |slice| ==> 0 <= slice[i] < b.nq
    requires forall q: nat :: q < b.nq ==> multiset(slice)[q] == CellCount(b.assign, |b.assign|, b.ncol, q, l)
    ensures Serves(b, slice, l)
  {
  }

  /** How grouping the queries by list ends; -1 stands for no list and has a bucket of its own. */
  function ReorderOutcome(b: Batch): Outcome {
    if b.nlist + 1 >= |b.assign| then Refused
    else if exists i :: 0 <= i < |b.assign| && !(-1 <= b.assign[i] <= b.nlist) then Overrun
    else if b.nlist in b.assign then Refused
    else Outcome.Sorted
  }

  lemma OutcomeOfShifted(b: Batch, shifted: seq<int>)
    requires |shifted| == |b.assign| && forall i :: 0 <= i < |shifted| ==> shifted[i] == b.assign[i] + 1
    ensures S.ParallelOutcome(shifted, b.nlist + 1) == ReorderOutcome(b)
    ensures ReorderOutcome(b) == Outcome.Sorted ==> forall i :: 0 <= i < |shifted| ==> 0 <= shifted[i] < b.nlist + 1
  {
    if i :| 0 <= i < |b.assign| && !(-1 <= b.assign[i] <= b.nlist) {
      assert !(0 <= shifted[i] < b.nlist + 2);
    }
  }

  /** The rows that a checkpoint file holds. */
  type Snapshot = seq<seq<Entry>>

  /** They are result heaps into which these lists have been merged. */
  ghost predicate Snaps(b: Batch, rows: Snapshot, merged: seq<nat>) {
    && GoodBatch(b) && |rows| == b.nq
    && (forall q: nat :: q < b.nq ==> SearchHeap(rows[q], Total(b, q, merged), b.k))
    && forall i :: 0 <= i < |merged| ==> merged[i] < b.nlist
  }

  method CopyOut(rows: seq<array<Entry>>) returns (copy: Snapshot)
    ensures |copy| == |rows| && forall q :: 0 <= q < |rows| ==> copy[q] == rows[q][..]
  {
    copy := [];
    for q := 0 to |rows|
      invariant |copy| == q && forall p :: 0 <= p < q ==> copy[p] == rows[p][..]
    {
      copy := copy + [rows[q][..]];
    }
  }

  method CopyIn(rows: seq<array<Entry>>, copy: Snapshot, k: nat)
    requires Rows(rows, k) && |copy| == |rows| && forall q :: 0 <= q < |copy| ==> |copy[q]| == k
    modifies rows
    ensures forall q :: 0 <= q < |rows| ==> rows[q][..] == copy[q]
  {
    for q := 0 to |rows|
      invariant forall p :: 0 <= p < q ==> rows[p][..] == copy[p]
    {
      CopyRow(rows[q], copy[q]);
    }
  }

  method CopyRow(row: array<Entry>, copy: seq<Entry>)
    requires row.Length == |copy|
    modifies row
    ensures row[..] == copy
  {
    for j := 0 to |copy|
      invariant row[..j] == copy[..j]
    {
      row[j] := copy[j];
    }
  }

  /** The result heaps, the regrouped queries and the drivers that merge lists one after the other. */
  class BigBatchSearcher {
    const b: Batch
    const rh: seq<array<Entry>>
    var queryIds: seq<int>
    var bucketLims: seq<int>

    /** Every heap holds the nearest of what its query got from the lists merged so far. */
    ghost predicate Holding(merged: seq<nat>)
      reads rh
    {
      && GoodBatch(b) && |rh| == b.nq && AllHold(rh, Totals(b, merged), b.k)
      && forall i :: 0 <= i < |merged| ==> merged[i] < b.nlist
    }

    ghost predicate Regrouped()
      reads this
    {
      && b.ncol > 0 && |bucketLims| == b.nlist + 1
      && forall l: nat :: l < b.nlist ==> GoodSlice(l)
    }

    ghost predicate GoodSlice(l: nat)
      requires b.ncol > 0 && |bucketLims| == b.nlist + 1 && l < b.nlist
      reads this
    {
      && 0 <= bucketLims[l] <= bucketLims[l + 1] <= |queryIds|
      && Serves(b, queryIds[bucketLims[l]..bucketLims[l + 1]], l)
    }

    lemma RegroupedShape()
      requires Regrouped()
      ensures b.ncol > 0
    {
    }

    constructor (b: Batch)
      requires GoodBatch(b)
      ensures this.b == b && Holding([]) && fresh(rh)
    {
      var heaps := NewHeaps(b.nq, b.k);
      this.b, rh := b, heaps;
      queryIds, bucketLims := [], [];
      new;
      NothingMerged(b);
    }

    /** Groups the queries by list. Refused when there are not more cells than buckets, or when a cell
        names the list past the last one; larger numbers are counted past the end of a histogram, and those
        below -1 before its start. */
    method ReorderAssign() returns (outcome: Outcome)
      requires GoodBatch(b) && IsMatrix(|b.assign|, b.nq, b.ncol)
      modifies this
      ensures outcome == ReorderOutcome(b)
      ensures outcome == Outcome.Sorted ==> Regrouped()
    {
      hide *;
      GoodShape(b);
      var vals := new int[|b.assign|](i requires 0 <= i < |b.assign| => b.assign[i] + 1);
      ghost var shifted := vals[..];
      assert forall i :: 0 <= i < |shifted| ==> shifted[i] == b.assign[i] + 1;
      var nbucket := b.nlist + 1;
      var lims := new int[nbucket + 1];
      var checks;
      ghost var from, to;
      outcome, checks, from, to := S.SortWithThreads(vals, b.nq, b.ncol, nbucket, lims, 16, 4);
      OutcomeOfShifted(b, shifted);
      if outcome == Outcome.Sorted {
        Regroup(vals[..], shifted, lims[..nbucket + 1], from, to);
      }
    }

    method Regroup(vals: seq<int>, ghost shifted: seq<int>, lims: seq<int>, ghost from: map<int, int>,
                   ghost to: map<int, int>)
      requires b.ncol > 0 && |lims| == b.nlist + 2 && IsMatrix(|b.assign|, b.nq, b.ncol)
      requires |shifted| == |b.assign| && forall i :: 0 <= i < |shifted| ==> shifted[i] == b.assign[i] + 1
      requires forall i :: 0 <= i < |shifted| ==> 0 <= shifted[i] < b.nlist + 1
      requires Grouped(vals, shifted, lims, b.ncol, from, to) && Limits(lims, shifted)
      modifies this
      ensures Regrouped()
    {
      hide Grouped, Limits, IsMatrix, Serves;
      queryIds, bucketLims := vals, lims[1..];
      forall l: nat | l < b.nlist
        ensures GoodSlice(l)
      {
        RegroupedSlice(b, vals, shifted, lims, from, to, l);
      }
    }

    /** The heaps become sorted rows. */
    method Finalize(ghost merged: seq<nat>)
      requires Holding(merged)
      modifies rh
      ensures forall q :: 0 <= q < b.nq ==> q < |rh| && ResultRow(rh[q][..], Total(b, q, merged), b.k)
    {
      SortHeaps(b, rh, merged);
    }

    /** write_checkpoint: the rows as they are. */
    method WriteCheckpoint(ghost merged: seq<nat>) returns (rows: Snapshot)
      requires Holding(merged)
      ensures Snaps(b, rows, merged)
    {
      hide *;
      rows := CopyOut(rh);
      HoldingSnaps(rows, merged);
    }

    lemma HoldingSnaps(rows: Snapshot, merged: seq<nat>)
      requires Holding(merged) && |rows| == |rh| && forall q :: 0 <= q < |rh| ==> rows[q] == rh[q][..]
      ensures Snaps(b, rows, merged)
    {
      GoodShape(b);
      hide GoodBatch, SearchHeap, Total;
      forall q: nat | q < b.nq
        ensures SearchHeap(rows[q], Total(b, q, merged), b.k)
      {
        assert Holds(rh[q], Totals(b, merged)[q], b.k);
      }
    }

    /** read_checkpoint: the rows come back into the heaps. */
    method ReadCheckpoint(rows: Snapshot, ghost before: seq<nat>, ghost merged: seq<nat>)
      requires Holding(before) && Snaps(b, rows, merged)
      modifies rh
      ensures Holding(merged)
    {
      hide *;
      RestoreShape(rows, before, merged);
      CopyIn(rh, rows, b.k);
      SnapsHolding(rows, merged);
    }

    lemma RestoreShape(rows: Snapshot, before: seq<nat>, merged: seq<nat>)
      requires Holding(before) && Snaps(b, rows, merged)
      ensures |rh| == |rows| == b.nq && Rows(rh, b.k) && forall q :: 0 <= q < |rows| ==> |rows[q]| == b.k
    {
      hide GoodBatch, Total, IsHeap, KeepsNearest, Rows;
    }

    lemma SnapsHolding(rows: Snapshot, merged: seq<nat>)
      requires Snaps(b, rows, merged) && |rh| == b.nq && Rows(rh, b.k)
      requires |rows| == |rh| && forall q :: 0 <= q < |rh| ==> rh[q][..] == rows[q]
      ensures Holding(merged)
    {
      GoodShape(b);
      hide GoodBatch, SearchHeap, Total;
      forall q | 0 <= q < |rh|
        ensures Holds(rh[q], Totals(b, merged)[q], b.k)
      {
        assert SearchHeap(rows[q], Total(b, q, merged), b.k);
      }
    }

    method PrepareBucket(l: nat) returns (slice: seq<int>)
      requires Regrouped() && l < b.nlist
      ensures Serves(b, slice, l)
    {
      assert GoodSlice(l);
      hide Serves;
      slice := queryIds[bucketLims[l]..bucketLims[l + 1]];
    }

    /** Merges what the block computation found in list l for the queries of its slice. */
    method AddResultsToHeap(slice: seq<int>, l: nat, ghost merged: seq<nat>)
      requires Holding(merged) && l < b.nlist && Serves(b, slice, l)
      modifies rh
      ensures Holding(merged + [l])
    {
      PartialStarts(b, merged, l);
      PartialEnds(b, merged, slice, l);
      hide AllHold, Totals, Partial, GoodBatch;
      MergeSlice(slice, l, merged);
    }

    method MergeSlice(slice: seq<int>, l: nat, ghost merged: seq<nat>)
      requires GoodBatch(b) && |rh| == b.nq && l < b.nlist
      requires forall i :: 0 <= i < |slice| ==> 0 <= slice[i] < b.nq
      requires forall i :: 0 <= i < |merged| ==> merged[i] < b.nlist
      requires AllHold(rh, Partial(b, merged, [], l), b.k)
      modifies rh
      ensures AllHold(rh, Partial(b, merged, slice, l), b.k)
    {
      hide *;
      ghost var done: seq<int> := [];
      assert b.ncol > 0 by { GoodShape(b); }
      for si := 0 to |slice|
        invariant done == slice[..si]
        invariant AllHold(rh, Partial(b, merged, done, l), b.k)
      {
        AddQuery(slice[si], l, merged, done);
        done := done + [slice[si]];
      }
      assert done == slice;
    }

    /** One query of the slice. */
    method AddQuery(q: nat, l: nat, ghost merged: seq<nat>, ghost done: seq<int>)
      requires GoodBatch(b) && |rh| == b.nq && q < b.nq && l < b.nlist
      requires forall i :: 0 <= i < |merged| ==> merged[i] < b.nlist
      requires AllHold(rh, Partial(b, merged, done, l), b.k)
      modifies rh
      ensures AllHold(rh, Partial(b, merged, done + [q], l), b.k)
    {
      ghost var seen := Partial(b, merged, done, l);
      assert |seen| == b.nq;
      PartialIsGenuine(b, merged, done, l, q);
      ghost var found, scan := Near(b.found(q, l)), multiset(b.scan(q, l));
      assert Genuine(scan) && Summarises(found, scan, b.k);
      assert found <= scan;
      hide AllHold, Partial, Summarises, Genuine, Near, GoodBatch;
      AddRow(rh, q, b.k, b.found(q, l), scan, seen);
      SummaryHolds(rh, q, b.k, found, scan, seen);
      PartialStep(b, merged, done, l, q);
    }

    /** threaded=0: one list after the other. */
    method Sequential(start: nat, end: nat, ghost before: seq<nat>) returns (ghost merged: seq<nat>)
      requires Holding(before) && Regrouped() && end <= b.nlist
      modifies rh
      ensures Holding(merged) && merged == before + Upward(start, end)
    {
      hide *;
      RegroupedShape();
      merged := before;
      if start >= end {
        UpwardEmpty(start, end);
        return;
      }
      UpwardEmpty(start, start);
      for l := start to end
        invariant Holding(merged) && Regrouped() && merged == before + Upward(start, l)
      {
        var slice := PrepareBucket(l);
        UpwardSnoc(start, l);
        AddResultsToHeap(slice, l, merged);
        merged := merged + [l];
      }
    }

    /** threaded=1: while a list is computed, the results of the one before are merged and the next one is
        prepared. On an empty range it fails, as there is nothing to merge at the end. */
    method Pipelined(start: nat, end: nat, ghost before: seq<nat>) returns (ok: bool, ghost merged: seq<nat>)
      requires Holding(before) && Regrouped() && end <= b.nlist
      modifies rh
      ensures ok <==> start < end
      ensures Holding(merged) && merged == before + Upward(start, end)
    {
      hide *;
      RegroupedShape();
      merged := before;
      if start >= b.nlist {
        UpwardEmpty(start, end);
        return false, merged;
      }
      var prefetched := PrepareBucket(start);
      var toAdd: seq<int>, added := [], -1;
      var l := start;
      UpwardEmpty(start, start);
      while l < end
        invariant Holding(merged) && Regrouped()
        invariant start <= l && (l <= end || l == start) && added == if l == start then -1 else l - 1
        invariant merged == before + Upward(start, if l == start then l else l - 1)
        invariant l < end ==> Serves(b, prefetched, l)
        invariant added >= 0 ==> Serves(b, toAdd, added)
      {
        var next: seq<int> := [];
        if added >= 0 {
          UpwardSnoc(start, added);
          AddResultsToHeap(toAdd, added, merged);
          merged := merged + [added];
        }
        if l + 1 < b.nlist {
          next := PrepareBucket(l + 1);
        }
        toAdd, added := prefetched, l;
        prefetched := next;
        l := l + 1;
      }
      if added < 0 {
        UpwardEmpty(start, end);
        return false, merged;
      }
      UpwardSnoc(start, added);
      AddResultsToHeap(toAdd, added, merged);
      merged := merged + [added];
      return true, merged;
    }
  }

  /** No list comes twice. */
  ghost predicate NoRepeats(order: seq<nat>) {
    forall l: nat :: multiset(order)[l] <= 1
  }

  lemma CountsWithRange(before: seq<nat>, start: nat, end: nat, l: nat)
    ensures multiset(before + Upward(start, end))[l] == multiset(before)[l] + if start <= l < end then 1 else 0
  {
    UpwardIsSpan(start, end);
    hide Upward;
    assert multiset(P.Span(start, end))[l] == if start <= l < end then 1 else 0;
  }

  /** A driver that does not look at the completed set, started on heaps restored from a checkpoint, merges
      no list twice exactly when no restored list is in its range. */
  lemma RestoredListsRepeat(before: seq<nat>, start: nat, end: nat)
    requires NoRepeats(before)
    ensures NoRepeats(before + Upward(start, end)) <==> (forall l :: l in before ==> !(start <= l < end))
  {
    hide Upward;
    var order: seq<nat> := before + Upward(start, end);
    forall l: nat
      ensures multiset(order)[l] == multiset(before)[l] + if start <= l < end then 1 else 0
    {
      CountsWithRange(before, start, end, l);
    }
    if l: nat :| l in before && start <= l < end {
      assert multiset(before)[l] >= 1;
      assert multiset(order)[l] >= 2;
    } else {
      forall l: nat
        ensures multiset(order)[l] <= 1
      {
        assert l in before <==> multiset(before)[l] > 0;
        assert multiset(before)[l] <= 1;
      }
    }
  }

  /** With a checkpoint the range must be that of all lists, and then any restored list repeats. */
  lemma AnyRestoredListRepeats(before: seq<nat>, nlist: nat)
    requires NoRepeats(before) && forall i :: 0 <= i < |before| ==> before[i] < nlist
    ensures NoRepeats(before + Upward(0, nlist)) <==> before == []
  {
    RestoredListsRepeat(before, 0, nlist);
    hide Upward, NoRepeats;
    assert before != [] ==> before[0] in before;
  }

  /** One list of two entries, for one query. */
  function TwoEntries(q: nat, l: nat): seq<Entry> {
    if q == 0 && l == 0 then [Entry(1, 7), Entry(2, 8)] else []
  }

  /** Merged on top of itself the list pushes its second entry out: the query gets the nearest one twice. */
  lemma RestoredRowIsWrong(b: Batch, row: seq<Entry>, own: seq<Entry>)
    requires b == Batch(1, 1, 2, [0, -1, -1], 3, TwoEntries, TwoEntries)
    requires ResultRow(row, Total(b, 0, [0] + Upward(0, 1)), 2)
    requires ResultRow(own, Visit(b, 0, 3, 0, 1), 2)
    ensures GoodBatch(b) && ReorderOutcome(b) == Outcome.Sorted
    ensures row[0].dis == row[1].dis == 1 && own[0].dis == 1 && own[1].dis == 2
  {
    var near, far := Entry(1, 7), Entry(2, 8);
    TwoEntriesAreGood(b);
    TwiceMerged(b);
    TwoNearest(near, far);
    hide *;
    ResultRowsAgree(row, [near, near], multiset{near, far, near, far}, 2);
    ResultRowsAgree(own, [near, far], multiset{near, far}, 2);
    assert [near, near][0] == [near, near][1] == near && [near, far][0] == near && [near, far][1] == far;
  }

  lemma NearestKept(row: multiset<Entry>, cands: multiset<Entry>, k: nat, t: int)
    requires |row| == k && row <= cands && t <= MAX_DIS && forall x :: x in row ==> x.dis <= t
    requires forall y :: y in cands - row ==> t <= y.dis
    ensures KeepsNearest(row, cands, k)
  {
    forall x, y | x in row && y in cands + Pads(k) - row
      ensures x.dis <= y.dis
    {
      assert y in cands - row || y == NEUTRAL;
    }
  }

  lemma MakeRow(row: seq<Entry>, cands: multiset<Entry>)
    requires |row| == 2 && row[0].dis <= row[1].dis && KeepsNearest(multiset(row), cands, 2)
    ensures ResultRow(row, cands, 2)
  {
    hide KeepsNearest;
  }

  lemma TwoNearest(near: Entry, far: Entry)
    requires near.dis < far.dis < MAX_DIS
    ensures ResultRow([near, near], multiset{near, far, near, far}, 2)
    ensures ResultRow([near, far], multiset{near, far}, 2)
  {
    hide KeepsNearest;
    assert multiset([near, near]) == multiset{near, near};
    assert multiset([near, far]) == multiset{near, far};
    assert multiset{near, far, near, far} - multiset{near, near} == multiset{far, far};
    assert multiset{near, far} - multiset{near, far} == multiset{};
    hide *;
    NearestKept(multiset{near, near}, multiset{near, far, near, far}, 2, near.dis);
    NearestKept(multiset{near, far}, multiset{near, far}, 2, far.dis);
    MakeRow([near, near], multiset{near, far, near, far});
    MakeRow([near, far], multiset{near, far});
  }

  lemma TwiceMerged(b: Batch)
    requires b == Batch(1, 1, 2, [0, -1, -1], 3, TwoEntries, TwoEntries)
    ensures Total(b, 0, [0] + Upward(0, 1)) == multiset{Entry(1, 7), Entry(2, 8), Entry(1, 7), Entry(2, 8)}
    ensures Visit(b, 0, 3, 0, 1) == multiset{Entry(1, 7), Entry(2, 8)}
  {
    OneListAsked(b);
    hide Part;
    ListMajorIsQueryMajor(b, 0, 0, 1);
    TotalSnoc(b, 0, [0], 0);
    TotalSnoc(b, 0, [], 0);
    assert Upward(0, 1) == [0] && [] + [0] == [0];
    assert Total(b, 0, []) == multiset{};
    hide Total, Visit, Upward;
  }

  lemma TwoEntriesAreGood(b: Batch)
    requires b == Batch(1, 1, 2, [0, -1, -1], 3, TwoEntries, TwoEntries)
    ensures GoodBatch(b) && ReorderOutcome(b) == Outcome.Sorted
  {
    var near, far := Entry(1, 7), Entry(2, 8);
    NothingNear();
    NearSnoc([], near);
    NearSnoc([near], far);
    assert [] + [near] == [near] && [near] + [far] == [near, far];
    var scan := multiset(b.scan(0, 0));
    assert b.scan(0, 0) == b.found(0, 0) == [near, far] && scan == multiset{near, far};
    assert Near(b.found(0, 0)) == scan;
    assert Summarises(scan, scan, 2) by {
      assert scan - scan == multiset{};
    }
    hide Near, Summarises;
  }

  lemma OneListAsked(b: Batch)
    requires b == Batch(1, 1, 2, [0, -1, -1], 3, TwoEntries, TwoEntries)
    ensures Part(b, 0, 0) == multiset{Entry(1, 7), Entry(2, 8)}
  {
    assert CellCount(b.assign, 1, 3, 0, 0) == CellCount(b.assign, 2, 3, 0, 0) == CellCount(b.assign, 3, 3, 0, 0) == 1;
    var scan := multiset(b.scan(0, 0));
    assert scan == multiset{Entry(1, 7), Entry(2, 8)};
    assert Repeat(scan, 1) == Repeat(scan, 0) + scan;
  }

  // The queue pipeline.

  lemma LastOfSpan(lo: nat, last: nat)
    requires lo <= last
    ensures multiset(P.Span(lo, last + 1)) == multiset(P.Span(lo, last)) + multiset{last}
  {
    assert last !in P.Span(lo, last);
    P.SetOfUnion(P.Span(lo, last), last);
  }

  lemma LastOfUpward(lo: nat, last: nat)
    requires lo <= last
    ensures multiset(Upward(lo, last + 1)) == multiset(Upward(lo, last)) + multiset{last}
  {
    var front: seq<nat> := Upward(lo, last);
    assert multiset(front + [last]) == multiset(front) + multiset{last};
  }

  lemma NothingInSpan(lo: nat, hi: nat)
    requires hi <= lo
    ensures multiset(Upward(lo, hi)) == multiset(P.Span(lo, hi)) == multiset{}
  {
  }

  lemma {:induction false} UpwardIsSpan(lo: nat, hi: nat)
    ensures multiset(Upward(lo, hi)) == multiset(P.Span(lo, hi))
  {
    hide *;
    if lo < hi {
      UpwardIsSpan(lo, hi - 1);
      LastOfSpan(lo, hi - 1);
      LastOfUpward(lo, hi - 1);
    } else {
      NothingInSpan(lo, hi);
    }
  }

  /** When the pipeline has finished, every query has got what going through its own lists gives. */
  lemma FinishedTotal(b: Batch, c: P.Config, states: seq<P.State>, events: seq<P.Event>, i: nat, q: nat)
    requires b.ncol > 0 && P.Staffed(c) && P.IsRun(c, states, events) && i < |states| && states[i].main == P.Finished
    ensures Total(b, q, states[i].merged) == Visit(b, q, |b.assign|, c.first, c.last)
  {
    P.EachListMergedOnce(c, states, events, i);
    hide *;
    UpwardIsSpan(c.first, c.last);
    TotalIgnoresOrder(b, q, states[i].merged, Upward(c.first, c.last));
    ListMajorIsQueryMajor(b, q, c.first, c.last);
  }

  ghost predicate OnDisk(b: Batch, file: Option<Snapshot>, dump: Option<P.Dump>) {
    && (file.Some? <==> dump.Some?)
    && (file.Some? ==> Snaps(b, file.value, dump.value.merged))
  }

  /** The heaps of the process and those in its files are what its state says. */
  ghost predicate Carries(bbs: BigBatchSearcher, b: Batch, temp: Option<Snapshot>, file: Option<Snapshot>, s: P.State)
    reads bbs, bbs.rh
  {
    && bbs.b == b && bbs.Regrouped() && bbs.Holding(s.merged)
    && OnDisk(b, temp, s.temp) && OnDisk(b, file, s.file)
  }

  /** A process starts, and reads the checkpoint if there is one. */
  method StartProcess(b: Batch, file: Option<Snapshot>, ghost merged: seq<nat>)
    returns (outcome: Outcome, bbs: BigBatchSearcher)
    requires GoodBatch(b) && IsMatrix(|b.assign|, b.nq, b.ncol)
    requires if file.Some? then Snaps(b, file.value, merged) else merged == []
    ensures fresh(bbs) && fresh(bbs.rh) && bbs.b == b
    ensures outcome == ReorderOutcome(b)
    ensures outcome == Outcome.Sorted ==> bbs.Regrouped() && bbs.Holding(merged)
  {
    hide *;
    bbs := new BigBatchSearcher(b);
    outcome := bbs.ReorderAssign();
    if file.Some? {
      bbs.ReadCheckpoint(file.value, [], merged);
    }
  }

  /** What a step does to heaps and files. */
  ghost predicate Touches(s: P.State, step: P.Step, t: P.State) {
    match step
    case Merge => s.main.Merging? && t.merged == s.merged + [s.main.l] && t.temp == s.temp && t.file == s.file
    case Write => t.temp.Some? && t.temp.value.merged == s.merged == t.merged && t.file == s.file
    case Replace => t.file == s.temp && t.temp.None? && t.merged == s.merged
    case _ => t.merged == s.merged && t.temp == s.temp && t.file == s.file
  }

  lemma StepTouches(c: P.Config, s: P.State, step: P.Step)
    requires P.Enabled(c, s, step)
    ensures Touches(s, step, P.Apply(c, s, step))
  {
  }

  /** One step of any thread. Only the main thread touches heaps and files. */
  method Perform(bbs: BigBatchSearcher, b: Batch, c: P.Config, s: P.State, step: P.Step, temp: Option<Snapshot>,
                 file: Option<Snapshot>)
    returns (temp': Option<Snapshot>, file': Option<Snapshot>)
    requires Carries(bbs, b, temp, file, s) && P.Enabled(c, s, step)
    requires s.main.Merging? ==> s.main.l < b.nlist
    modifies bbs.rh
    ensures Carries(bbs, b, temp', file', P.Apply(c, s, step))
  {
    hide Snaps, P.Enabled, P.Apply, BigBatchSearcher.Holding, BigBatchSearcher.Regrouped, Serves;
    StepTouches(c, s, step);
    temp', file' := temp, file;
    match step {
      case Merge =>
        var slice := bbs.PrepareBucket(s.main.l);
        bbs.AddResultsToHeap(slice, s.main.l, s.merged);
      case Write =>
        var rows := bbs.WriteCheckpoint(s.merged);
        temp' := Some(rows);
      case Replace =>
        temp', file' := None, temp;
      case _ =>
    }
  }

  lemma MergingIsInRange(c: P.Config, s: P.State)
    requires P.Invariant(c, s) && s.main.Merging?
    ensures s.main.l < c.last
  {
    assert P.OnceIfClaimed(c, s, s.main.l);
    assert P.Copies(s, s.main.l) >= 1;
  }

  lemma NextEvent(c: P.Config, states: seq<P.State>, events: seq<P.Event>, i: nat)
    requires P.IsRun(c, states, events) && i < |events|
    ensures P.Happens(c, states[i], events[i], states[i + 1])
    ensures states[i].main.Merging? ==> states[i].main.l < c.last
  {
    P.InvariantAlways(c, states, events, i);
    assert P.Happens(c, states[i], events[i], states[i + 1]);
    hide *;
    if states[i].main.Merging? {
      MergingIsInRange(c, states[i]);
    }
  }

  lemma RunStarts(b: Batch, c: P.Config, states: seq<P.State>, events: seq<P.Event>, bbs: BigBatchSearcher)
    requires P.IsRun(c, states, events) && bbs.b == b && bbs.Regrouped() && bbs.Holding([])
    ensures |states| == |events| + 1 && states[0] == P.Start(c, None) && Carries(bbs, b, None, None, states[0])
  {
    hide BigBatchSearcher.Regrouped, BigBatchSearcher.Holding, Snaps, P.Happens;
  }

  /** The process that starts after a crash has the heaps of the checkpoint. */
  method Restart(b: Batch, c: P.Config, s: P.State, temp: Option<Snapshot>, file: Option<Snapshot>,
                 ghost bbs: BigBatchSearcher)
    returns (outcome: Outcome, bbs': BigBatchSearcher, file': Option<Snapshot>)
    requires GoodBatch(b) && IsMatrix(|b.assign|, b.nq, b.ncol)
    requires Carries(bbs, b, temp, file, s)
    ensures fresh(bbs') && fresh(bbs'.rh)
    ensures outcome == ReorderOutcome(b)
    ensures outcome == Outcome.Sorted ==>
      Carries(bbs', b, None, file', P.Start(c, if c.checkpoints then s.file else None))
  {
    hide Snaps, IsMatrix, GoodBatch, ReorderOutcome, BigBatchSearcher.Holding, BigBatchSearcher.Regrouped;
    file' := if c.checkpoints then file else None;
    ghost var t := P.Start(c, if c.checkpoints then s.file else None);
    outcome, bbs' := StartProcess(b, file', t.merged);
  }

  /** The whole queue pipeline, with its crashes: whatever the threads do and wherever it crashes, the
      heaps hold the nearest of what their queries have got, and once the main thread has finished every
      query has the k nearest entries of its own lists. */
  method RunPipeline(b: Batch, c: P.Config, events: seq<P.Event>, ghost states: seq<P.State>)
    returns (outcome: Outcome, rows: seq<array<Entry>>)
    requires GoodBatch(b) && IsMatrix(|b.assign|, b.nq, b.ncol)
    requires P.Staffed(c) && c.last <= b.nlist && P.IsRun(c, states, events)
    ensures outcome == ReorderOutcome(b)
    ensures outcome == Outcome.Sorted ==> b.ncol > 0 && |rows| == b.nq
    ensures outcome == Outcome.Sorted ==> forall q: nat :: q < b.nq ==>
      if states[|events|].main == P.Finished then
        ResultRow(rows[q][..], Visit(b, q, |b.assign|, c.first, c.last), b.k)
      else
        SearchHeap(rows[q][..], Total(b, q, states[|events|].merged), b.k)
  {
    hide *;
    GoodShape(b);
    var bbs;
    outcome, bbs := StartProcess(b, None, []);
    rows := bbs.rh;
    if outcome != Outcome.Sorted {
      return;
    }
    RunStarts(b, c, states, events, bbs);
    var s := P.Start(c, None);
    var temp, file := None, None;
    for i := 0 to |events|
      invariant |states| == |events| + 1 && s == states[i]
      invariant fresh(bbs) && fresh(bbs.rh) && outcome == Outcome.Sorted == ReorderOutcome(b)
      invariant Carries(bbs, b, temp, file, s)
    {
      NextEvent(c, states, events, i);
      TheEvent(c, s, events[i], states[i + 1]);
      match events[i] {
        case Do(step) =>
          temp, file := Perform(bbs, b, c, s, step, temp, file);
          s := P.Apply(c, s, step);
        case Crash =>
          outcome, bbs, file := Restart(b, c, s, temp, file, bbs);
          temp := None;
          s := P.Start(c, if c.checkpoints then s.file else None);
      }
    }
    rows := bbs.rh;
    CarriesHeaps(bbs, b, temp, file, s);
    if s.main == P.Finished {
      bbs.Finalize(s.merged);
      forall q: nat | q < b.nq
        ensures ResultRow(rows[q][..], Visit(b, q, |b.assign|, c.first, c.last), b.k)
      {
        FinishedTotal(b, c, states, events, |events|, q);
      }
    }
  }

  lemma TheEvent(c: P.Config, s: P.State, e: P.Event, t: P.State)
    requires P.Happens(c, s, e, t)
    ensures e.Do? ==> P.Enabled(c, s, e.step) && t == P.Apply(c, s, e.step)
    ensures e.Crash? ==> t == P.Start(c, if c.checkpoints then s.file else None)
  {
  }

  lemma CarriesHeaps(bbs: BigBatchSearcher, b: Batch, temp: Option<Snapshot>, file: Option<Snapshot>, s: P.State)
    requires Carries(bbs, b, temp, file, s)
    ensures bbs.b == b && bbs.Holding(s.merged) && |bbs.rh| == b.nq && b.ncol > 0
    ensures forall q: nat :: q < b.nq ==> SearchHeap(bbs.rh[q][..], Total(b, q, s.merged), b.k)
  {
    GoodShape(b);
    hide GoodBatch, SearchHeap, Total, Snaps;
    forall q: nat | q < b.nq
      ensures SearchHeap(bbs.rh[q][..], Total(b, q, s.merged), b.k)
    {
      assert Holds(bbs.rh[q], Totals(b, s.merged)[q], b.k);
    }
  }
}
