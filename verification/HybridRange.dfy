/**
 Range search emulated by a k-nearest search with a fallback for the queries that have more results
 (contrib/exhaustive_search.py, range_search_gpu; CombinerRangeKNN in faiss/utils/utils.cpp).
 */
module HybridRange {

  import opened AdaptiveRange
  import opened Rearrangements

  /** x is at least as close as y. */
  predicate NoFurther(x: Hit, y: Hit, keepMax: bool) {
    if keepMax then x.dis >= y.dis else x.dis <= y.dis
  }

  /** The row of a k-nearest search: k of the hits, closest first, none left out closer than one kept. */
  ghost predicate NearestRow(row: seq<Hit>, all: seq<Hit>, k: nat, keepMax: bool) {
    && |row| == k && multiset(row) <= multiset(all)
    && (forall i, j :: 0 <= i < j < k ==> NoFurther(row[i], row[j], keepMax))
    && forall i, y :: 0 <= i < k && y in multiset(all) - multiset(row) ==> NoFurther(row[i], y, keepMax)
  }

  /** The first entries of the row, up to one outside the radius. */
  function CountIn(row: seq<Hit>, radius: int, keepMax: bool): (n: nat)
    ensures n <= |row|
    ensures forall i :: 0 <= i < n ==> Inside(row[i], radius, keepMax)
    ensures n < |row| ==> !Inside(row[n], radius, keepMax)
  {
    if row == [] || !Inside(row[0], radius, keepMax) then 0 else 1 + CountIn(row[1..], radius, keepMax)
  }

  /** What a query gets: its row up to the radius, or a range search when the whole row is inside it. */
  function Part(row: seq<Hit>, all: seq<Hit>, masked: bool, radius: int, keepMax: bool): seq<Hit> {
    if masked then Filter(all, radius, keepMax) else row[..CountIn(row, radius, keepMax)]
  }

  lemma {:induction false} FilterMembers(hits: seq<Hit>, radius: int, keepMax: bool, h: Hit)
    ensures multiset(Filter(hits, radius, keepMax))[h] ==
      if Inside(h, radius, keepMax) then multiset(hits)[h] else 0
  {
    if hits != [] {
      var n := |hits| - 1;
      FilterMembers(hits[..n], radius, keepMax, h);
      assert hits == hits[..n] + [hits[n]];
    }
  }

  /** Behind an entry outside the radius all are outside. */
  lemma BackIsOutside(row: seq<Hit>, all: seq<Hit>, k: nat, radius: int, keepMax: bool)
    requires NearestRow(row, all, k, keepMax)
    ensures forall i :: CountIn(row, radius, keepMax) <= i < k ==> !Inside(row[i], radius, keepMax)
  {
    var n := CountIn(row, radius, keepMax);
    forall i | n < i < k
      ensures !Inside(row[i], radius, keepMax)
    {
      assert NoFurther(row[n], row[i], keepMax);
    }
  }

  lemma FrontMembers(front: seq<Hit>, back: seq<Hit>, radius: int, keepMax: bool, h: Hit)
    requires forall i :: 0 <= i < |front| ==> Inside(front[i], radius, keepMax)
    requires forall i :: 0 <= i < |back| ==> !Inside(back[i], radius, keepMax)
    ensures multiset(front)[h] == if Inside(h, radius, keepMax) then multiset(front + back)[h] else 0
  {
    assert Inside(h, radius, keepMax) ==> h !in back;
    assert !Inside(h, radius, keepMax) ==> h !in front;
  }

  lemma LeftOutIsOutside(row: seq<Hit>, all: seq<Hit>, k: nat, radius: int, keepMax: bool, y: Hit)
    requires k > 0 && NearestRow(row, all, k, keepMax) && !Inside(row[k - 1], radius, keepMax)
    requires multiset(all)[y] > multiset(row)[y]
    ensures !Inside(y, radius, keepMax)
  {
    assert y in multiset(all) - multiset(row);
    assert NoFurther(row[k - 1], y, keepMax);
  }

  lemma PrefixMembers(row: seq<Hit>, n: nat, radius: int, keepMax: bool, h: Hit)
    requires n <= |row|
    requires forall i :: 0 <= i < n ==> Inside(row[i], radius, keepMax)
    requires forall i :: n <= i < |row| ==> !Inside(row[i], radius, keepMax)
    ensures multiset(row[..n])[h] == if Inside(h, radius, keepMax) then multiset(row)[h] else 0
  {
    assert row == row[..n] + row[n..];
    FrontMembers(row[..n], row[n..], radius, keepMax, h);
  }

  lemma SameCount(row: seq<Hit>, all: seq<Hit>, k: nat, radius: int, keepMax: bool, h: Hit)
    requires k > 0 && NearestRow(row, all, k, keepMax) && !Inside(row[k - 1], radius, keepMax)
    ensures multiset(row[..CountIn(row, radius, keepMax)])[h] == multiset(Filter(all, radius, keepMax))[h]
  {
    var n := CountIn(row, radius, keepMax);
    BackIsOutside(row, all, k, radius, keepMax);
    assert |row| == k && multiset(row)[h] <= multiset(all)[h];
    hide *;
    PrefixMembers(row, n, radius, keepMax, h);
    FilterMembers(all, radius, keepMax, h);
    if multiset(all)[h] > multiset(row)[h] {
      LeftOutIsOutside(row, all, k, radius, keepMax, h);
    }
  }

  /** The emulation is exact when the last entry of the row is not inside the radius. */
  lemma RowIsExact(row: seq<Hit>, all: seq<Hit>, k: nat, radius: int, keepMax: bool)
    requires k > 0 && NearestRow(row, all, k, keepMax) && !Inside(row[k - 1], radius, keepMax)
    ensures multiset(row[..CountIn(row, radius, keepMax)]) == multiset(Filter(all, radius, keepMax))
  {
    hide *;
    var front, found := row[..CountIn(row, radius, keepMax)], Filter(all, radius, keepMax);
    forall h: Hit
      ensures multiset(front)[h] == multiset(found)[h]
    {
      SameCount(row, all, k, radius, keepMax, h);
    }
    SameCounts(front, found);
  }

  lemma SameCounts(a: seq<Hit>, b: seq<Hit>)
    requires forall h: Hit :: multiset(a)[h] == multiset(b)[h]
    ensures multiset(a) == multiset(b)
  {
  }

  /** Every query gets exactly the hits inside the radius, as a multiset, when there is a fallback. */
  lemma HybridIsExact(row: seq<Hit>, all: seq<Hit>, k: nat, radius: int, keepMax: bool)
    requires k > 0 && NearestRow(row, all, k, keepMax)
    ensures multiset(Part(row, all, Inside(row[k - 1], radius, keepMax), radius, keepMax)) ==
      multiset(Filter(all, radius, keepMax))
  {
    if !Inside(row[k - 1], radius, keepMax) {
      RowIsExact(row, all, k, radius, keepMax);
    }
  }

  /** A row that lies inside the radius is part of what a range search finds. */
  lemma WholeRow(row: seq<Hit>, all: seq<Hit>, radius: int, keepMax: bool)
    requires multiset(row) <= multiset(all) && CountIn(row, radius, keepMax) == |row|
    ensures multiset(row) <= multiset(Filter(all, radius, keepMax))
  {
    assert forall i :: 0 <= i < |row| ==> Inside(row[i], radius, keepMax);
    hide Filter, CountIn;
    forall h: Hit
      ensures multiset(row)[h] <= multiset(Filter(all, radius, keepMax))[h]
    {
      FilterMembers(all, radius, keepMax, h);
      if h in row {
        var i :| 0 <= i < |row| && row[i] == h;
        assert Inside(row[i], radius, keepMax);
      }
    }
  }

  lemma SameSizes(a: seq<Hit>, b: seq<Hit>)
    requires multiset(a) == multiset(b)
    ensures |a| == |b|
  {
    assert |multiset(a)| == |a| && |multiset(b)| == |b|;
  }

  lemma LastInside(row: seq<Hit>, all: seq<Hit>, k: nat, radius: int, keepMax: bool)
    requires k > 0 && NearestRow(row, all, k, keepMax) && Inside(row[k - 1], radius, keepMax)
    ensures CountIn(row, radius, keepMax) == |row| == k && row[..k] == row && multiset(row) <= multiset(all)
  {
    BackIsOutside(row, all, k, radius, keepMax);
    hide CountIn;
  }

  /** Without a fallback a query gets exactly the hits inside the radius if and only if there are at most k
      of them. */
  lemma NoFallbackExactIff(row: seq<Hit>, all: seq<Hit>, k: nat, radius: int, keepMax: bool)
    requires k > 0 && NearestRow(row, all, k, keepMax)
    ensures multiset(Part(row, all, false, radius, keepMax)) == multiset(Filter(all, radius, keepMax)) <==>
      |Filter(all, radius, keepMax)| <= k
  {
    var n, found := CountIn(row, radius, keepMax), Filter(all, radius, keepMax);
    assert Part(row, all, false, radius, keepMax) == row[..n] && n <= |row| == k;
    hide *;
    if !Inside(row[k - 1], radius, keepMax) {
      RowIsExact(row, all, k, radius, keepMax);
      SameSizes(row[..n], found);
    } else {
      LastInside(row, all, k, radius, keepMax);
      WholeRow(row, all, radius, keepMax);
      if |found| <= k {
        assert |multiset(found)| == |found| && |multiset(row)| == k;
        SameSizeIncluded(multiset(row), multiset(found));
      } else if multiset(row) == multiset(found) {
        SameSizes(row, found);
      }
    }
  }

  // All queries.

  /** A search: a row and all hits for each query. */
  ghost predicate Searched(rows: seq<seq<Hit>>, alls: seq<seq<Hit>>, k: nat, keepMax: bool) {
    |rows| == |alls| && forall i :: 0 <= i < |rows| ==> NearestRow(rows[i], alls[i], k, keepMax)
  }

  /** The queries of the fallback search. */
  function Picked(alls: seq<seq<Hit>>, mask: seq<bool>): seq<seq<Hit>>
    requires |alls| == |mask|
  {
    if alls == [] then []
    else
      var n := |alls| - 1;
      Picked(alls[..n], mask[..n]) + if mask[n] then [alls[n]] else []
  }

  function Parts(rows: seq<seq<Hit>>, alls: seq<seq<Hit>>, mask: seq<bool>, radius: int, keepMax: bool): seq<seq<Hit>>
    requires |rows| == |alls| == |mask|
  {
    seq(|rows|, i requires 0 <= i < |rows| => Part(rows[i], alls[i], mask[i], radius, keepMax))
  }

  lemma PickedSnoc(alls: seq<seq<Hit>>, mask: seq<bool>, i: nat)
    requires i < |alls| == |mask|
    ensures Picked(alls[..i + 1], mask[..i + 1]) == Picked(alls[..i], mask[..i]) + if mask[i] then [alls[i]] else []
  {
    assert alls[..i + 1][..i] == alls[..i] && mask[..i + 1][..i] == mask[..i];
  }

  lemma {:induction false} PickedPrefix(alls: seq<seq<Hit>>, mask: seq<bool>, i: nat)
    requires i < |alls| == |mask| && mask[i]
    ensures var j := |Picked(alls[..i], mask[..i])|;
      j < |Picked(alls, mask)| && Picked(alls, mask)[j] == alls[i] && Picked(alls, mask)[..j] == Picked(alls[..i], mask[..i])
  {
    var n := |alls| - 1;
    if i < n {
      PickedPrefix(alls[..n], mask[..n], i);
      assert alls[..n][..i] == alls[..i] && mask[..n][..i] == mask[..i];
    }
  }

  /** Where the results of the j-th fallback query start. */
  ghost predicate Starts(lims: seq<nat>, queries: seq<seq<Hit>>, radius: int, keepMax: bool) {
    && |lims| == |queries| + 1
    && forall j :: 0 <= j <= |queries| ==> lims[j] == |Range(queries[..j], radius, keepMax).hits|
  }

  /** The slice of the fallback results for query i. */
  lemma FallbackSlice(alls: seq<seq<Hit>>, mask: seq<bool>, lims: seq<nat>, radius: int, keepMax: bool, i: nat)
    requires i < |alls| == |mask| && mask[i] && Starts(lims, Picked(alls, mask), radius, keepMax)
    ensures var j, hits := |Picked(alls[..i], mask[..i])|, Range(Picked(alls, mask), radius, keepMax).hits;
      && j + 1 < |lims| && lims[j] <= lims[j + 1] <= |hits|
      && hits[lims[j]..lims[j + 1]] == Filter(alls[i], radius, keepMax)
  {
    var queries, j := Picked(alls, mask), |Picked(alls[..i], mask[..i])|;
    PickedPrefix(alls, mask, i);
    hide Picked, Range, Filter;
    HitsOfQuery(queries, j, radius, keepMax);
    RangeSnoc(queries, j, radius, keepMax);
  }

  lemma FlatSnoc(parts: seq<seq<Hit>>, i: nat)
    requires i < |parts|
    ensures Flat(parts[..i + 1]) == Flat(parts[..i]) + parts[i]
  {
    assert parts[..i + 1][..i] == parts[..i];
  }

  lemma {:induction false} FlatGrows(parts: seq<seq<Hit>>, i: nat)
    requires i <= |parts|
    ensures |Flat(parts[..i])| <= |Flat(parts)|
  {
    if i == |parts| {
      assert parts[..i] == parts;
    } else {
      FlatGrows(parts[..|parts| - 1], i);
      assert parts[..|parts| - 1][..i] == parts[..i];
    }
  }

  /** Length of the first entries inside the radius, counted along the row. */
  method CountRow(row: seq<Hit>, radius: int, keepMax: bool) returns (n: nat)
    ensures n == CountIn(row, radius, keepMax)
  {
    n := 0;
    assert row[0..] == row;
    while n < |row| && Inside(row[n], radius, keepMax)
      invariant n <= |row| && n + CountIn(row[n..], radius, keepMax) == CountIn(row, radius, keepMax)
    {
      assert row[n..][1..] == row[n + 1..];
      n := n + 1;
    }
  }

  /** The combiner: the sizes, their cumulative sum in place, then the results at their places. */
  class Combiner {
    const rows: seq<seq<Hit>>
    const radius: int
    const keepMax: bool
    const mask: seq<bool>
    const remaining: seq<Hit>
    const limRemain: seq<nat>
    ghost const alls: seq<seq<Hit>>

    ghost predicate Valid() {
      && |rows| == |alls| == |mask|
      && remaining == Range(Picked(alls, mask), radius, keepMax).hits
      && Starts(limRemain, Picked(alls, mask), radius, keepMax)
    }

    ghost function Wanted(): seq<seq<Hit>>
      requires Valid()
    {
      Parts(rows, alls, mask, radius, keepMax)
    }

    constructor (rows: seq<seq<Hit>>, radius: int, keepMax: bool, mask: seq<bool>, remaining: seq<Hit>,
                 limRemain: seq<nat>, ghost alls: seq<seq<Hit>>)
      requires |rows| == |alls| == |mask| && remaining == Range(Picked(alls, mask), radius, keepMax).hits
      requires Starts(limRemain, Picked(alls, mask), radius, keepMax)
      ensures Valid() && this.alls == alls && this.rows == rows && this.mask == mask
      ensures this.radius == radius && this.keepMax == keepMax
    {
      this.rows, this.radius, this.keepMax, this.mask := rows, radius, keepMax, mask;
      this.remaining, this.limRemain, this.alls := remaining, limRemain, alls;
    }

    method ComputeSizes(lres: array<nat>)
      requires Valid() && lres.Length == |rows| + 1
      modifies lres
      ensures forall i :: 0 <= i <= |rows| ==> lres[i] == |Flat(Wanted()[..i])|
    {
      hide Picked, Range, Filter, Starts, CountIn, Flat;
      lres[0] := 0;
      var j := 0;
      ghost var parts := Wanted();
      assert |Picked(alls[..0], mask[..0])| == 0 by { NothingPicked(alls, mask); }
      for i := 0 to |rows|
        invariant lres[0] == 0 && j == |Picked(alls[..i], mask[..i])|
        invariant forall m :: 0 < m <= i ==> lres[m] == |parts[m - 1]|
      {
        PickedSnoc(alls, mask, i);
        var n := 0;
        if !mask[i] {
          n := CountRow(rows[i], radius, keepMax);
        } else {
          FallbackSlice(alls, mask, limRemain, radius, keepMax, i);
          n := limRemain[j + 1] - limRemain[j];
          j := j + 1;
        }
        lres[i + 1] := n;
      }
      assert |Flat(parts[..0])| == 0 by { NothingFlat(parts); }
      for i := 0 to |rows|
        invariant forall m :: 0 <= m <= i ==> lres[m] == |Flat(parts[..m])|
        invariant forall m :: i < m <= |rows| ==> lres[m] == |parts[m - 1]|
      {
        FlatSnoc(parts, i);
        lres[i + 1] := lres[i + 1] + lres[i];
      }
    }

    method WriteResult(lres: seq<nat>, res: array<Hit>)
      requires Valid() && |lres| == |rows| + 1 && res.Length == lres[|rows|]
      requires forall i :: 0 <= i <= |rows| ==> lres[i] == |Flat(Wanted()[..i])|
      modifies res
      ensures res[..] == Flat(Wanted())
    {
      hide Picked, Range, Filter, Starts, CountIn, Flat;
      var j := 0;
      ghost var parts := Wanted();
      assert parts[..|rows|] == parts;
      assert |Picked(alls[..0], mask[..0])| == 0 by { NothingPicked(alls, mask); }
      assert |Flat(parts[..0])| == 0 by { NothingFlat(parts); }
      for i := 0 to |rows|
        invariant j == |Picked(alls[..i], mask[..i])|
        invariant lres[i] <= res.Length && res[..lres[i]] == Flat(parts[..i])
      {
        PickedSnoc(alls, mask, i);
        FlatSnoc(parts, i);
        FlatGrows(parts, i + 1);
        var n := lres[i + 1] - lres[i];
        var source: seq<Hit>;
        if !mask[i] {
          source := rows[i][..n];
        } else {
          FallbackSlice(alls, mask, limRemain, radius, keepMax, i);
          source := remaining[limRemain[j]..limRemain[j] + n];
          j := j + 1;
        }
        assert source == parts[i];
        Copy(res, lres[i], source);
      }
    }
  }

  lemma NothingPicked(alls: seq<seq<Hit>>, mask: seq<bool>)
    requires |alls| == |mask|
    ensures Picked(alls[..0], mask[..0]) == []
  {
  }

  lemma NothingFlat(parts: seq<seq<Hit>>)
    ensures Flat(parts[..0]) == []
  {
  }

  method Copy(res: array<Hit>, at: nat, source: seq<Hit>)
    requires at + |source| <= res.Length
    modifies res
    ensures res[..at + |source|] == old(res[..at]) + source
  {
    forall i | 0 <= i < |source| {
      res[at + i] := source[i];
    }
  }

  /** The results of each query in turn: with a fallback exactly what a plain range search gives it. */
  method RangeSearch(rows: seq<seq<Hit>>, alls: seq<seq<Hit>>, k: nat, radius: int, keepMax: bool, fallback: bool)
    returns (lres: array<nat>, res: array<Hit>, ghost parts: seq<seq<Hit>>)
    requires k > 0 && Searched(rows, alls, k, keepMax)
    ensures |parts| == |rows| && lres.Length == |rows| + 1 && res[..] == Flat(parts)
    ensures forall i :: 0 <= i <= |rows| ==> lres[i] == |Flat(parts[..i])|
    ensures forall i :: 0 <= i < |rows| ==>
      parts[i] == Part(rows[i], alls[i], fallback && Inside(rows[i][k - 1], radius, keepMax), radius, keepMax)
    ensures fallback ==>
      forall i :: 0 <= i < |rows| ==> multiset(parts[i]) == multiset(Filter(alls[i], radius, keepMax))
  {
    var mask := seq(|rows|, i requires 0 <= i < |rows| => fallback && |rows[i]| == k && Inside(rows[i][k - 1], radius, keepMax));
    var queries := Picked(alls, mask);
    var remaining := Range(queries, radius, keepMax).hits;
    var limRemain: seq<nat> := seq(|queries| + 1, j requires 0 <= j <= |queries| => |Range(queries[..j], radius, keepMax).hits|);
    parts := Parts(rows, alls, mask, radius, keepMax);
    if fallback {
      forall i | 0 <= i < |rows|
        ensures multiset(parts[i]) == multiset(Filter(alls[i], radius, keepMax))
      {
        HybridIsExact(rows[i], alls[i], k, radius, keepMax);
      }
    }
    var combiner := new Combiner(rows, radius, keepMax, mask, remaining, limRemain, alls);
    lres := new nat[|rows| + 1];
    combiner.ComputeSizes(lres);
    hide Flat, Picked, Range;
    res := new Hit[lres[|rows|]](_ => Hit(0, 0));
    combiner.WriteResult(lres[..], res);
  }
}
