/**
 What a search heap holds: the k nearest of the candidates offered so far, filled up with neutral
 entries. The rows of two searches that saw the same candidates in different orders agree.
 */
module Nearest {
  import opened Heaps
  import opened Rearrangements

  function Pads(k: nat): multiset<Entry> {
    multiset{}[NEUTRAL := k]
  }

  /** Candidates have real ids and distances below the neutral one. */
  ghost predicate Genuine(cands: multiset<Entry>) {
    forall e :: e in cands ==> e.id != -1 && e.dis < MAX_DIS
  }

  /** row holds k of the candidates and pads, and none left out is nearer than one held. */
  ghost predicate KeepsNearest(row: multiset<Entry>, cands: multiset<Entry>, k: nat) {
    && |row| == k
    && row <= cands + Pads(k)
    && forall x, y :: x in row && y in cands + Pads(k) - row ==> x.dis <= y.dis
  }

  /** A row of a search in progress. */
  ghost predicate SearchHeap(row: seq<Entry>, cands: multiset<Entry>, k: nat) {
    IsHeap(row) && |row| == k && KeepsNearest(multiset(row), cands, k)
  }

  /** A finished row. */
  ghost predicate ResultRow(row: seq<Entry>, cands: multiset<Entry>, k: nat) {
    |row| == k && KeepsNearest(multiset(row), cands, k) && SortedByDis(row)
  }

  lemma HeapOf(row: seq<Entry>, cands: multiset<Entry>, k: nat)
    requires SearchHeap(row, cands, k)
    ensures IsHeap(row) && |row| == k
  {
  }

  lemma EmptySearch(row: seq<Entry>, k: nat)
    requires |row| == k && forall j :: 0 <= j < k ==> row[j] == NEUTRAL
    ensures SearchHeap(row, multiset{}, k)
  {
    AllNeutral(row);
    assert multiset(row) == Pads(k);
  }

  lemma {:induction false} AllNeutral(row: seq<Entry>)
    requires forall j :: 0 <= j < |row| ==> row[j] == NEUTRAL
    ensures multiset(row) == Pads(|row|)
  {
    if row != [] {
      AllNeutral(row[1..]);
      assert row == [NEUTRAL] + row[1..];
    }
  }

  /** An entry that is not nearer than the top of the heap changes nothing. */
  lemma OfferRejected(row: seq<Entry>, cands: multiset<Entry>, k: nat, e: Entry)
    requires SearchHeap(row, cands, k) && k > 0
    requires e.dis >= row[0].dis
    ensures SearchHeap(row, cands + multiset{e}, k)
  {
    LargestOnTop(row);
    var all := cands + multiset{e} + Pads(k);
    assert all == cands + Pads(k) + multiset{e};
    forall x, y | x in multiset(row) && y in all - multiset(row)
      ensures x.dis <= y.dis
    {
      assert !Gt(x, row[0]);
      if y !in cands + Pads(k) - multiset(row) {
        assert y == e;
      }
    }
  }

  lemma Exchange(row: multiset<Entry>, all: multiset<Entry>, top: Entry, e: Entry)
    requires top in row && row <= all
    ensures row - multiset{top} + multiset{e} <= all + multiset{e}
    ensures all + multiset{e} - (row - multiset{top} + multiset{e}) == all - row + multiset{top}
  {
  }

  lemma ExchangeKeepsNearest(row: multiset<Entry>, cands: multiset<Entry>, k: nat, top: Entry, e: Entry)
    requires KeepsNearest(row, cands, k)
    requires top in row && e.dis < top.dis && forall x :: x in row ==> x.dis <= top.dis
    ensures KeepsNearest(row - multiset{top} + multiset{e}, cands + multiset{e}, k)
  {
    var all, next := cands + Pads(k), row - multiset{top} + multiset{e};
    Exchange(row, all, top, e);
    assert cands + multiset{e} + Pads(k) == all + multiset{e};
    forall x, y | x in next && y in all - row + multiset{top}
      ensures x.dis <= y.dis
    {
      assert x == e || x in row;
      assert y == top || y in all - row;
    }
  }

  /** A nearer one takes the place of the top. */
  lemma OfferAccepted(row: seq<Entry>, next: seq<Entry>, cands: multiset<Entry>, k: nat, e: Entry)
    requires SearchHeap(row, cands, k) && k > 0
    requires e.dis < row[0].dis
    requires IsHeap(next) && |next| == k && multiset(next) == multiset(row[0 := e])
    ensures SearchHeap(next, cands + multiset{e}, k)
  {
    LargestOnTop(row);
    assert row == [row[0]] + row[1..] && row[0 := e] == [e] + row[1..];
    assert multiset(next) == multiset(row) - multiset{row[0]} + multiset{e};
    ExchangeKeepsNearest(multiset(row), cands, k, row[0], e);
  }

  lemma RealMembers(s: seq<Entry>)
    requires AllReal(s)
    ensures forall e :: e in multiset(s) ==> e.id != -1
  {
    forall e | e in multiset(s)
      ensures e.id != -1
    {
      var j :| 0 <= j < |s| && s[j] == e;
    }
  }

  /** A row of k entries whose only unreal ones are neutral is its real ones and pads. */
  lemma RealsAndPads(row: multiset<Entry>, reals: multiset<Entry>, k: nat)
    requires |row| == k && SameReals(reals, row)
    requires forall e :: e in reals ==> e.id != -1
    requires forall e :: e in row ==> e.id != -1 || e == NEUTRAL
    ensures |reals| <= k && row == reals + Pads(k - |reals|)
  {
    assert row[NEUTRAL := 0] == reals;
    assert row == reals + Pads(row[NEUTRAL]);
    assert |row| == |reals| + |Pads(row[NEUTRAL])|;
  }

  lemma SortedThenPads(final: seq<Entry>, n: nat)
    requires n <= |final| && Sorted(final[..n])
    requires forall j :: 0 <= j < |final| ==> final[j].dis <= MAX_DIS
    requires forall j :: n <= j < |final| ==> final[j] == NEUTRAL
    ensures SortedByDis(final)
  {
    forall i, j | 0 <= i < j < |final|
      ensures final[i].dis <= final[j].dis
    {
      if j < n {
        assert !Gt(final[..n][i], final[..n][j]);
      }
    }
  }

  lemma HeapEntries(row: seq<Entry>, cands: multiset<Entry>, k: nat)
    requires SearchHeap(row, cands, k) && Genuine(cands)
    ensures forall e :: e in multiset(row) ==> (e.id != -1 || e == NEUTRAL) && e.dis <= MAX_DIS
  {
    hide IsHeap;
    forall e | e in multiset(row)
      ensures (e.id != -1 || e == NEUTRAL) && e.dis <= MAX_DIS
    {
      assert e in cands + Pads(k);
    }
  }

  /** heap_reorder keeps the entries of a search heap. */
  lemma ReorderKeepsRow(row: seq<Entry>, final: seq<Entry>, n: nat, cands: multiset<Entry>, k: nat)
    requires SearchHeap(row, cands, k) && Genuine(cands)
    requires n <= k == |final|
    requires Sorted(final[..n]) && AllReal(final[..n]) && SameReals(multiset(final[..n]), multiset(row))
    requires forall j :: n <= j < k ==> final[j] == NEUTRAL
    ensures ResultRow(final, cands, k)
  {
    RealMembers(final[..n]);
    HeapEntries(row, cands, k);
    assert |row| == k && KeepsNearest(multiset(row), cands, k);
    hide IsHeap, Sorted, SameReals, AllReal, KeepsNearest, Genuine, SortedByDis;
    RealsAndPads(multiset(row), multiset(final[..n]), k);
    assert final == final[..n] + final[n..];
    AllNeutral(final[n..]);
    assert multiset(final) == multiset(row);
    forall j | 0 <= j < k
      ensures final[j].dis <= MAX_DIS
    {
      assert final[j] in multiset(final);
    }
    SortedThenPads(final, n);
  }

  lemma PrefixOfNearer(s: seq<Entry>, n: nat, m: multiset<Entry>, t: int)
    requires n <= |s| && m <= multiset(s)
    requires forall e :: e in m ==> e.dis <= t
    requires forall j :: n <= j < |s| ==> s[j].dis > t
    ensures m <= multiset(s[..n])
  {
    assert s == s[..n] + s[n..];
    forall e | e in multiset(s[n..])
      ensures e.dis > t
    {
      var j :| 0 <= j < |s[n..]| && s[n..][j] == e;
      assert s[n + j].dis > t;
    }
  }

  ghost predicate SortedByDis(s: seq<Entry>) {
    forall i, j :: 0 <= i < j < |s| ==> s[i].dis <= s[j].dis
  }

  /** A row that is further at j misses something that the other row has up to j. */
  lemma FrontIsMissed(a: seq<Entry>, b: seq<Entry>, j: nat) returns (e: Entry)
    requires SortedByDis(a) && SortedByDis(b) && j < |a| == |b|
    requires a[j].dis < b[j].dis
    ensures multiset(a)[e] > multiset(b)[e] && e.dis <= a[j].dis
  {
    var front := multiset(a[..j + 1]);
    FrontIsNear(a, j);
    FrontDiffers(a, b, j, front);
    hide *;
    e :| e in front && front[e] > multiset(b)[e];
    assert a == a[..j + 1] + a[j + 1..];
    assert multiset(a) == front + multiset(a[j + 1..]);
  }

  lemma FrontIsNear(a: seq<Entry>, j: nat)
    requires SortedByDis(a) && j < |a|
    ensures forall e :: e in multiset(a[..j + 1]) ==> e.dis <= a[j].dis
  {
    forall e | e in multiset(a[..j + 1])
      ensures e.dis <= a[j].dis
    {
      var i :| 0 <= i < j + 1 && a[..j + 1][i] == e;
      assert a[i] == e;
    }
  }

  lemma FrontDiffers(a: seq<Entry>, b: seq<Entry>, j: nat, front: multiset<Entry>)
    requires SortedByDis(b) && j < |a| == |b| && a[j].dis < b[j].dis && front == multiset(a[..j + 1])
    requires forall e :: e in front ==> e.dis <= a[j].dis
    ensures exists e :: e in front && front[e] > multiset(b)[e]
  {
    if front <= multiset(b) {
      assert forall i :: j <= i < |b| ==> b[i].dis > a[j].dis;
      hide *;
      PrefixOfNearer(b, j, front, a[j].dis);
      IncludedIsSmaller(front, multiset(b[..j]));
      assert false;
    }
  }

  lemma AbsentIsNoNearer(row: multiset<Entry>, cands: multiset<Entry>, k: nat, e: Entry, x: Entry)
    requires KeepsNearest(row, cands, k)
    requires (cands + Pads(k))[e] > row[e] && x in row
    ensures x.dis <= e.dis
  {
    assert e in cands + Pads(k) - row;
  }

  lemma RowsAgreeAt(a: seq<Entry>, b: seq<Entry>, cands: multiset<Entry>, k: nat, j: nat)
    requires ResultRow(a, cands, k) && ResultRow(b, cands, k) && j < k
    ensures a[j].dis >= b[j].dis
  {
    if a[j].dis < b[j].dis {
      var e := FrontIsMissed(a, b, j);
      assert multiset(a)[e] <= (cands + Pads(k))[e];
      AbsentIsNoNearer(multiset(b), cands, k, e, b[j]);
      assert false;
    }
  }

  /** The distances of the k nearest candidates do not depend on how they were found. */
  lemma ResultRowsAgree(a: seq<Entry>, b: seq<Entry>, cands: multiset<Entry>, k: nat)
    requires ResultRow(a, cands, k) && ResultRow(b, cands, k)
    ensures forall j :: 0 <= j < k ==> a[j].dis == b[j].dis
  {
    forall j | 0 <= j < k
      ensures a[j].dis == b[j].dis
    {
      RowsAgreeAt(a, b, cands, k, j);
      RowsAgreeAt(b, a, cands, k, j);
    }
  }

  lemma PartKeepsNearest(m: multiset<Entry>, all: multiset<Entry>, part: multiset<Entry>, k: nat, t: int)
    requires KeepsNearest(m, all, k) && part <= all && t < MAX_DIS
    requires forall e: Entry :: e.dis <= t ==> part[e] == all[e]
    requires forall e :: e in m ==> e.dis <= t
    ensures KeepsNearest(m, part, k)
  {
    forall e | e in m
      ensures m[e] <= (part + Pads(k))[e]
    {
      assert part[e] == all[e];
    }
    forall x, y | x in m && y in part + Pads(k) - m
      ensures x.dis <= y.dis
    {
      assert (part + Pads(k))[y] <= (all + Pads(k))[y];
      assert y in all + Pads(k) - m;
    }
  }

  lemma RowUpTo(row: seq<Entry>, t: int)
    requires SortedByDis(row) && (row != [] ==> row[|row| - 1].dis <= t)
    ensures forall e :: e in multiset(row) ==> e.dis <= t
  {
    forall e | e in multiset(row)
      ensures e.dis <= t
    {
      var j :| 0 <= j < |row| && row[j] == e;
      assert row[j].dis <= row[|row| - 1].dis;
    }
  }

  /** A finished row over all candidates is one over a part that holds everything up to its last
      distance. */
  lemma NearestOfPart(row: seq<Entry>, all: multiset<Entry>, part: multiset<Entry>, k: nat, t: int)
    requires ResultRow(row, all, k) && part <= all && t < MAX_DIS
    requires forall e: Entry :: e.dis <= t ==> part[e] == all[e]
    requires k > 0 ==> row[k - 1].dis <= t
    ensures ResultRow(row, part, k)
  {
    RowUpTo(row, t);
    hide KeepsNearest, SortedByDis;
    PartKeepsNearest(multiset(row), all, part, k, t);
  }
}
