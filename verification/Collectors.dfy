/**
 The two consumers of a scan: range results and k nearest results (faiss/IndexBinaryHash.cpp,
 RangeSearchResults and KnnSearchResults). A scan is the sequence of (distance, id) it adds.
 */
module Collectors {
  import opened Heaps
  import opened Nearest

  /** res holds the scanned entries closer than the radius, each as often as it was scanned. */
  ghost predicate RangeOf(res: multiset<Entry>, scanned: multiset<Entry>, radius: int) {
    forall e: Entry :: res[e] == if e.dis < radius then scanned[e] else 0
  }

  method CollectRange(scan: seq<Entry>, radius: int) returns (res: seq<Entry>)
    ensures RangeOf(multiset(res), multiset(scan), radius)
  {
    res := [];
    for i := 0 to |scan|
      invariant RangeOf(multiset(res), multiset(scan[..i]), radius)
    {
      assert scan[..i + 1] == scan[..i] + [scan[i]];
      if scan[i].dis < radius {
        res := res + [scan[i]];
      }
    }
    assert scan[..|scan|] == scan;
  }

  /** Runs a scan through the heap row a[o..o+k] and sorts the row. */
  method CollectNearest(scan: seq<Entry>, a: array<Entry>, o: nat, k: nat)
    requires 0 < k && o + k <= a.Length
    modifies a
    ensures Genuine(multiset(scan)) ==> ResultRow(a[o..o + k], multiset(scan), k)
    ensures forall p :: 0 <= p < a.Length && !(o <= p < o + k) ==> a[p] == old(a[p])
  {
    hide *;
    Heapify(a, o, k);
    EmptySearch(a[o..o + k], k);
    assert scan[..0] == [];
    for i := 0 to |scan|
      invariant SearchHeap(a[o..o + k], multiset(scan[..i]), k)
      invariant forall p :: 0 <= p < a.Length && !(o <= p < o + k) ==> a[p] == old(a[p])
    {
      ghost var row := a[o..o + k];
      assert scan[..i + 1] == scan[..i] + [scan[i]];
      HeapOf(row, multiset(scan[..i]), k);
      if scan[i].dis < a[o..o + k][0].dis {
        ReplaceTop(a, o, k, scan[i]);
        OfferAccepted(row, a[o..o + k], multiset(scan[..i]), k, scan[i]);
      } else {
        OfferRejected(row, multiset(scan[..i]), k, scan[i]);
      }
    }
    assert scan[..|scan|] == scan;
    FinishRow(a, o, k, multiset(scan));
  }

  /** heap_reorder on the row of a search. */
  method FinishRow(a: array<Entry>, o: nat, k: nat, ghost cands: multiset<Entry>)
    requires o + k <= a.Length
    requires SearchHeap(a[o..o + k], cands, k)
    modifies a
    ensures Genuine(cands) ==> ResultRow(a[o..o + k], cands, k)
    ensures forall p :: 0 <= p < a.Length && !(o <= p < o + k) ==> a[p] == old(a[p])
  {
    hide *;
    ghost var row := a[o..o + k];
    HeapOf(row, cands, k);
    var n := Reorder(a, o, k);
    ghost var final := a[o..o + k];
    assert final[..n] == a[o..o + n];
    if Genuine(cands) {
      ReorderKeepsRow(row, final, n, cands, k);
    }
  }
}
