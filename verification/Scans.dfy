/**
 Stored binary vectors with their ids, and what an exhaustive scan of them reports.
 */
module Scans {
  import opened BinaryCodes
  import opened Heaps
  import opened Nearest

  datatype Item = Item(id: int, code: Code)

  ghost predicate OfWidth(items: seq<Item>, d: nat) {
    forall i :: 0 <= i < |items| ==> |items[i].code| == d
  }

  function Scanned(q: Code, it: Item): Entry
    requires |q| == |it.code|
  {
    Entry(Hamming(q, it.code), it.id)
  }

  /** Every item as the scan of a query reports it. */
  ghost function ScanAll(items: seq<Item>, q: Code, d: nat): multiset<Entry>
    requires OfWidth(items, d) && |q| == d
  {
    if items == [] then multiset{}
    else
      var n := |items| - 1;
      ScanAll(items[..n], q, d) + multiset{Scanned(q, items[n])}
  }

  lemma ScanAllSnoc(items: seq<Item>, it: Item, q: Code, d: nat)
    requires OfWidth(items, d) && |q| == d && |it.code| == d
    ensures ScanAll(items + [it], q, d) == ScanAll(items, q, d) + multiset{Scanned(q, it)}
  {
    assert (items + [it])[..|items|] == items;
  }

  lemma {:induction false} ScanAllIsGenuine(items: seq<Item>, q: Code, d: nat)
    requires OfWidth(items, d) && |q| == d && d < MAX_DIS
    requires forall i :: 0 <= i < |items| ==> items[i].id != -1
    ensures Genuine(ScanAll(items, q, d))
  {
    if items != [] {
      ScanAllIsGenuine(items[..|items| - 1], q, d);
    }
  }
}
