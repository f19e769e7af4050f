/**
 The two k nearest searches of the binary inverted file: one query after the other through the lists
 it probes, and one list after the other through the queries that probe it, four queries at a time
 (faiss/IndexBinaryIVF.cpp). Each query's row of the result matrix is an array of its own.
 */
module BinaryIvf {
  import opened BinaryCodes
  import opened Heaps
  import opened Nearest
  import opened Collectors
  import opened Scans
  import B = BucketSort

  datatype Ivf = Ivf(d: nat, lists: seq<seq<Item>>)

  ghost predicate ValidIvf(ivf: Ivf) {
    && ivf.d < MAX_DIS
    && forall l :: 0 <= l < |ivf.lists| ==> ValidList(ivf.lists[l], ivf.d)
  }

  ghost predicate ValidList(items: seq<Item>, d: nat) {
    OfWidth(items, d) && forall j :: 0 <= j < |items| ==> items[j].id != -1
  }

  ghost predicate ValidQueries(xs: seq<Code>, d: nat) {
    forall i :: 0 <= i < |xs| ==> |xs[i]| == d
  }

  ghost function ListScan(ivf: Ivf, q: Code, l: nat): multiset<Entry>
    requires ValidIvf(ivf) && |q| == ivf.d && l < |ivf.lists|
  {
    ScanAll(ivf.lists[l], q, ivf.d)
  }

  /** Row r holds the k nearest of the candidates seen so far, as a heap. */
  ghost predicate Holds(r: array<Entry>, cands: multiset<Entry>, k: nat)
    reads r
  {
    SearchHeap(r[..], cands, k)
  }

  /** The step shared by all scans: the entry replaces the top of the row if it is nearer. */
  method Offer(r: array<Entry>, k: nat, e: Entry, ghost cands: multiset<Entry>)
    requires k > 0 && r.Length == k && Holds(r, cands, k) && e.dis < r[0].dis
    modifies r
    ensures Holds(r, cands + multiset{e}, k)
  {
    ghost var row := r[..];
    assert r[0..0 + k] == row;
    hide IsHeap, KeepsNearest;
    ReplaceTop(r, 0, k, e);
    assert r[0..0 + k] == r[..];
    OfferAccepted(row, r[..], cands, k, e);
  }

  lemma Refuse(r: array<Entry>, k: nat, e: Entry, cands: multiset<Entry>)
    requires k > 0 && r.Length == k && Holds(r, cands, k) && e.dis >= r[0].dis
    ensures Holds(r, cands + multiset{e}, k)
  {
    hide IsHeap, KeepsNearest;
    OfferRejected(r[..], cands, k, e);
  }

  /** The candidates once the first j items of a list have been seen too. */
  ghost function SoFar(cands: multiset<Entry>, items: seq<Item>, j: int, q: Code, d: nat): multiset<Entry>
    requires OfWidth(items, d) && |q| == d && 0 <= j <= |items|
  {
    cands + ScanAll(items[..j], q, d)
  }

  lemma SoFarEnds(cands: multiset<Entry>, items: seq<Item>, q: Code, d: nat)
    requires OfWidth(items, d) && |q| == d
    ensures SoFar(cands, items, 0, q, d) == cands
    ensures SoFar(cands, items, |items|, q, d) == cands + ScanAll(items, q, d)
  {
    assert items[..|items|] == items;
  }

  lemma SoFarNext(cands: multiset<Entry>, items: seq<Item>, j: nat, q: Code, d: nat)
    requires OfWidth(items, d) && |q| == d && j < |items|
    ensures |items[j].code| == d
    ensures SoFar(cands, items, j + 1, q, d) == SoFar(cands, items, j, q, d) + multiset{Entry(Hamming(q, items[j].code), items[j].id)}
  {
    hide Hamming;
    assert items[..j + 1] == items[..j] + [items[j]];
    ScanAllSnoc(items[..j], items[j], q, d);
  }

  /** scan_codes of IVFBinaryScannerL2: one list against one query. */
  method ScanCodes(items: seq<Item>, q: Code, d: nat, r: array<Entry>, k: nat, ghost cands: multiset<Entry>)
    requires OfWidth(items, d) && |q| == d && k > 0 && r.Length == k && Holds(r, cands, k)
    modifies r
    ensures Holds(r, cands + ScanAll(items, q, d), k)
  {
    hide *;
    SoFarEnds(cands, items, q, d);
    for j := 0 to |items|
      invariant Holds(r, SoFar(cands, items, j, q, d), k)
    {
      SoFarNext(cands, items, j, q, d);
      var e := Entry(Hamming(q, items[j].code), items[j].id);
      if e.dis < r[0].dis {
        Offer(r, k, e, SoFar(cands, items, j, q, d));
      } else {
        Refuse(r, k, e, SoFar(cands, items, j, q, d));
      }
    }
  }

  /** What a query meets on its way through its keys: its candidates, or a key past the last list. */
  datatype Probe = Candidates(cands: multiset<Entry>) | BadKey

  ghost function Adding(m: multiset<Entry>, p: Probe): Probe {
    match p
    case Candidates(c) => Candidates(m + c)
    case BadKey => BadKey
  }

  lemma AddingFacts(m: multiset<Entry>, n: multiset<Entry>, p: Probe)
    ensures Adding(m, Adding(n, p)) == Adding(m + n, p)
    ensures Adding(multiset{}, p) == p && Adding(m, Candidates(multiset{})) == Candidates(m)
    ensures Adding(m, BadKey) == BadKey
  {
  }

  /** Negative keys are skipped, and the probing stops once maxCodes codes have been scanned (0 is no
      limit). */
  ghost function Probed(ivf: Ivf, q: Code, keys: seq<int>, scanned: nat, maxCodes: nat): Probe
    requires ValidIvf(ivf) && |q| == ivf.d
  {
    if keys == [] then Candidates(multiset{})
    else if keys[0] < 0 then Probed(ivf, q, keys[1..], scanned, maxCodes)
    else if keys[0] >= |ivf.lists| then BadKey
    else
      var now := scanned + |ivf.lists[keys[0]]|;
      Adding(ListScan(ivf, q, keys[0]),
             if maxCodes > 0 && now >= maxCodes then Candidates(multiset{}) else Probed(ivf, q, keys[1..], now, maxCodes))
  }

  lemma {:induction false} ProbedIsGenuine(ivf: Ivf, q: Code, keys: seq<int>, scanned: nat, maxCodes: nat)
    requires ValidIvf(ivf) && |q| == ivf.d
    ensures var p := Probed(ivf, q, keys, scanned, maxCodes); p.Candidates? ==> Genuine(p.cands)
  {
    if keys != [] {
      if keys[0] < 0 {
        ProbedIsGenuine(ivf, q, keys[1..], scanned, maxCodes);
      } else if keys[0] < |ivf.lists| {
        assert ValidList(ivf.lists[keys[0]], ivf.d);
        ScanAllIsGenuine(ivf.lists[keys[0]], q, ivf.d);
        ProbedIsGenuine(ivf, q, keys[1..], scanned + |ivf.lists[keys[0]]|, maxCodes);
      }
    }
  }

  /** After the first ik keys the candidates found are cands; the rest of the probing is ahead,
      unless the limit has stopped it. */
  ghost predicate Progress(ivf: Ivf, q: Code, keys: seq<int>, maxCodes: nat, ik: nat, nscan: nat, stop: bool, cands: multiset<Entry>)
    requires ValidIvf(ivf) && |q| == ivf.d && ik <= |keys|
  {
    Probed(ivf, q, keys, 0, maxCodes)
      == Adding(cands, if stop then Candidates(multiset{}) else Probed(ivf, q, keys[ik..], nscan, maxCodes))
  }

  lemma SkipKey(ivf: Ivf, q: Code, keys: seq<int>, maxCodes: nat, ik: nat, nscan: nat, cands: multiset<Entry>)
    requires ValidIvf(ivf) && |q| == ivf.d && ik < |keys| && keys[ik] < 0
    requires Progress(ivf, q, keys, maxCodes, ik, nscan, false, cands)
    ensures Progress(ivf, q, keys, maxCodes, ik + 1, nscan, false, cands)
  {
    assert keys[ik..][1..] == keys[ik + 1..];
  }

  lemma MeetBadKey(ivf: Ivf, q: Code, keys: seq<int>, maxCodes: nat, ik: nat, nscan: nat, cands: multiset<Entry>)
    requires ValidIvf(ivf) && |q| == ivf.d && ik < |keys| && keys[ik] >= |ivf.lists|
    requires Progress(ivf, q, keys, maxCodes, ik, nscan, false, cands)
    ensures Probed(ivf, q, keys, 0, maxCodes).BadKey?
  {
  }

  lemma ScanKey(ivf: Ivf, q: Code, keys: seq<int>, maxCodes: nat, ik: nat, nscan: nat, cands: multiset<Entry>)
    requires ValidIvf(ivf) && |q| == ivf.d && ik < |keys| && 0 <= keys[ik] < |ivf.lists|
    requires Progress(ivf, q, keys, maxCodes, ik, nscan, false, cands)
    ensures var now := nscan + |ivf.lists[keys[ik]]|;
      Progress(ivf, q, keys, maxCodes, ik + 1, now, maxCodes > 0 && now >= maxCodes, cands + ListScan(ivf, q, keys[ik]))
  {
    assert keys[ik..][1..] == keys[ik + 1..];
    var now := nscan + |ivf.lists[keys[ik]]|;
    var rest := if maxCodes > 0 && now >= maxCodes then Candidates(multiset{}) else Probed(ivf, q, keys[ik + 1..], now, maxCodes);
    AddingFacts(cands, ListScan(ivf, q, keys[ik]), rest);
  }

  lemma EndOfKeys(ivf: Ivf, q: Code, keys: seq<int>, maxCodes: nat, ik: nat, nscan: nat, stop: bool, cands: multiset<Entry>)
    requires ValidIvf(ivf) && |q| == ivf.d && ik <= |keys| && (stop || ik == |keys|)
    requires Progress(ivf, q, keys, maxCodes, ik, nscan, stop, cands)
    ensures Probed(ivf, q, keys, 0, maxCodes) == Candidates(cands)
  {
  }

  method ScanList(ivf: Ivf, q: Code, l: nat, r: array<Entry>, k: nat, ghost cands: multiset<Entry>)
    requires ValidIvf(ivf) && |q| == ivf.d && l < |ivf.lists| && k > 0 && r.Length == k && Holds(r, cands, k)
    modifies r
    ensures Holds(r, cands + ListScan(ivf, q, l), k)
  {
    ListWidth(ivf, l);
    hide Holds, ScanAll;
    ScanCodes(ivf.lists[l], q, ivf.d, r, k, cands);
  }

  /** The state of SearchQuery: the row holds the candidates found so far. */
  ghost predicate Probing(r: array<Entry>, ivf: Ivf, q: Code, keys: seq<int>, maxCodes: nat, k: nat,
                          ik: nat, nscan: nat, stop: bool, cands: multiset<Entry>)
    reads r
  {
    && ValidIvf(ivf) && |q| == ivf.d && k > 0 && r.Length == k && ik <= |keys|
    && Holds(r, cands, k) && Progress(ivf, q, keys, maxCodes, ik, nscan, stop, cands)
  }

  /** One turn of the loop over the keys. */
  method ProbeKey(r: array<Entry>, ivf: Ivf, q: Code, keys: seq<int>, maxCodes: nat, k: nat, ik: nat, nscan: nat,
                  ghost cands: multiset<Entry>)
    returns (ok: bool, nscan': nat, stop: bool, ghost cands': multiset<Entry>)
    requires Probing(r, ivf, q, keys, maxCodes, k, ik, nscan, false, cands) && ik < |keys|
    modifies r
    ensures ok ==> Probing(r, ivf, q, keys, maxCodes, k, ik + 1, nscan', stop, cands')
    ensures !ok ==> Probed(ivf, q, keys, 0, maxCodes).BadKey?
  {
    hide Holds, Probed, ValidIvf, Progress, ListScan;
    ok, nscan', stop, cands' := true, nscan, false, cands;
    var key := keys[ik];
    if key < 0 {
      SkipKey(ivf, q, keys, maxCodes, ik, nscan, cands);
    } else if key >= |ivf.lists| {
      MeetBadKey(ivf, q, keys, maxCodes, ik, nscan, cands);
      ok := false;
    } else {
      ScanKey(ivf, q, keys, maxCodes, ik, nscan, cands);
      ScanList(ivf, q, key, r, k, cands);
      cands' := cands + ListScan(ivf, q, key);
      nscan' := nscan + |ivf.lists[key]|;
      stop := maxCodes > 0 && nscan' >= maxCodes;
    }
  }

  lemma StartProbing(r: array<Entry>, ivf: Ivf, q: Code, keys: seq<int>, maxCodes: nat, k: nat)
    requires ValidIvf(ivf) && |q| == ivf.d && k > 0 && r.Length == k && Holds(r, multiset{}, k)
    ensures Probing(r, ivf, q, keys, maxCodes, k, 0, 0, false, multiset{})
  {
    hide Holds;
    assert keys[0..] == keys;
  }

  lemma EndProbing(r: array<Entry>, ivf: Ivf, q: Code, keys: seq<int>, maxCodes: nat, k: nat,
                   ik: nat, nscan: nat, stop: bool, cands: multiset<Entry>)
    requires Probing(r, ivf, q, keys, maxCodes, k, ik, nscan, stop, cands) && (stop || ik == |keys|)
    ensures Probed(ivf, q, keys, 0, maxCodes) == Candidates(cands) && Genuine(cands) && Holds(r, cands, k)
  {
    EndOfKeys(ivf, q, keys, maxCodes, ik, nscan, stop, cands);
    ProbedIsGenuine(ivf, q, keys, 0, maxCodes);
  }

  /** search_knn_hamming_heap for one query. */
  method SearchQuery(ivf: Ivf, q: Code, keys: seq<int>, maxCodes: nat, r: array<Entry>, k: nat) returns (ok: bool)
    requires ValidIvf(ivf) && |q| == ivf.d && k > 0 && r.Length == k
    modifies r
    ensures ok <==> Probed(ivf, q, keys, 0, maxCodes).Candidates?
    ensures ok ==> ResultRow(r[..], Probed(ivf, q, keys, 0, maxCodes).cands, k)
  {
    hide Holds, Probing, ResultRow, Probed, ValidIvf, Genuine;
    StartRow(r, k);
    StartProbing(r, ivf, q, keys, maxCodes, k);
    var ik, nscan, stop := 0, 0, false;
    ghost var cands := multiset{};
    while ik < |keys| && !stop
      invariant 0 <= ik <= |keys| && nscan >= 0
      invariant Probing(r, ivf, q, keys, maxCodes, k, ik, nscan, stop, cands)
    {
      ok, nscan, stop, cands := ProbeKey(r, ivf, q, keys, maxCodes, k, ik, nscan, cands);
      if !ok {
        return;
      }
      ik := ik + 1;
    }
    EndProbing(r, ivf, q, keys, maxCodes, k, ik, nscan, stop, cands);
    EndRow(r, k, cands);
    ok := true;
  }

  lemma ListWidth(ivf: Ivf, l: nat)
    requires ValidIvf(ivf) && l < |ivf.lists|
    ensures OfWidth(ivf.lists[l], ivf.d)
  {
    assert ValidList(ivf.lists[l], ivf.d);
  }

  method StartRow(r: array<Entry>, k: nat)
    requires r.Length == k
    modifies r
    ensures Holds(r, multiset{}, k)
  {
    Heapify(r, 0, k);
    EmptySearch(r[..], k);
  }

  method EndRow(r: array<Entry>, k: nat, ghost cands: multiset<Entry>)
    requires r.Length == k && Holds(r, cands, k)
    modifies r
    ensures Genuine(cands) ==> ResultRow(r[..], cands, k)
  {
    assert r[0..0 + k] == r[..];
    hide IsHeap, KeepsNearest, Sorted, AllReal, SameReals;
    ghost var row := r[..];
    HeapOf(row, cands, k);
    var n := Reorder(r, 0, k);
    ghost var final := r[..];
    assert final[..n] == r[0..0 + n] && r[0..0 + k] == final;
    if Genuine(cands) {
      ReorderKeepsRow(row, final, n, cands, k);
    }
  }

  /** The leftover loop of search_knn_hamming_per_invlist: one list against one query, with the top
      of the heap kept in a local variable. */
  method ScanCached(items: seq<Item>, q: Code, d: nat, r: array<Entry>, k: nat, ghost cands: multiset<Entry>)
    requires OfWidth(items, d) && |q| == d && k > 0 && r.Length == k && Holds(r, cands, k)
    modifies r
    ensures Holds(r, cands + ScanAll(items, q, d), k)
  {
    hide *;
    SoFarEnds(cands, items, q, d);
    var simi0 := r[0].dis;
    for j := 0 to |items|
      invariant Holds(r, SoFar(cands, items, j, q, d), k) && simi0 == r[0].dis
    {
      SoFarNext(cands, items, j, q, d);
      var e := Entry(Hamming(q, items[j].code), items[j].id);
      if e.dis < simi0 {
        Offer(r, k, e, SoFar(cands, items, j, q, d));
        simi0 := r[0].dis;
      } else {
        Refuse(r, k, e, SoFar(cands, items, j, q, d));
      }
    }
  }

  /** One row of k entries per query; different queries have different rows. */
  ghost predicate Rows(rows: seq<array<Entry>>, k: nat) {
    && (forall i :: 0 <= i < |rows| ==> rows[i].Length == k)
    && (forall i, j :: 0 <= i < j < |rows| ==> rows[i] != rows[j])
  }

  /** Rows of different queries, each a heap over its own candidates. */
  ghost predicate AllHold(rows: seq<array<Entry>>, cands: seq<multiset<Entry>>, k: nat)
    reads rows
  {
    && |rows| == |cands| && Rows(rows, k)
    && (forall i :: 0 <= i < |rows| ==> rows[i].Length == k && Holds(rows[i], cands[i], k))
  }

  lemma RowLength(rows: seq<array<Entry>>, cands: seq<multiset<Entry>>, k: nat)
    requires AllHold(rows, cands, k)
    ensures |rows| == |cands| && forall i :: 0 <= i < |rows| ==> rows[i].Length == k
  {
  }

  /** Row i takes an entry; the other rows and their tops stay. */
  method OfferTo(rows: seq<array<Entry>>, i: nat, k: nat, e: Entry, ghost cands: seq<multiset<Entry>>)
    requires k > 0 && AllHold(rows, cands, k) && i < |rows|
    requires rows[i].Length == k && e.dis < rows[i][0].dis
    modifies rows[i]
    ensures AllHold(rows, cands[i := cands[i] + multiset{e}], k)
    ensures forall j :: 0 <= j < |rows| && j != i ==> rows[j] != rows[i]
  {
    hide Holds;
    Offer(rows[i], k, e, cands[i]);
  }

  lemma RefuseTo(rows: seq<array<Entry>>, i: nat, k: nat, e: Entry, cands: seq<multiset<Entry>>)
    requires k > 0 && AllHold(rows, cands, k) && i < |rows|
    requires rows[i].Length == k && e.dis >= rows[i][0].dis
    ensures AllHold(rows, cands[i := cands[i] + multiset{e}], k)
  {
    hide Holds;
    Refuse(rows[i], k, e, cands[i]);
  }

  /** Several queries scan a list together. The top of every heap is cached. */
  class BlockSearch {
    const qs: seq<Code>
    const rows: seq<array<Entry>>
    const k: nat
    var tops: seq<int>

    /** Every row is the heap of its candidates, and every cached top is the live one. */
    ghost predicate Cached(cands: seq<multiset<Entry>>)
      reads this, rows
    {
      && k > 0 && |rows| == |tops| && AllHold(rows, cands, k)
      && forall i :: 0 <= i < |rows| ==> rows[i].Length == k && tops[i] == rows[i][0].dis
    }

    ghost predicate Valid(cands: seq<multiset<Entry>>, d: nat)
      reads this, rows
    {
      |qs| == |rows| == |cands| && ValidQueries(qs, d) && Cached(cands)
    }

    constructor (qs: seq<Code>, rows: seq<array<Entry>>, k: nat, d: nat, ghost cands: seq<multiset<Entry>>)
      requires k > 0 && |qs| == |rows| && ValidQueries(qs, d) && AllHold(rows, cands, k)
      ensures Valid(cands, d) && this.rows == rows && this.qs == qs && this.k == k
    {
      this.qs := qs;
      this.rows := rows;
      this.k := k;
      RowLength(rows, cands, k);
      tops := seq(|rows|, i requires 0 <= i < |rows| reads rows => if rows[i].Length > 0 then rows[i][0].dis else 0);
    }

    method OfferSlot(i: nat, e: Entry, ghost cands: seq<multiset<Entry>>)
      requires Cached(cands) && i < |rows| == |cands|
      modifies this, rows[i]
      ensures Cached(cands[i := cands[i] + multiset{e}])
    {
      hide AllHold;
      if e.dis < tops[i] {
        OfferTo(rows, i, k, e, cands);
        tops := tops[i := rows[i][0].dis];
      } else {
        RefuseTo(rows, i, k, e, cands);
      }
    }

    method AddBcode(it: Item, d: nat, ghost cands: seq<multiset<Entry>>)
      requires |it.code| == d && Valid(cands, d)
      modifies this, rows
      ensures Valid(Offered(cands, qs, it, d), d)
    {
      hide Cached, Hamming;
      ghost var now := cands;
      for i := 0 to |qs|
        invariant |now| == |cands| && Cached(now)
        invariant forall j :: 0 <= j < |cands| ==> now[j] == if j < i then cands[j] + multiset{Scanned(qs[j], it)} else cands[j]
      {
        var e := Entry(Hamming(qs[i], it.code), it.id);
        OfferSlot(i, e, now);
        now := now[i := now[i] + multiset{e}];
      }
      assert now == Offered(cands, qs, it, d);
    }
  }

  /** The candidates of each query with its view of one more item. */
  ghost function Offered(cands: seq<multiset<Entry>>, qs: seq<Code>, it: Item, d: nat): (r: seq<multiset<Entry>>)
    requires |qs| == |cands| && ValidQueries(qs, d) && |it.code| == d
    ensures |r| == |cands| && forall i :: 0 <= i < |r| ==> r[i] == cands[i] + multiset{Scanned(qs[i], it)}
  {
    seq(|cands|, i requires 0 <= i < |cands| => cands[i] + multiset{Scanned(qs[i], it)})
  }

  /** The candidates of each query with its view of a list. */
  ghost function OfferedList(cands: seq<multiset<Entry>>, qs: seq<Code>, items: seq<Item>, d: nat): (r: seq<multiset<Entry>>)
    requires |qs| == |cands| && ValidQueries(qs, d) && OfWidth(items, d)
    ensures |r| == |cands| && forall i :: 0 <= i < |r| ==> r[i] == cands[i] + ScanAll(items, qs[i], d)
  {
    seq(|cands|, i requires 0 <= i < |cands| => cands[i] + ScanAll(items, qs[i], d))
  }

  lemma OfferedListSnoc(cands: seq<multiset<Entry>>, qs: seq<Code>, items: seq<Item>, it: Item, d: nat)
    requires |qs| == |cands| && ValidQueries(qs, d) && OfWidth(items, d) && |it.code| == d
    ensures OfferedList(cands, qs, items + [it], d) == Offered(OfferedList(cands, qs, items, d), qs, it, d)
  {
    var a, b := OfferedList(cands, qs, items + [it], d), Offered(OfferedList(cands, qs, items, d), qs, it, d);
    forall i | 0 <= i < |cands|
      ensures a[i] == b[i]
    {
      ScanAllSnoc(items, it, qs[i], d);
    }
  }

  lemma OfferedNothing(cands: seq<multiset<Entry>>, qs: seq<Code>, items: seq<Item>, d: nat)
    requires |qs| == |cands| && ValidQueries(qs, d) && OfWidth(items, d)
    ensures OfferedList(cands, qs, items[..0], d) == cands
  {
    var r := OfferedList(cands, qs, items[..0], d);
    assert forall i :: 0 <= i < |cands| ==> r[i] == cands[i];
  }

  /** The block has seen the first j items of the list. */
  ghost predicate Through(bc: BlockSearch, cands: seq<multiset<Entry>>, items: seq<Item>, d: nat, j: int)
    requires 0 <= j <= |items| && OfWidth(items, d)
    reads bc, bc.rows
  {
    |bc.qs| == |cands| && ValidQueries(bc.qs, d) && bc.Valid(OfferedList(cands, bc.qs, items[..j], d), d)
  }

  method AddItem(bc: BlockSearch, items: seq<Item>, d: nat, j: nat, ghost cands: seq<multiset<Entry>>)
    requires j < |items| && OfWidth(items, d) && Through(bc, cands, items, d, j)
    modifies bc, bc.rows
    ensures Through(bc, cands, items, d, j + 1)
  {
    hide BlockSearch.Valid, ScanAll, ValidQueries, OfferedList, Offered;
    OfferedListSnoc(cands, bc.qs, items[..j], items[j], d);
    assert items[..j + 1] == items[..j] + [items[j]];
    bc.AddBcode(items[j], d, OfferedList(cands, bc.qs, items[..j], d));
  }

  lemma NotThrough(bc: BlockSearch, cands: seq<multiset<Entry>>, items: seq<Item>, d: nat)
    requires OfWidth(items, d) && bc.Valid(cands, d) && |bc.qs| == |cands| && ValidQueries(bc.qs, d)
    ensures Through(bc, cands, items, d, 0)
  {
    hide BlockSearch.Valid;
    OfferedNothing(cands, bc.qs, items, d);
  }

  lemma AllThrough(bc: BlockSearch, cands: seq<multiset<Entry>>, items: seq<Item>, d: nat)
    requires OfWidth(items, d) && Through(bc, cands, items, d, |items|)
    ensures |bc.qs| == |cands| && ValidQueries(bc.qs, d) && bc.Valid(OfferedList(cands, bc.qs, items, d), d)
  {
    hide BlockSearch.Valid;
    assert items[..|items|] == items;
  }

  /** The loop over the items of a list. */
  method AddBcodes(bc: BlockSearch, items: seq<Item>, d: nat, ghost cands: seq<multiset<Entry>>)
    requires OfWidth(items, d) && bc.Valid(cands, d) && |bc.qs| == |cands| && ValidQueries(bc.qs, d)
    modifies bc, bc.rows
    ensures bc.Valid(OfferedList(cands, bc.qs, items, d), d)
  {
    hide BlockSearch.Valid, Through, ValidQueries, OfferedList, OfWidth;
    NotThrough(bc, cands, items, d);
    for j := 0 to |items|
      invariant Through(bc, cands, items, d, j)
    {
      AddItem(bc, items, d, j, cands);
    }
    AllThrough(bc, cands, items, d);
  }

  /** A block of queries goes through a list. */
  method ScanBlock(items: seq<Item>, d: nat, qs: seq<Code>, rows: seq<array<Entry>>, k: nat, ghost cands: seq<multiset<Entry>>)
    requires k > 0 && |qs| == |rows| && ValidQueries(qs, d) && AllHold(rows, cands, k) && OfWidth(items, d)
    modifies rows
    ensures |cands| == |rows| && AllHold(rows, OfferedList(cands, qs, items, d), k)
  {
    RowLength(rows, cands, k);
    hide AllHold, ValidQueries, OfWidth, OfferedList;
    var bc := new BlockSearch(qs, rows, k, d, cands);
    AddBcodes(bc, items, d, cands);
  }

  ghost predicate Distinct(s: seq<int>) {
    forall i, j :: 0 <= i < j < |s| ==> s[i] != s[j]
  }

  ghost predicate QueryNumbers(s: seq<int>, n: nat) {
    forall i :: 0 <= i < |s| ==> 0 <= s[i] < n
  }

  /** The candidates once the queries in `which` have also seen the list. */
  ghost function Seen(cands: seq<multiset<Entry>>, xs: seq<Code>, items: seq<Item>, d: nat, which: seq<int>): (r: seq<multiset<Entry>>)
    requires |xs| == |cands| && ValidQueries(xs, d) && OfWidth(items, d)
    ensures |r| == |cands|
    ensures forall q :: 0 <= q < |r| ==> r[q] == if q in which then cands[q] + ScanAll(items, xs[q], d) else cands[q]
  {
    seq(|cands|, q requires 0 <= q < |cands| => if q in which then cands[q] + ScanAll(items, xs[q], d) else cands[q])
  }

  lemma SeenMore(cands: seq<multiset<Entry>>, xs: seq<Code>, items: seq<Item>, d: nat, a: seq<int>, b: seq<int>)
    requires |xs| == |cands| && ValidQueries(xs, d) && OfWidth(items, d)
    requires forall x :: x in a ==> x !in b
    ensures Seen(Seen(cands, xs, items, d, a), xs, items, d, b) == Seen(cands, xs, items, d, a + b)
  {
    hide ScanAll;
    var u, v := Seen(Seen(cands, xs, items, d, a), xs, items, d, b), Seen(cands, xs, items, d, a + b);
    forall q | 0 <= q < |cands|
      ensures u[q] == v[q]
    {
      assert q in a + b <==> q in a || q in b;
    }
  }

  function Pick<T>(s: seq<T>, which: seq<int>): (r: seq<T>)
    requires QueryNumbers(which, |s|)
    ensures |r| == |which| && forall i :: 0 <= i < |r| ==> r[i] == s[which[i]]
  {
    seq(|which|, i requires 0 <= i < |which| => s[which[i]])
  }

  /** The rows of different queries are different, so a block can work on them together. */
  lemma PickHold(rows: seq<array<Entry>>, cands: seq<multiset<Entry>>, k: nat, which: seq<int>)
    requires AllHold(rows, cands, k) && QueryNumbers(which, |rows|) && Distinct(which)
    ensures AllHold(Pick(rows, which), Pick(cands, which), k)
    ensures forall q :: 0 <= q < |rows| && q !in which ==> rows[q] !in Pick(rows, which)
    ensures forall r :: r in Pick(rows, which) ==> r in rows
  {
    hide Holds;
    var r := Pick(rows, which);
    forall q | 0 <= q < |rows| && q !in which
      ensures rows[q] !in r
    {
      forall i | 0 <= i < |which|
        ensures r[i] != rows[q]
      {
        assert which[i] < q || q < which[i];
      }
    }
    forall i, j | 0 <= i < j < |r|
      ensures r[i] != r[j]
    {
      var a, b := which[i], which[j];
      assert a < b || b < a;
    }
  }

  /** One block of queries of the slice. */
  method ScanQueries(items: seq<Item>, d: nat, xs: seq<Code>, rows: seq<array<Entry>>, k: nat, which: seq<int>,
                     ghost cands: seq<multiset<Entry>>)
    requires k > 0 && |xs| == |rows| == |cands| && ValidQueries(xs, d) && OfWidth(items, d)
    requires AllHold(rows, cands, k) && QueryNumbers(which, |rows|) && Distinct(which)
    modifies rows
    ensures AllHold(rows, Seen(cands, xs, items, d, which), k)
  {
    hide *;
    ghost var picked := Pick(cands, which);
    PickHold(rows, cands, k, which);
    var part := Pick(rows, which);
    PickValid(xs, d, which);
    EachHolds(rows, cands, k);
    assert forall i :: 0 <= i < |part| ==> part[i] in part;
    assert forall i :: 0 <= i < |part| ==> part[i] in rows;
    ScanBlock(items, d, Pick(xs, which), part, k, picked);
    UnpickHold(rows, cands, k, which, xs, items, d);
  }

  lemma EachHolds(rows: seq<array<Entry>>, cands: seq<multiset<Entry>>, k: nat)
    requires AllHold(rows, cands, k)
    ensures |rows| == |cands| && Rows(rows, k) && forall q :: 0 <= q < |rows| ==> Holds(rows[q], cands[q], k)
  {
    hide Holds, Rows;
  }

  lemma MakeHold(rows: seq<array<Entry>>, cands: seq<multiset<Entry>>, k: nat)
    requires Rows(rows, k) && |rows| == |cands| && forall q :: 0 <= q < |rows| ==> Holds(rows[q], cands[q], k)
    ensures AllHold(rows, cands, k)
  {
    hide Holds;
  }

  /** The rows of a block have seen the list; the others are as they were. */
  lemma UnpickHold(rows: seq<array<Entry>>, cands: seq<multiset<Entry>>, k: nat, which: seq<int>, xs: seq<Code>,
                   items: seq<Item>, d: nat)
    requires |xs| == |rows| == |cands| && ValidQueries(xs, d) && OfWidth(items, d) && Rows(rows, k)
    requires QueryNumbers(which, |rows|) && ValidQueries(Pick(xs, which), d)
    requires AllHold(Pick(rows, which), OfferedList(Pick(cands, which), Pick(xs, which), items, d), k)
    requires forall q :: 0 <= q < |rows| && q !in which ==> Holds(rows[q], cands[q], k)
    ensures AllHold(rows, Seen(cands, xs, items, d, which), k)
  {
    assert forall q :: 0 <= q < |xs| ==> |xs[q]| == d;
    assert forall i :: 0 <= i < |which| ==> 0 <= which[i] < |xs|;
    hide *;
    var goal, seen := Seen(cands, xs, items, d, which), OfferedList(Pick(cands, which), Pick(xs, which), items, d);
    var part := Pick(rows, which);
    EachHolds(part, seen, k);
    forall q | 0 <= q < |rows|
      ensures Holds(rows[q], goal[q], k)
    {
      if q in which {
        var i :| 0 <= i < |which| && which[i] == q;
        assert part[i] == rows[q] && Holds(part[i], seen[i], k);
        assert seen[i] == cands[q] + ScanAll(items, xs[q], d);
      }
    }
    MakeHold(rows, goal, k);
  }

  lemma PickValid(xs: seq<Code>, d: nat, which: seq<int>)
    requires ValidQueries(xs, d) && QueryNumbers(which, |xs|)
    ensures ValidQueries(Pick(xs, which), d)
  {
  }

  /** One query of the leftovers. */
  method ScanOne(items: seq<Item>, d: nat, xs: seq<Code>, rows: seq<array<Entry>>, k: nat, q: nat, ghost cands: seq<multiset<Entry>>)
    requires k > 0 && |xs| == |rows| == |cands| && ValidQueries(xs, d) && OfWidth(items, d)
    requires AllHold(rows, cands, k) && q < |rows|
    modifies rows
    ensures AllHold(rows, Seen(cands, xs, items, d, [q]), k)
  {
    hide ScanAll, Holds;
    ScanCached(items, xs[q], d, rows[q], k, cands[q]);
  }

  lemma CutSlice(slice: seq<int>, i: nat, j: nat, n: nat)
    requires i < j <= |slice| && Distinct(slice) && QueryNumbers(slice, n)
    ensures Distinct(slice[i..j]) && QueryNumbers(slice[i..j], n) && 0 <= slice[i..j][0] < n
    ensures forall x :: x in slice[..i] ==> x !in slice[i..j]
  {
    forall x | x in slice[..i]
      ensures x !in slice[i..j]
    {
      var p :| 0 <= p < i && slice[p] == x;
    }
  }

  /** The queries of the slice up to i have seen the list. */
  ghost predicate SeenUpTo(rows: seq<array<Entry>>, cands: seq<multiset<Entry>>, xs: seq<Code>, items: seq<Item>, d: nat,
                           k: nat, slice: seq<int>, i: int)
    requires |xs| == |cands| && ValidQueries(xs, d) && OfWidth(items, d) && 0 <= i <= |slice|
    reads rows
  {
    AllHold(rows, Seen(cands, xs, items, d, slice[..i]), k)
  }

  /** The queries i to j of the slice, as one block. */
  method ScanPart(items: seq<Item>, d: nat, xs: seq<Code>, rows: seq<array<Entry>>, k: nat, slice: seq<int>, i: nat, j: nat,
                  ghost cands: seq<multiset<Entry>>)
    requires k > 0 && |xs| == |rows| == |cands| && ValidQueries(xs, d) && OfWidth(items, d)
    requires QueryNumbers(slice, |rows|) && Distinct(slice) && i < j <= |slice|
    requires SeenUpTo(rows, cands, xs, items, d, k, slice, i)
    modifies rows
    ensures SeenUpTo(rows, cands, xs, items, d, k, slice, j)
  {
    var block := slice[i..j];
    ghost var before := slice[..i];
    CutSlice(slice, i, j, |rows|);
    assert before + block == slice[..j];
    assert j == i + 1 ==> block == [block[0]];
    hide AllHold, Seen, ScanAll, OfWidth, ValidQueries, Distinct, QueryNumbers;
    SeenMore(cands, xs, items, d, before, block);
    if j == i + 1 {
      ScanOne(items, d, xs, rows, k, block[0], Seen(cands, xs, items, d, before));
    } else {
      ScanQueries(items, d, xs, rows, k, block, Seen(cands, xs, items, d, before));
    }
  }

  /** All queries of one list: blocks of four, then the rest one by one. */
  method ScanSlice(items: seq<Item>, d: nat, xs: seq<Code>, rows: seq<array<Entry>>, k: nat, slice: seq<int>,
                   ghost cands: seq<multiset<Entry>>)
    requires k > 0 && |xs| == |rows| == |cands| && ValidQueries(xs, d) && OfWidth(items, d)
    requires AllHold(rows, cands, k) && QueryNumbers(slice, |rows|) && Distinct(slice)
    modifies rows
    ensures AllHold(rows, Seen(cands, xs, items, d, slice), k)
  {
    var bs := 4;
    var i := 0;
    SeenNothing(cands, xs, items, d);
    assert slice[..0] == [];
    assert SeenUpTo(rows, cands, xs, items, d, k, slice, 0);
    hide SeenUpTo, AllHold, Seen, ScanAll, OfWidth, ValidQueries, Distinct, QueryNumbers;
    while i + bs <= |slice|
      invariant 0 <= i <= |slice|
      invariant SeenUpTo(rows, cands, xs, items, d, k, slice, i)
    {
      ScanPart(items, d, xs, rows, k, slice, i, i + bs, cands);
      i := i + bs;
    }
    while i < |slice|
      invariant 0 <= i <= |slice|
      invariant SeenUpTo(rows, cands, xs, items, d, k, slice, i)
    {
      ScanPart(items, d, xs, rows, k, slice, i, i + 1, cands);
      i := i + 1;
    }
    SeenAll(rows, cands, xs, items, d, k, slice);
  }

  lemma SeenAll(rows: seq<array<Entry>>, cands: seq<multiset<Entry>>, xs: seq<Code>, items: seq<Item>, d: nat,
                k: nat, slice: seq<int>)
    requires |xs| == |cands| && ValidQueries(xs, d) && OfWidth(items, d)
    requires SeenUpTo(rows, cands, xs, items, d, k, slice, |slice|)
    ensures AllHold(rows, Seen(cands, xs, items, d, slice), k)
  {
    assert slice[..|slice|] == slice;
  }

  lemma SeenNothing(cands: seq<multiset<Entry>>, xs: seq<Code>, items: seq<Item>, d: nat)
    requires |xs| == |cands| && ValidQueries(xs, d) && OfWidth(items, d)
    ensures Seen(cands, xs, items, d, []) == cands
  {
    var r := Seen(cands, xs, items, d, []);
    assert forall q :: 0 <= q < |cands| ==> r[q] == cands[q];
  }

  /** The lists that row r of the key matrix names. */
  ghost function RowLists(keys: seq<int>, ncol: nat, r: int): set<int>
    requires ncol > 0
  {
    set c | 0 <= c < |keys| && B.RowOf(c, ncol) == r :: keys[c]
  }

  /** What a query sees of the first l lists when it visits the lists in ls. */
  ghost function Visited(ivf: Ivf, q: Code, ls: set<int>, l: nat): multiset<Entry>
    requires ValidIvf(ivf) && |q| == ivf.d && l <= |ivf.lists|
  {
    if l == 0 then multiset{}
    else if l - 1 in ls then Visited(ivf, q, ls, l - 1) + ListScan(ivf, q, l - 1)
    else Visited(ivf, q, ls, l - 1)
  }

  ghost function VisitedByAll(ivf: Ivf, xs: seq<Code>, keys: seq<int>, ncol: nat, l: nat): (r: seq<multiset<Entry>>)
    requires ValidIvf(ivf) && ValidQueries(xs, ivf.d) && l <= |ivf.lists| && ncol > 0
    ensures |r| == |xs| && forall i :: 0 <= i < |xs| ==> r[i] == Visited(ivf, xs[i], RowLists(keys, ncol, i), l)
  {
    seq(|xs|, i requires 0 <= i < |xs| => Visited(ivf, xs[i], RowLists(keys, ncol, i), l))
  }

  /** Scanning list l for the queries of its bucket. */
  lemma VisitNext(ivf: Ivf, xs: seq<Code>, keys: seq<int>, ncol: nat, l: nat, slice: seq<int>)
    requires ValidIvf(ivf) && ValidQueries(xs, ivf.d) && l < |ivf.lists| && ncol > 0
    requires OfWidth(ivf.lists[l], ivf.d)
    requires forall r :: r in slice <==> B.RowHas(keys, ncol, r, l)
    ensures Seen(VisitedByAll(ivf, xs, keys, ncol, l), xs, ivf.lists[l], ivf.d, slice) == VisitedByAll(ivf, xs, keys, ncol, l + 1)
  {
    var now := VisitedByAll(ivf, xs, keys, ncol, l);
    var u, v := Seen(now, xs, ivf.lists[l], ivf.d, slice), VisitedByAll(ivf, xs, keys, ncol, l + 1);
    hide ScanAll;
    forall i | 0 <= i < |xs|
      ensures u[i] == v[i]
    {
      assert i in slice <==> B.RowHas(keys, ncol, i, l);
      assert l in RowLists(keys, ncol, i) <==> B.RowHas(keys, ncol, i, l);
    }
  }

  lemma RowInMatrix(size: nat, nrow: nat, ncol: nat, c: nat)
    requires ncol > 0 && B.IsMatrix(size, nrow, ncol) && c < size
    ensures 0 <= B.RowOf(c, ncol) < nrow
  {
    var r := c / ncol;
    assert r * ncol <= c < nrow * ncol;
    assert r >= nrow ==> r * ncol >= nrow * ncol;
  }

  /** The slice of list l in the sorted keys: the queries that probe l, each once. */
  lemma SliceOfList(sorted: seq<int>, input: seq<int>, lims: seq<int>, ncol: nat, from: map<int, int>, to: map<int, int>,
                    nrow: nat, l: nat)
    requires ncol > 0 && B.Grouped(sorted, input, lims, ncol, from, to) && B.Limits(lims, input)
    requires forall i :: 0 <= i < |input| ==> -1 <= input[i] < |lims| - 1
    requires l < |lims| - 1 && B.IsMatrix(|input|, nrow, ncol) && B.DistinctInRows(input, ncol)
    ensures 0 <= lims[l] <= lims[l + 1] <= |sorted| == |input|
    ensures var slice := sorted[lims[l]..lims[l + 1]];
      Distinct(slice) && QueryNumbers(slice, nrow) && forall r :: r in slice <==> B.RowHas(input, ncol, r, l)
  {
    B.LimitsBounds(lims, input, l);
    B.LimitsBounds(lims, input, l + 1);
    B.LimitsGrow(lims, input, l, l + 1);
    B.LimitsGrow(lims, input, 0, l);
    var slice := sorted[lims[l]..lims[l + 1]];
    B.BucketRows(sorted, input, lims, ncol, from, to, l, slice);
    hide B.Grouped, B.Limits, B.IsMatrix, B.RowOf, B.DistinctInRows;
    forall i | 0 <= i < |slice|
      ensures 0 <= slice[i] < nrow
    {
      assert slice[i] in slice;
      var c :| 0 <= c < |input| && B.RowOf(c, ncol) == slice[i] && input[c] == l;
      RowInMatrix(|input|, nrow, ncol, c);
    }
  }

  method StartRows(rows: seq<array<Entry>>, k: nat, ghost cands: seq<multiset<Entry>>)
    requires Rows(rows, k)
    requires |cands| == |rows| && forall i :: 0 <= i < |cands| ==> cands[i] == multiset{}
    modifies rows
    ensures AllHold(rows, cands, k)
  {
    hide Holds;
    for i := 0 to |rows|
      invariant forall j :: 0 <= j < i ==> Holds(rows[j], multiset{}, k)
    {
      StartRow(rows[i], k);
    }
  }

  method EndRows(rows: seq<array<Entry>>, k: nat, ghost cands: seq<multiset<Entry>>)
    requires AllHold(rows, cands, k) && forall i :: 0 <= i < |cands| ==> Genuine(cands[i])
    modifies rows
    ensures forall i :: 0 <= i < |rows| ==> ResultRow(rows[i][..], cands[i], k)
  {
    hide Holds, ResultRow, Genuine;
    for i := 0 to |rows|
      invariant forall j :: i <= j < |rows| ==> Holds(rows[j], cands[j], k)
      invariant forall j :: 0 <= j < i ==> ResultRow(rows[j][..], cands[j], k)
    {
      EndRow(rows[i], k, cands[i]);
    }
  }

  lemma {:induction false} VisitedIsGenuine(ivf: Ivf, q: Code, ls: set<int>, l: nat)
    requires ValidIvf(ivf) && |q| == ivf.d && l <= |ivf.lists|
    ensures Genuine(Visited(ivf, q, ls, l))
  {
    if l > 0 {
      VisitedIsGenuine(ivf, q, ls, l - 1);
      assert ValidList(ivf.lists[l - 1], ivf.d);
      ScanAllIsGenuine(ivf.lists[l - 1], q, ivf.d);
    }
  }

  lemma AllVisitedAreGenuine(ivf: Ivf, xs: seq<Code>, keys: seq<int>, ncol: nat, l: nat)
    requires ValidIvf(ivf) && ValidQueries(xs, ivf.d) && l <= |ivf.lists| && ncol > 0
    ensures var cands := VisitedByAll(ivf, xs, keys, ncol, l);
      forall i :: 0 <= i < |cands| ==> Genuine(cands[i])
  {
    forall i | 0 <= i < |xs|
      ensures Genuine(VisitedByAll(ivf, xs, keys, ncol, l)[i])
    {
      VisitedIsGenuine(ivf, xs[i], RowLists(keys, ncol, i), l);
    }
  }

  /** The sorted keys of the queries, with their limits. */
  ghost predicate SortedKeys(sorted: seq<int>, lims: seq<int>, input: seq<int>, ncol: nat, nrow: nat, nlist: nat,
                             from: map<int, int>, to: map<int, int>)
  {
    && ncol > 0 && |lims| == nlist + 1 && B.IsMatrix(|input|, nrow, ncol) && B.DistinctInRows(input, ncol)
    && B.Grouped(sorted, input, lims, ncol, from, to) && B.Limits(lims, input)
    && forall i :: 0 <= i < |input| ==> -1 <= input[i] < nlist
  }

  lemma MakeSortedKeys(sorted: seq<int>, lims: seq<int>, input: seq<int>, ncol: nat, nrow: nat, nlist: nat,
                       from: map<int, int>, to: map<int, int>)
    requires ncol > 0 && |lims| == nlist + 1 && B.IsMatrix(|input|, nrow, ncol) && B.DistinctInRows(input, ncol)
    requires B.Grouped(sorted, input, lims, ncol, from, to) && B.Limits(lims, input)
    requires forall i :: 0 <= i < |input| ==> -1 <= input[i] < nlist
    ensures SortedKeys(sorted, lims, input, ncol, nrow, nlist, from, to)
  {
  }

  lemma SliceOfKeys(sorted: seq<int>, lims: seq<int>, input: seq<int>, ncol: nat, nrow: nat, nlist: nat,
                    from: map<int, int>, to: map<int, int>, l: nat)
    requires SortedKeys(sorted, lims, input, ncol, nrow, nlist, from, to) && l < nlist
    ensures ncol > 0 && |lims| == nlist + 1 && 0 <= lims[l] <= lims[l + 1] <= |sorted|
    ensures var slice := sorted[lims[l]..lims[l + 1]];
      Distinct(slice) && QueryNumbers(slice, nrow) && forall r :: r in slice <==> B.RowHas(input, ncol, r, l)
  {
    SliceOfList(sorted, input, lims, ncol, from, to, nrow, l);
  }

  /** One turn of the loop over the lists. */
  method ScanOneList(ivf: Ivf, xs: seq<Code>, sorted: seq<int>, lims: seq<int>, rows: seq<array<Entry>>, k: nat, l: nat,
                     ghost input: seq<int>, ghost ncol: nat, ghost from: map<int, int>, ghost to: map<int, int>)
    requires ValidIvf(ivf) && ValidQueries(xs, ivf.d) && k > 0 && |rows| == |xs| && ncol > 0 && l < |ivf.lists|
    requires SortedKeys(sorted, lims, input, ncol, |xs|, |ivf.lists|, from, to)
    requires AllHold(rows, VisitedByAll(ivf, xs, input, ncol, l), k)
    modifies rows
    ensures AllHold(rows, VisitedByAll(ivf, xs, input, ncol, l + 1), k)
  {
    SliceOfKeys(sorted, lims, input, ncol, |xs|, |ivf.lists|, from, to, l);
    ListWidth(ivf, l);
    hide AllHold, SortedKeys, ValidIvf, ValidQueries, VisitedByAll, Distinct, QueryNumbers, OfWidth, B.RowHas;
    var slice := sorted[lims[l]..lims[l + 1]];
    VisitNext(ivf, xs, input, ncol, l, slice);
    ScanSlice(ivf.lists[l], ivf.d, xs, rows, k, slice, VisitedByAll(ivf, xs, input, ncol, l));
  }

  method ScanLists(ivf: Ivf, xs: seq<Code>, sorted: seq<int>, lims: seq<int>, rows: seq<array<Entry>>, k: nat,
                   ghost input: seq<int>, ghost ncol: nat, ghost from: map<int, int>, ghost to: map<int, int>)
    requires ValidIvf(ivf) && ValidQueries(xs, ivf.d) && k > 0 && |rows| == |xs| && ncol > 0
    requires SortedKeys(sorted, lims, input, ncol, |xs|, |ivf.lists|, from, to)
    requires Rows(rows, k)
    modifies rows
    ensures forall i :: 0 <= i < |rows| ==>
      ResultRow(rows[i][..], Visited(ivf, xs[i], RowLists(input, ncol, i), |ivf.lists|), k)
  {
    hide AllHold, SortedKeys, ResultRow, Visited, VisitedByAll, Genuine, RowLists, ValidIvf, ValidQueries, Rows;
    NothingVisited(ivf, xs, input, ncol);
    StartRows(rows, k, VisitedByAll(ivf, xs, input, ncol, 0));
    ScanAllLists(ivf, xs, sorted, lims, rows, k, input, ncol, from, to);
    AllVisitedAreGenuine(ivf, xs, input, ncol, |ivf.lists|);
    EndRows(rows, k, VisitedByAll(ivf, xs, input, ncol, |ivf.lists|));
  }

  lemma NothingVisited(ivf: Ivf, xs: seq<Code>, keys: seq<int>, ncol: nat)
    requires ValidIvf(ivf) && ValidQueries(xs, ivf.d) && ncol > 0
    ensures var cands := VisitedByAll(ivf, xs, keys, ncol, 0);
      forall i :: 0 <= i < |cands| ==> cands[i] == multiset{}
  {
  }

  method ScanAllLists(ivf: Ivf, xs: seq<Code>, sorted: seq<int>, lims: seq<int>, rows: seq<array<Entry>>, k: nat,
                      ghost input: seq<int>, ghost ncol: nat, ghost from: map<int, int>, ghost to: map<int, int>)
    requires ValidIvf(ivf) && ValidQueries(xs, ivf.d) && k > 0 && |rows| == |xs| && ncol > 0
    requires SortedKeys(sorted, lims, input, ncol, |xs|, |ivf.lists|, from, to)
    requires AllHold(rows, VisitedByAll(ivf, xs, input, ncol, 0), k)
    modifies rows
    ensures AllHold(rows, VisitedByAll(ivf, xs, input, ncol, |ivf.lists|), k)
  {
    hide AllHold, SortedKeys, VisitedByAll, ValidIvf, ValidQueries;
    for l := 0 to |ivf.lists|
      invariant AllHold(rows, VisitedByAll(ivf, xs, input, ncol, l), k)
    {
      ScanOneList(ivf, xs, sorted, lims, rows, k, l, input, ncol, from, to);
    }
  }

  /** How the list-major search of n queries ends. The buffer of the limits has one place more than there
      are queries, and the sort writes one limit more than there are lists. */
  function PerListEnding(keys: seq<int>, n: nat, nlist: nat, maxCodes: nat, storePairs: bool): B.Outcome {
    if maxCodes != 0 || storePairs then B.Refused else B.SortOutcome(keys, nlist, n + 1)
  }

  /** It leaves the buffer of the limits exactly when there are more lists than queries; with room for them, when
      a key is below -1 and none before it is refused, or when no key names a list. */
  lemma LimitsFitIff(keys: seq<int>, n: nat, nlist: nat, maxCodes: nat, storePairs: bool)
    ensures PerListEnding(keys, n, nlist, maxCodes, storePairs) == B.Overrun <==>
      && maxCodes == 0 && !storePairs && nlist < |keys|
      && (n < nlist || B.Screened(keys, nlist) == B.Overrun || B.AllBlank(keys))
  {
    if B.AllBlank(keys) {
      assert !exists i :: 0 <= i < |keys| && B.TooLarge(keys, i, nlist);
    }
  }

  /** Two queries that probe three of five lists each: the limits need six places and have three. */
  lemma LimitsOverrun(keys: seq<int>)
    requires keys == [0, 1, 2, 2, 3, 4]
    ensures B.DistinctInRows(keys, 3) && B.AllBelow(keys, 5)
    ensures PerListEnding(keys, 2, 5, 0, false) == B.Overrun
  {
  }

  /** A quantizer gives numbers of lists, and -1 where it found none. On its keys the search does not end
      exactly when the limits fit and one of -1 comes after a list. */
  lemma EndlessIff(keys: seq<int>, n: nat, nlist: nat, maxCodes: nat, storePairs: bool)
    requires forall i :: 0 <= i < |keys| ==> -1 <= keys[i] < nlist
    ensures PerListEnding(keys, n, nlist, maxCodes, storePairs) == B.Endless <==>
      && maxCodes == 0 && !storePairs && nlist < |keys| && nlist <= n
      && exists i, j :: 0 <= i < j < |keys| && keys[i] >= 0 && keys[j] == -1
  {
    if !B.BlanksLead(keys) {
      var i, j :| 0 <= i < j < |keys| && keys[j] == -1 && keys[i] != -1;
      assert keys[i] >= 0 && keys[j] == -1;
    }
  }

  /** Three queries with one probe over two lists, and the second one finds none. */
  lemma NeverEnds(keys: seq<int>)
    requires keys == [0, -1, 1]
    ensures PerListEnding(keys, 3, 2, 0, false) == B.Endless
  {
    assert keys[0] >= 0 && keys[1] == -1;
    EndlessIff(keys, 3, 2, 0, false);
  }

  /** search_knn_hamming_per_invlist. It runs only without a code limit and without stored pairs, on
      keys that all name a list or are -1, when there are more keys than lists, and when the limits of all
      lists fit into the buffer. */
  method SearchPerList(ivf: Ivf, xs: seq<Code>, keys: array<int>, nprobe: nat, maxCodes: nat, storePairs: bool,
                       rows: seq<array<Entry>>, k: nat)
    returns (ending: B.Outcome)
    requires ValidIvf(ivf) && ValidQueries(xs, ivf.d) && k > 0
    requires |rows| == |xs| && Rows(rows, k)
    requires B.IsMatrix(keys.Length, |xs|, nprobe)
    requires nprobe > 0 ==> B.DistinctInRows(keys[..], nprobe)
    modifies keys, rows
    ensures ending == PerListEnding(old(keys[..]), |xs|, |ivf.lists|, maxCodes, storePairs)
    ensures ending == B.Sorted ==> nprobe > 0 && forall i :: 0 <= i < |rows| ==>
      ResultRow(rows[i][..], Visited(ivf, xs[i], RowLists(old(keys[..]), nprobe, i), |ivf.lists|), k)
  {
    hide B.Grouped, B.Limits, B.IsMatrix, B.DistinctInRows, ResultRow, Visited, RowLists, Rows, ValidIvf, ValidQueries, SortedKeys,
      B.SortOutcome, B.Ends;
    if maxCodes != 0 || storePairs {
      return B.Refused;
    }
    ghost var input := keys[..];
    var lims := new int[|xs| + 1];
    var nlist := |ivf.lists|;
    var checks;
    ghost var from, to;
    ending, checks, from, to := B.SortInPlace(keys, |xs|, nprobe, nlist, lims);
    if ending == B.Sorted {
      B.SortedIsScreened(input, nlist, lims.Length);
      MakeSortedKeys(keys[..], lims[..nlist + 1], input, nprobe, |xs|, nlist, from, to);
      ScanLists(ivf, xs, keys[..], lims[..nlist + 1], rows, k, input, nprobe, from, to);
    }
  }

  /** row is row r of the key matrix. */
  ghost predicate IsRow(keys: seq<int>, ncol: nat, r: nat, row: seq<int>) {
    r * ncol + ncol <= |keys| && row == keys[r * ncol..r * ncol + ncol]
  }

  lemma CellsOfRow(ncol: nat, r: nat, c: nat)
    requires ncol > 0
    ensures B.RowOf(c, ncol) == r <==> r * ncol <= c < r * ncol + ncol
  {
    var t := c / ncol - r;
    assert c == ncol * (c / ncol) + c % ncol;
    assert ncol * (c / ncol) == ncol * r + ncol * t;
    assert t >= 1 ==> ncol * t >= ncol;
    assert t <= -1 ==> ncol * t + ncol <= 0;
  }

  /** Numbers of lists, or negative for none. */
  ghost predicate NamesLists(keys: seq<int>, n: nat) {
    forall i :: 0 <= i < |keys| ==> keys[i] < n
  }

  ghost predicate DistinctLists(keys: seq<int>) {
    forall i, j :: 0 <= i < j < |keys| && keys[i] >= 0 ==> keys[i] != keys[j]
  }

  function Members(s: seq<int>): set<int> {
    set x | x in s
  }

  lemma RowListsAreKeys(keys: seq<int>, ncol: nat, r: nat, row: seq<int>, n: nat)
    requires ncol > 0 && IsRow(keys, ncol, r, row) && NamesLists(keys, n)
    ensures RowLists(keys, ncol, r) == Members(row) && NamesLists(row, n)
    ensures B.DistinctInRows(keys, ncol) ==> DistinctLists(row)
  {
    var o := r * ncol;
    forall c: nat
      ensures B.RowOf(c, ncol) == r <==> o <= c < o + ncol
    {
      CellsOfRow(ncol, r, c);
    }
    hide B.RowOf;
    assert forall i :: 0 <= i < ncol ==> row[i] == keys[o + i];
    forall x | x in RowLists(keys, ncol, r)
      ensures x in row
    {
      var c :| 0 <= c < |keys| && B.RowOf(c, ncol) == r && keys[c] == x;
      assert row[c - o] == x;
    }
    forall x | x in row
      ensures x in RowLists(keys, ncol, r)
    {
      var i :| 0 <= i < ncol && row[i] == x;
      assert B.RowOf(o + i, ncol) == r && keys[o + i] == x;
    }
    if B.DistinctInRows(keys, ncol) {
      forall i, j | 0 <= i < j < ncol && row[i] >= 0
        ensures row[i] != row[j]
      {
        assert B.RowOf(o + i, ncol) == B.RowOf(o + j, ncol);
      }
    }
  }

  /** One more list to visit adds what the query sees in it. */
  lemma {:induction false} VisitOneMore(ivf: Ivf, q: Code, ls: set<int>, b: int, l: nat)
    requires ValidIvf(ivf) && |q| == ivf.d && l <= |ivf.lists| && b !in ls && b >= 0
    ensures Visited(ivf, q, ls + {b}, l)
         == Visited(ivf, q, ls, l) + if b < l then ListScan(ivf, q, b) else multiset{}
  {
    hide ListScan, ValidIvf;
    if l > 0 {
      VisitOneMore(ivf, q, ls, b, l - 1);
      var before, here := Visited(ivf, q, ls, l - 1), ListScan(ivf, q, l - 1);
      var extra := if b < l - 1 then ListScan(ivf, q, b) else multiset{};
      assert Visited(ivf, q, ls, l) == before + if l - 1 in ls then here else multiset{};
      assert Visited(ivf, q, ls + {b}, l) == (before + extra) + if l - 1 in ls || l - 1 == b then here else multiset{};
      hide Visited;
      Rearranged(before, extra, here);
      assert Visited(ivf, q, ls + {b}, l) == Visited(ivf, q, ls, l) + if b < l then ListScan(ivf, q, b) else multiset{};
    }
  }

  /** A missing list adds nothing. */
  lemma {:induction false} VisitNone(ivf: Ivf, q: Code, ls: set<int>, b: int, l: nat)
    requires ValidIvf(ivf) && |q| == ivf.d && l <= |ivf.lists| && b < 0
    ensures Visited(ivf, q, ls + {b}, l) == Visited(ivf, q, ls, l)
  {
    hide ListScan, ValidIvf;
    if l > 0 {
      VisitNone(ivf, q, ls, b, l - 1);
    }
  }

  lemma Rearranged(a: multiset<Entry>, x: multiset<Entry>, y: multiset<Entry>)
    ensures (a + x) + y == (a + y) + x
    ensures (a + multiset{}) + y == a + y && (a + y) + multiset{} == a + y && a + multiset{} == a
  {
  }

  lemma {:induction false} VisitNothing(ivf: Ivf, q: Code, l: nat)
    requires ValidIvf(ivf) && |q| == ivf.d && l <= |ivf.lists|
    ensures Visited(ivf, q, {}, l) == multiset{}
  {
    if l > 0 {
      VisitNothing(ivf, q, l - 1);
    }
  }

  lemma ProbedNothing(ivf: Ivf, q: Code, scanned: nat)
    requires ValidIvf(ivf) && |q| == ivf.d
    ensures Probed(ivf, q, [], scanned, 0) == Candidates(Visited(ivf, q, Members([]), |ivf.lists|))
  {
    hide ValidIvf, Visited;
    VisitNothing(ivf, q, |ivf.lists|);
    assert Members([]) == {};
  }

  lemma ProbedFirst(ivf: Ivf, q: Code, keys: seq<int>, scanned: nat)
    requires ValidIvf(ivf) && |q| == ivf.d && keys != [] && 0 <= keys[0] < |ivf.lists|
    ensures Probed(ivf, q, keys, scanned, 0)
         == Adding(ListScan(ivf, q, keys[0]), Probed(ivf, q, keys[1..], scanned + |ivf.lists[keys[0]]|, 0))
  {
    hide ListScan, Adding, ValidIvf;
  }

  lemma ProbedSkips(ivf: Ivf, q: Code, keys: seq<int>, scanned: nat)
    requires ValidIvf(ivf) && |q| == ivf.d && keys != [] && keys[0] < 0
    ensures Probed(ivf, q, keys, scanned, 0) == Probed(ivf, q, keys[1..], scanned, 0)
  {
    hide ListScan, Adding, ValidIvf;
  }

  lemma FirstKey(keys: seq<int>, n: nat)
    requires keys != [] && DistinctLists(keys) && NamesLists(keys, n)
    ensures keys[0] < n && DistinctLists(keys[1..]) && NamesLists(keys[1..], n)
    ensures keys[0] >= 0 ==> keys[0] !in Members(keys[1..])
    ensures Members(keys) == Members(keys[1..]) + {keys[0]}
  {
    assert keys == [keys[0]] + keys[1..];
  }

  lemma AddingCands(m: multiset<Entry>, n: multiset<Entry>)
    ensures Adding(m, Candidates(n)) == Candidates(n + m)
  {
    assert m + n == n + m;
  }

  /** A query that goes through distinct keys without a limit sees what it sees list by list. */
  lemma {:induction false} ProbedIsVisited(ivf: Ivf, q: Code, keys: seq<int>, scanned: nat)
    requires ValidIvf(ivf) && |q| == ivf.d && DistinctLists(keys) && NamesLists(keys, |ivf.lists|)
    ensures Probed(ivf, q, keys, scanned, 0)
         == Candidates(Visited(ivf, q, Members(keys), |ivf.lists|))
  {
    hide *;
    if keys == [] {
      ProbedNothing(ivf, q, scanned);
    } else {
      FirstKey(keys, |ivf.lists|);
      var key, rest := keys[0], keys[1..];
      if key < 0 {
        ProbedSkips(ivf, q, keys, scanned);
        ProbedIsVisited(ivf, q, rest, scanned);
        VisitNone(ivf, q, Members(rest), key, |ivf.lists|);
      } else {
        ProbedFirst(ivf, q, keys, scanned);
        ProbedIsVisited(ivf, q, rest, scanned + |ivf.lists[key]|);
        AddingCands(ListScan(ivf, q, key), Visited(ivf, q, Members(rest), |ivf.lists|));
        VisitOneMore(ivf, q, Members(rest), key, |ivf.lists|);
        assert Probed(ivf, q, keys, scanned, 0) == Candidates(Visited(ivf, q, Members(keys), |ivf.lists|));
      }
    }
  }

  /** What SearchQuery leaves in a row, when no key is past the last list. */
  ghost predicate FoundByQuery(ivf: Ivf, q: Code, row: seq<int>, k: nat, found: seq<Entry>)
    requires ValidIvf(ivf) && |q| == ivf.d
  {
    var p := Probed(ivf, q, row, 0, 0);
    p.Candidates? ==> ResultRow(found, p.cands, k)
  }

  /** Query by query and list by list give every query the same distances: those of the k nearest
      items of the lists it probes. */
  lemma SearchesAgree(ivf: Ivf, q: Code, keys: seq<int>, nprobe: nat, r: nat, row: seq<int>, k: nat,
                      byQuery: seq<Entry>, byList: seq<Entry>)
    requires ValidIvf(ivf) && |q| == ivf.d && nprobe > 0 && IsRow(keys, nprobe, r, row)
    requires B.DistinctInRows(keys, nprobe) && NamesLists(keys, |ivf.lists|)
    requires |byQuery| == |byList| == k
    requires FoundByQuery(ivf, q, row, k, byQuery)
    requires ResultRow(byList, Visited(ivf, q, RowLists(keys, nprobe, r), |ivf.lists|), k)
    ensures Probed(ivf, q, row, 0, 0).Candidates?
    ensures forall j :: 0 <= j < k ==> byQuery[j].dis == byList[j].dis
  {
    RowListsAreKeys(keys, nprobe, r, row, |ivf.lists|);
    ProbedIsVisited(ivf, q, row, 0);
    hide Visited, Probed, ResultRow, B.DistinctInRows, RowLists, IsRow, NamesLists, DistinctLists, Members, ValidIvf;
    ResultRowsAgree(byQuery, byList, Visited(ivf, q, RowLists(keys, nprobe, r), |ivf.lists|), k);
  }
}
