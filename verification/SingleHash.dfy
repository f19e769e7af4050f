/**
 The hash index over the first b bits (faiss/IndexBinaryHash.cpp, IndexBinaryHash).
 */
module SingleHash {
  import opened Words
  import opened FlipEnumeration
  import opened BinaryCodes
  import opened Heaps
  import opened Nearest
  import opened Options
  import opened Collectors
  import opened Scans

  /** The ids and the vectors of one bucket. */
  datatype InvertedList = InvertedList(ids: seq<int>, vecs: seq<Code>)

  /** The items of one hash value, in the order they were added. */
  ghost function Bucket(items: seq<Item>, hash: Word, d: nat, b: nat): (r: seq<Item>)
    requires OfWidth(items, d) && b <= d && b <= 63
    ensures forall i :: 0 <= i < |r| ==> |r[i].code| == d
  {
    if items == [] then []
    else
      var n := |items| - 1;
      Bucket(items[..n], hash, d, b) + if Chunk(items[n].code, 0, b) == hash then [items[n]] else []
  }

  ghost predicate Holds(il: InvertedList, items: seq<Item>) {
    && |il.ids| == |il.vecs| == |items|
    && forall i :: 0 <= i < |items| ==> items[i] == Item(il.ids[i], il.vecs[i])
  }

  /** The items whose hash differs from the query's by one of the masks. */
  ghost function ScanMasks(items: seq<Item>, q: Code, d: nat, b: nat, masks: set<Word>): multiset<Entry>
    requires OfWidth(items, d) && |q| == d && b <= d && b <= 63
  {
    if items == [] then multiset{}
    else
      var n := |items| - 1;
      ScanMasks(items[..n], q, d, b, masks)
      + if Xor(Chunk(q, 0, b), Chunk(items[n].code, 0, b)) in masks then multiset{Scanned(q, items[n])} else multiset{}
  }

  /** The items whose hash is at most nflip bits away from the query's. */
  ghost function ScanWithin(items: seq<Item>, q: Code, d: nat, b: nat, nflip: nat): multiset<Entry>
    requires OfWidth(items, d) && |q| == d && b <= d && b <= 63
  {
    if items == [] then multiset{}
    else
      var n := |items| - 1;
      ScanWithin(items[..n], q, d, b, nflip)
      + if HashDistance(q, items[n].code, 0, b) <= nflip then multiset{Scanned(q, items[n])} else multiset{}
  }

  lemma {:induction false} AllMasksAreWithin(items: seq<Item>, q: Code, d: nat, b: nat, nflip: nat, masks: set<Word>)
    requires OfWidth(items, d) && |q| == d && b <= d && b <= 63
    requires forall w :: w in masks <==> Candidate(w, b, nflip)
    ensures ScanMasks(items, q, d, b, masks) == ScanWithin(items, q, d, b, nflip)
  {
    if items != [] {
      var n := |items| - 1;
      AllMasksAreWithin(items[..n], q, d, b, nflip, masks);
      HashXorFits(q, items[n].code, 0, b);
    }
  }

  lemma MaskLeadsTo(qhash: Word, hash: Word, m: Word)
    ensures Xor(qhash, hash) == m <==> hash == Xor(qhash, m)
  {
    XorTwice(qhash, hash);
    XorTwice(qhash, m);
  }

  lemma AddOnEitherSide(after: multiset<Entry>, before: multiset<Entry>, bucket: multiset<Entry>, one: multiset<Entry>)
    requires after == before + bucket
    ensures after + one == before + (bucket + one) && after + one == before + one + bucket
  {
  }

  /** What the last item adds to a scan. */
  lemma ScanMasksStep(items: seq<Item>, q: Code, d: nat, b: nat, masks: set<Word>, rest: seq<Item>, one: multiset<Entry>)
    requires OfWidth(items, d) && |q| == d && b <= d && b <= 63 && items != []
    requires rest == items[..|items| - 1] && one == multiset{Scanned(q, items[|items| - 1])}
    ensures OfWidth(rest, d)
    ensures Xor(Chunk(q, 0, b), Chunk(items[|items| - 1].code, 0, b)) in masks ==>
      ScanMasks(items, q, d, b, masks) == ScanMasks(rest, q, d, b, masks) + one
    ensures Xor(Chunk(q, 0, b), Chunk(items[|items| - 1].code, 0, b)) !in masks ==>
      ScanMasks(items, q, d, b, masks) == ScanMasks(rest, q, d, b, masks)
  {
  }

  /** A new mask adds the bucket it leads to. */
  lemma {:induction false} OneMoreMask(items: seq<Item>, q: Code, d: nat, b: nat, masks: set<Word>, m: Word)
    requires OfWidth(items, d) && |q| == d && b <= d && b <= 63 && m !in masks
    ensures ScanMasks(items, q, d, b, masks + {m})
         == ScanMasks(items, q, d, b, masks) + ScanAll(Bucket(items, Xor(Chunk(q, 0, b), m), d, b), q, d)
  {
    if items != [] {
      var n := |items| - 1;
      var rest, it, qhash := items[..n], items[n], Chunk(q, 0, b);
      var hash := Chunk(it.code, 0, b);
      var front, one := Bucket(rest, Xor(qhash, m), d, b), multiset{Scanned(q, it)};
      OneMoreMask(rest, q, d, b, masks, m);
      MaskLeadsTo(qhash, hash, m);
      ScanAllSnoc(front, it, q, d);
      ScanMasksStep(items, q, d, b, masks, rest, one);
      ScanMasksStep(items, q, d, b, masks + {m}, rest, one);
      AddOnEitherSide(ScanMasks(rest, q, d, b, masks + {m}), ScanMasks(rest, q, d, b, masks), ScanAll(front, q, d), one);
      assert Bucket(items, Xor(qhash, m), d, b) == if Xor(qhash, hash) == m then front + [it] else front;
      hide ScanMasks, ScanAll, Bucket, OfWidth, Xor, Chunk, Scanned;
    }
  }

  class IndexBinaryHash {
    const d: nat
    const b: nat
    var nflip: nat
    var ntotal: nat
    var invlists: map<Word, InvertedList>
    ghost var stored: seq<Item>

    ghost predicate Valid()
      reads this
    {
      && b <= d && b <= 63
      && OfWidth(stored, d)
      && (forall h :: h in invlists ==> Holds(invlists[h], Bucket(stored, h, d, b)))
      && (forall h :: h !in invlists ==> Bucket(stored, h, d, b) == [])
    }

    constructor (d: nat, b: nat)
      requires b <= d && b <= 63
      ensures Valid() && stored == [] && ntotal == 0 && nflip == 0
      ensures this.d == d && this.b == b
    {
      this.d := d;
      this.b := b;
      nflip := 0;
      ntotal := 0;
      invlists := map[];
      stored := [];
    }

    /** The items that a call to AddWithIds stores. */
    ghost function NewItems(n: nat, x: Memory, xids: Option<seq<int>>, first: nat): (r: seq<Item>)
      requires xids.Some? ==> |xids.value| == n
      ensures OfWidth(r, d) && |r| == n
    {
      seq(n, i requires 0 <= i < n => Item(if xids.Some? then xids.value[i] else first + i, Vector(x, i * d, d)))
    }

    method AddWithIds(n: nat, x: Memory, xids: Option<seq<int>>)
      requires Valid()
      requires xids.Some? ==> |xids.value| == n
      modifies this
      ensures Valid() && nflip == old(nflip)
      ensures stored == old(stored) + NewItems(n, x, xids, old(ntotal))
      ensures ntotal == old(ntotal) + n
    {
      ghost var items := NewItems(n, x, xids, ntotal);
      for i := 0 to n
        invariant Valid() && nflip == old(nflip) && ntotal == old(ntotal)
        invariant stored == old(stored) + items[..i]
      {
        var id := if xids.Some? then xids.value[i] else ntotal + i;
        var hash := HashAt(x, i * d, 0, b);
        var xi := Vector(x, i * d, d);
        HashReadsVectorOnly(x, i * d, d, 0, b);
        AddOne(hash, id, xi);
        assert items[..i + 1] == items[..i] + [items[i]];
      }
      ntotal := ntotal + n;
    }

    /** invlists[hash].add(id, xi): the map makes an empty list on first access. */
    method AddOne(hash: Word, id: int, xi: Code)
      requires Valid() && |xi| == d && hash == Chunk(xi, 0, b)
      modifies this
      ensures Valid() && nflip == old(nflip) && ntotal == old(ntotal)
      ensures stored == old(stored) + [Item(id, xi)]
    {
      var il := if hash in invlists then invlists[hash] else InvertedList([], []);
      invlists := invlists[hash := InvertedList(il.ids + [id], il.vecs + [xi])];
      stored := stored + [Item(id, xi)];
      assert stored[..|stored| - 1] == old(stored);
    }

    lemma ValidShape()
      requires Valid()
      ensures b <= d && b <= 63 && OfWidth(stored, d)
    {
      hide Holds, Bucket;
    }

    lemma ListOfHash(hash: Word, q: Code)
      requires Valid() && |q| == d && b <= d && b <= 63 && OfWidth(stored, d)
      ensures OfWidth(Bucket(stored, hash, d, b), d)
      ensures hash in invlists ==> Holds(invlists[hash], Bucket(stored, hash, d, b))
      ensures hash !in invlists ==> ScanAll(Bucket(stored, hash, d, b), q, d) == multiset{}
    {
      hide Holds, Bucket;
    }

    /** search_single_query_template: probes the buckets of all hashes within nflip bits. */
    method Scan(q: Memory) returns (scan: seq<Entry>)
      requires Valid() && nflip <= b
      ensures multiset(scan) == ScanWithin(stored, Vector(q, 0, d), d, b, nflip)
    {
      hide *;
      ValidShape();
      ghost var qv := Vector(q, 0, d);
      var qhash := HashAt(q, 0, 0, b);
      HashReadsVectorOnly(q, 0, d, 0, b);
      var fe := new FlipEnumerator(b, nflip);
      scan := [];
      var more := true;
      ghost var done: seq<Word> := [];
      ghost var masks: set<Word> := {};
      NoMasks(stored, qv, d, b);
      while more
        invariant fe.Valid() && fe.nbit == b && fe.nflip <= fe.maxflip == nflip && fresh(fe)
        invariant more ==> fe.visited == done + [fe.x]
        invariant !more ==> fe.visited == done && forall w :: w in done <==> Candidate(w, b, nflip)
        invariant forall w :: w in masks <==> w in done
        invariant multiset(scan) == ScanMasks(stored, qv, d, b, masks)
        decreases more, nflip - fe.nflip, Value(fe.x)
      {
        var hash := Xor(qhash, fe.x);
        fe.ValidIsOrdered();
        NotVisitedTwice(fe.visited, done, fe.x);
        OneMoreMask(stored, qv, d, b, masks, fe.x);
        ListOfHash(hash, qv);
        if hash in invlists {
          var part := ScanList(invlists[hash], q, Bucket(stored, hash, d, b));
          scan := scan + part;
        }
        masks := masks + {fe.x};
        done := done + [fe.x];
        more := fe.Next();
      }
      AllMasksAreWithin(stored, qv, d, b, nflip, masks);
    }

    /** The loop over one inverted list. */
    method ScanList(il: InvertedList, q: Memory, ghost items: seq<Item>) returns (scan: seq<Entry>)
      requires OfWidth(items, d) && Holds(il, items)
      ensures multiset(scan) == ScanAll(items, Vector(q, 0, d), d)
    {
      var qv := Vector(q, 0, d);
      scan := [];
      assert items[..0] == [];
      for i := 0 to |il.ids|
        invariant multiset(scan) == ScanAll(items[..i], qv, d)
      {
        assert items[i] == Item(il.ids[i], il.vecs[i]);
        assert items[..i + 1][..i] == items[..i];
        scan := scan + [Entry(Hamming(qv, il.vecs[i]), il.ids[i])];
      }
      assert items[..|items|] == items;
    }

    /** Range search for one query. */
    method RangeSearch(q: Memory, radius: int) returns (res: seq<Entry>)
      requires Valid() && nflip <= b
      ensures RangeOf(multiset(res), ScanWithin(stored, Vector(q, 0, d), d, b, nflip), radius)
      ensures radius <= nflip + 1 || nflip == b ==> RangeOf(multiset(res), ScanAll(stored, Vector(q, 0, d), d), radius)
    {
      var scan := Scan(q);
      res := CollectRange(scan, radius);
      if radius <= nflip + 1 || nflip == b {
        RangeIsExact(stored, Vector(q, 0, d), d, b, nflip, radius, multiset(res));
      }
    }

    /** k nearest search for one query, into the row a[o..o+k]. */
    method Search(q: Memory, a: array<Entry>, o: nat, k: nat) returns (ok: bool)
      requires Valid() && nflip <= b && d < MAX_DIS && o + k <= a.Length
      modifies a
      ensures ok == (k > 0)
      ensures ok && (forall i :: 0 <= i < |stored| ==> stored[i].id != -1) ==> ResultRow(a[o..o + k], ScanWithin(stored, Vector(q, 0, d), d, b, nflip), k)
      ensures forall p :: 0 <= p < a.Length && !(ok && o <= p < o + k) ==> a[p] == old(a[p])
    {
      if k == 0 {
        return false;
      }
      var scan := Scan(q);
      if forall i :: 0 <= i < |stored| ==> stored[i].id != -1 {
        ScanIsGenuine(stored, Vector(q, 0, d), d, b, nflip);
      }
      CollectNearest(scan, a, o, k);
      ok := true;
    }
  }

  lemma {:induction false} NoMasks(items: seq<Item>, q: Code, d: nat, b: nat)
    requires OfWidth(items, d) && |q| == d && b <= d && b <= 63
    ensures ScanMasks(items, q, d, b, {}) == multiset{}
  {
    if items != [] {
      NoMasks(items[..|items| - 1], q, d, b);
    }
  }

  lemma NotVisitedTwice(visited: seq<Word>, done: seq<Word>, x: Word)
    requires Ordered(visited) && visited == done + [x]
    ensures x !in done
  {
    forall i | 0 <= i < |done|
      ensures done[i] != x
    {
      assert Before(visited[i], visited[|done|]);
    }
  }

  lemma {:induction false} ScanIsGenuine(items: seq<Item>, q: Code, d: nat, b: nat, nflip: nat)
    requires OfWidth(items, d) && |q| == d && b <= d && b <= 63 && d < MAX_DIS
    requires forall i :: 0 <= i < |items| ==> items[i].id != -1
    ensures Genuine(ScanWithin(items, q, d, b, nflip))
  {
    if items != [] {
      ScanIsGenuine(items[..|items| - 1], q, d, b, nflip);
    }
  }

  /** Searching at most nflip flips loses nothing below distance nflip + 1, and nothing at all when
      every hash is probed. */
  lemma {:induction false} RangeIsExact(items: seq<Item>, q: Code, d: nat, b: nat, nflip: nat, radius: int, res: multiset<Entry>)
    requires OfWidth(items, d) && |q| == d && b <= d && b <= 63
    requires radius <= nflip + 1 || nflip == b
    requires RangeOf(res, ScanWithin(items, q, d, b, nflip), radius)
    ensures RangeOf(res, ScanAll(items, q, d), radius)
  {
    NearItemsAreWithin(items, q, d, b, nflip, radius);
  }

  lemma {:induction false} NearItemsAreWithin(items: seq<Item>, q: Code, d: nat, b: nat, nflip: nat, radius: int)
    requires OfWidth(items, d) && |q| == d && b <= d && b <= 63
    requires radius <= nflip + 1 || nflip == b
    ensures forall e: Entry :: e.dis < radius ==> ScanWithin(items, q, d, b, nflip)[e] == ScanAll(items, q, d)[e]
  {
    if items != [] {
      var n := |items| - 1;
      NearItemsAreWithin(items[..n], q, d, b, nflip, radius);
      HashDistanceBelowHamming(q, items[n].code, 0, b);
      HashXorFits(q, items[n].code, 0, b);
    }
  }

  /** A scan never reports an item that brute force does not. */
  lemma {:induction false} WithinIsPart(items: seq<Item>, q: Code, d: nat, b: nat, nflip: nat)
    requires OfWidth(items, d) && |q| == d && b <= d && b <= 63
    ensures ScanWithin(items, q, d, b, nflip) <= ScanAll(items, q, d)
  {
    if items != [] {
      WithinIsPart(items[..|items| - 1], q, d, b, nflip);
    }
  }

  function FlipFirst(q: Code, n: nat): (v: Code)
    requires n <= |q|
    ensures |v| == |q|
  {
    seq(|q|, i requires 0 <= i < |q| => q[i] != (i < n))
  }

  lemma FlipFirstDistances(q: Code, b: nat, n: nat)
    requires n <= b <= |q| && b <= 63
    ensures Hamming(q, FlipFirst(q, n)) == n && HashDistance(q, FlipFirst(q, n), 0, b) == n
  {
    var v := FlipFirst(q, n);
    CountRange(Diff(q, v), 0, n, true);
    CountRange(Diff(q, v), n, |q|, false);
    var x := Xor(Chunk(q, 0, b), Chunk(v, 0, b));
    CountRange(x, 0, n, true);
    CountRange(x, n, 64, false);
  }

  /** Range search agrees with brute force on every data set exactly when the radius is within the
      flip budget, or every hash is probed. */
  lemma RangeExactIff(d: nat, b: nat, nflip: nat, radius: int)
    requires nflip <= b <= d && b <= 63
    ensures (forall items, q, res :: OfWidth(items, d) && |q| == d
               && RangeOf(res, ScanWithin(items, q, d, b, nflip), radius)
               ==> RangeOf(res, ScanAll(items, q, d), radius))
            <==> radius <= nflip + 1 || nflip == b
  {
    if radius <= nflip + 1 || nflip == b {
      forall items, q, res | OfWidth(items, d) && |q| == d
                             && RangeOf(res, ScanWithin(items, q, d, b, nflip), radius)
        ensures RangeOf(res, ScanAll(items, q, d), radius)
      {
        RangeIsExact(items, q, d, b, nflip, radius, res);
      }
    } else {
      var q: Code := seq(d, _ => false);
      var it := Item(0, FlipFirst(q, nflip + 1));
      FlipFirstDistances(q, b, nflip + 1);
      assert [it][..0] == [];
      assert OfWidth([it], d);
      var res: multiset<Entry> := multiset{};
      assert ScanWithin([it], q, d, b, nflip) == multiset{};
      assert RangeOf(res, ScanWithin([it], q, d, b, nflip), radius);
      assert ScanAll([it], q, d)[Entry(nflip + 1, 0)] == 1;
      assert !RangeOf(res, ScanAll([it], q, d), radius);
    }
  }

  /** When the true k-th distance is within the flip budget, the distances found are the true ones. */
  lemma SearchIsExact(items: seq<Item>, q: Code, d: nat, b: nat, nflip: nat, k: nat, exact: seq<Entry>, found: seq<Entry>)
    requires OfWidth(items, d) && |q| == d && b <= d && b <= 63 && nflip < MAX_DIS
    requires ResultRow(exact, ScanAll(items, q, d), k)
    requires ResultRow(found, ScanWithin(items, q, d, b, nflip), k)
    requires k > 0 ==> exact[k - 1].dis <= nflip
    ensures forall j :: 0 <= j < k ==> found[j].dis == exact[j].dis
  {
    hide KeepsNearest, ScanAll, ScanWithin, OfWidth;
    var all, within := ScanAll(items, q, d), ScanWithin(items, q, d, b, nflip);
    NearItemsAreWithin(items, q, d, b, nflip, nflip + 1);
    WithinIsPart(items, q, d, b, nflip);
    NearestOfPart(exact, all, within, k, nflip);
    ResultRowsAgree(exact, found, within, k);
  }
}
