/**
 The index with several hash tables over consecutive chunks of the vectors
 (faiss/IndexBinaryHash.cpp, IndexBinaryMultiHash).
 */
module MultiHash {
  import opened Words
  import opened FlipEnumeration
  import opened BinaryCodes
  import opened Heaps
  import opened Nearest
  import opened Collectors

  type Map = map<Word, seq<nat>>

  ghost predicate Dimensions(d: nat, nhash: nat, b: nat) {
    nhash * b <= d && b <= 63
  }

  lemma ChunkFits(d: nat, nhash: nat, b: nat, h: nat)
    requires Dimensions(d, nhash, b) && h < nhash
    ensures h * b + b <= d
  {
    assert (h + 1) * b <= nhash * b;
  }

  ghost predicate OfWidth(xb: seq<Code>, d: nat) {
    forall i :: 0 <= i < |xb| ==> |xb[i]| == d
  }

  /** The distance between two vectors as table h sees it. */
  ghost function TableDistance(q: Code, v: Code, nhash: nat, b: nat, h: nat): nat
    requires |q| == |v| && Dimensions(|q|, nhash, b) && h < nhash
  {
    ChunkFits(|q|, nhash, b, h);
    HashDistance(q, v, h * b, b)
  }

  /** One of the first h tables has the two vectors within nflip bits. */
  ghost predicate Reached(q: Code, v: Code, nhash: nat, b: nat, nflip: nat, h: nat)
    requires |q| == |v| && Dimensions(|q|, nhash, b) && h <= nhash
  {
    exists g: nat :: g < h && TableDistance(q, v, nhash, b, g) <= nflip
  }

  /** m is the scan that reports every reached vector once, by its id and its distance. */
  ghost predicate ReportsReached(m: multiset<Entry>, xb: seq<Code>, q: Code, nhash: nat, b: nat, nflip: nat)
    requires OfWidth(xb, |q|) && Dimensions(|q|, nhash, b)
  {
    forall e: Entry :: m[e] ==
      if 0 <= e.id < |xb| && e.dis == Hamming(q, xb[e.id]) && Reached(q, xb[e.id], nhash, b, nflip, nhash) then 1 else 0
  }

  /** Brute force: every stored vector once. */
  ghost predicate ReportsAll(m: multiset<Entry>, xb: seq<Code>, q: Code)
    requires OfWidth(xb, |q|)
  {
    forall e: Entry :: m[e] == if 0 <= e.id < |xb| && e.dis == Hamming(q, xb[e.id]) then 1 else 0
  }

  /** Every stored vector closer than the radius once, and nothing else. */
  ghost predicate ReportsInRadius(m: multiset<Entry>, xb: seq<Code>, q: Code, radius: int)
    requires OfWidth(xb, |q|)
  {
    forall e: Entry :: m[e] == if 0 <= e.id < |xb| && e.dis == Hamming(q, xb[e.id]) && e.dis < radius then 1 else 0
  }

  /** Every reached vector closer than the radius once, and nothing else. */
  ghost predicate ReachedInRadius(m: multiset<Entry>, xb: seq<Code>, q: Code, nhash: nat, b: nat, nflip: nat, radius: int)
    requires OfWidth(xb, |q|) && Dimensions(|q|, nhash, b)
  {
    forall e: Entry :: m[e] ==
      if 0 <= e.id < |xb| && e.dis == Hamming(q, xb[e.id]) && e.dis < radius && Reached(q, xb[e.id], nhash, b, nflip, nhash)
      then 1 else 0
  }

  /** m is these ids, each once, with their distances. */
  ghost predicate ListsOnce(m: multiset<Entry>, ids: set<nat>, xb: seq<Code>, q: Code)
    requires OfWidth(xb, |q|) && forall i :: i in ids ==> i < |xb|
  {
    forall e: Entry :: m[e] == if e.id in ids && e.dis == Hamming(q, xb[e.id]) then 1 else 0
  }

  /** ids are the vectors among the first n whose chunk at ho has this hash. */
  ghost predicate ListsHash(ids: seq<nat>, hash: Word, xb: seq<Code>, d: nat, ho: nat, b: nat)
    requires OfWidth(xb, d) && ho + b <= d && b <= 63
  {
    forall i: nat :: i in ids <==> i < |xb| && Chunk(xb[i], ho, b) == hash
  }

  ghost predicate Indexes(table: Map, xb: seq<Code>, d: nat, ho: nat, b: nat)
    requires OfWidth(xb, d) && ho + b <= d && b <= 63
  {
    forall hash: Word :: ListsHash(if hash in table then table[hash] else [], hash, xb, d, ho, b)
  }

  /** One more vector in a table: its id is appended to the list of its hash. */
  lemma IndexOneMore(table: Map, xb: seq<Code>, d: nat, ho: nat, b: nat, v: Code)
    requires OfWidth(xb, d) && |v| == d && ho + b <= d && b <= 63
    requires Indexes(table, xb, d, ho, b)
    ensures OfWidth(xb + [v], d)
    ensures var hash := Chunk(v, ho, b);
      var ids := if hash in table then table[hash] else [];
      Indexes(table[hash := ids + [|xb|]], xb + [v], d, ho, b)
  {
    var hash := Chunk(v, ho, b);
    var ids := if hash in table then table[hash] else [];
    var next := table[hash := ids + [|xb|]];
    forall h: Word
      ensures ListsHash(if h in next then next[h] else [], h, xb + [v], d, ho, b)
    {
      assert ListsHash(if h in table then table[h] else [], h, xb, d, ho, b);
      hide Chunk;
    }
  }

  /** The tables before h index the first n + 1 vectors, the others the first n. */
  ghost predicate Tables(maps: seq<Map>, xb: seq<Code>, d: nat, nhash: nat, b: nat, n: nat, h: nat)
    requires Dimensions(d, nhash, b) && OfWidth(xb, d)
  {
    && |maps| == nhash && n <= |xb| && (h > 0 ==> n < |xb|)
    && forall g: nat :: g < nhash ==> TableHas(maps[g], xb, d, nhash, b, g, if g < h then n + 1 else n)
  }

  ghost predicate TableHas(table: Map, xb: seq<Code>, d: nat, nhash: nat, b: nat, g: nat, n: nat)
    requires Dimensions(d, nhash, b) && OfWidth(xb, d) && g < nhash && n <= |xb|
  {
    ChunkFits(d, nhash, b, g);
    Indexes(table, xb[..n], d, g * b, b)
  }

  lemma TablesIgnoreNewVectors(maps: seq<Map>, xb: seq<Code>, more: seq<Code>, d: nat, nhash: nat, b: nat)
    requires Dimensions(d, nhash, b) && OfWidth(xb, d) && OfWidth(more, d)
    requires Tables(maps, xb, d, nhash, b, |xb|, 0)
    ensures OfWidth(xb + more, d) && Tables(maps, xb + more, d, nhash, b, |xb|, 0)
  {
    forall g: nat | g < nhash
      ensures TableHas(maps[g], xb + more, d, nhash, b, g, |xb|)
    {
      assert TableHas(maps[g], xb, d, nhash, b, g, |xb|);
      hide Indexes;
      assert (xb + more)[..|xb|] == xb[..|xb|];
    }
  }

  lemma TablesSize(maps: seq<Map>, xb: seq<Code>, d: nat, nhash: nat, b: nat, n: nat, h: nat)
    requires Dimensions(d, nhash, b) && OfWidth(xb, d)
    requires Tables(maps, xb, d, nhash, b, n, h)
    ensures |maps| == nhash
  {
  }

  lemma NextVector(maps: seq<Map>, xb: seq<Code>, d: nat, nhash: nat, b: nat, n: nat)
    requires Dimensions(d, nhash, b) && OfWidth(xb, d) && n < |xb|
    requires Tables(maps, xb, d, nhash, b, n, nhash)
    ensures Tables(maps, xb, d, nhash, b, n + 1, 0)
  {
    hide TableHas;
  }

  /** Table h takes vector n. */
  lemma NextTable(maps: seq<Map>, xb: seq<Code>, d: nat, nhash: nat, b: nat, n: nat, h: nat, table: Map)
    requires Dimensions(d, nhash, b) && OfWidth(xb, d) && n < |xb| && h < nhash && h * b + b <= d
    requires Tables(maps, xb, d, nhash, b, n, h)
    requires var hash := Chunk(xb[n], h * b, b);
      table == maps[h][hash := (if hash in maps[h] then maps[h][hash] else []) + [n]]
    ensures Tables(maps[h := table], xb, d, nhash, b, n, h + 1)
  {
    assert TableHas(maps[h], xb, d, nhash, b, h, n);
    IndexOneMore(maps[h], xb[..n], d, h * b, b, xb[n]);
    assert xb[..n] + [xb[n]] == xb[..n + 1];
    assert TableHas(table, xb, d, nhash, b, h, n + 1);
    hide TableHas;
    var next := maps[h := table];
    forall g: nat | g < nhash
      ensures TableHas(next[g], xb, d, nhash, b, g, if g < h + 1 then n + 1 else n)
    {
      assert TableHas(maps[g], xb, d, nhash, b, g, if g < h then n + 1 else n);
    }
  }

  lemma ReachedStep(q: Code, v: Code, nhash: nat, b: nat, nflip: nat, h: nat)
    requires |q| == |v| && Dimensions(|q|, nhash, b) && h < nhash
    ensures Reached(q, v, nhash, b, nflip, h + 1)
       <==> Reached(q, v, nhash, b, nflip, h) || TableDistance(q, v, nhash, b, h) <= nflip
  {
    hide TableDistance;
    if Reached(q, v, nhash, b, nflip, h + 1) {
      var g: nat :| g < h + 1 && TableDistance(q, v, nhash, b, g) <= nflip;
    }
    if Reached(q, v, nhash, b, nflip, h) {
      var g: nat :| g < h && TableDistance(q, v, nhash, b, g) <= nflip;
      assert g < h + 1;
    }
  }

  /** Two hashes are near exactly when their difference is a mask that the enumerator lists. */
  lemma NearIffCandidate(q: Code, v: Code, ho: nat, b: nat, nflip: nat)
    requires |q| == |v| && ho + b <= |q| && b <= 63
    ensures Candidate(Xor(Chunk(q, ho, b), Chunk(v, ho, b)), b, nflip) <==> HashDistance(q, v, ho, b) <= nflip
  {
    HashXorFits(q, v, ho, b);
    hide Xor, Chunk, Popcount, Fits;
  }

  class IndexBinaryMultiHash {
    const d: nat
    const nhash: nat
    const b: nat
    var nflip: nat
    var ntotal: nat
    var storage: seq<Code>
    var maps: seq<Map>

    ghost predicate Shaped()
      reads this
    {
      Dimensions(d, nhash, b) && OfWidth(storage, d)
    }

    ghost predicate Valid()
      reads this
    {
      Shaped() && ntotal == |storage| && Tables(maps, storage, d, nhash, b, ntotal, 0)
    }

    constructor (d: nat, nhash: nat, b: nat)
      requires Dimensions(d, nhash, b)
      ensures Valid() && storage == [] && nflip == 0
      ensures this.d == d && this.nhash == nhash && this.b == b
    {
      this.d := d;
      this.nhash := nhash;
      this.b := b;
      nflip := 0;
      ntotal := 0;
      storage := [];
      maps := seq(nhash, _ => map[]);
    }

    method Add(n: nat, x: Memory)
      requires Valid()
      modifies this
      ensures Valid() && nflip == old(nflip)
      ensures storage == old(storage) + seq(n, i requires 0 <= i < n => Vector(x, i * d, d))
    {
      var xs := seq(n, i requires 0 <= i < n => Vector(x, i * d, d));
      TablesIgnoreNewVectors(maps, storage, xs, d, nhash, b);
      hide Tables;
      storage := storage + xs;
      for i := 0 to n
        invariant Shaped() && nflip == old(nflip) && ntotal == old(ntotal) && storage == old(storage) + xs
        invariant Tables(maps, storage, d, nhash, b, ntotal + i, 0)
      {
        AddToMaps(x, i * d, ntotal + i);
      }
      ntotal := ntotal + n;
    }

    /** The loop over the tables for one vector. */
    method AddToMaps(x: Memory, at: nat, id: nat)
      requires Shaped() && id < |storage| && Vector(x, at, d) == storage[id]
      requires Tables(maps, storage, d, nhash, b, id, 0)
      modifies this`maps
      ensures Tables(maps, storage, d, nhash, b, id + 1, 0)
    {
      var ho := 0;
      TablesSize(maps, storage, d, nhash, b, id, 0);
      hide Tables;
      for h := 0 to nhash
        invariant ho == h * b && |maps| == nhash
        invariant Tables(maps, storage, d, nhash, b, id, h)
      {
        ChunkFits(d, nhash, b, h);
        var hash := HashAt(x, at, ho, b);
        HashReadsVectorOnly(x, at, d, ho, b);
        var ids := if hash in maps[h] then maps[h][hash] else [];
        NextTable(maps, storage, d, nhash, b, id, h, maps[h][hash := ids + [id]]);
        maps := maps[h := maps[h][hash := ids + [id]]];
        ho := ho + b;
      }
      NextVector(maps, storage, d, nhash, b, id);
    }

    lemma ValidIsShaped()
      requires Valid()
      ensures Shaped() && Dimensions(d, nhash, b) && OfWidth(storage, d) && |maps| == nhash
      ensures forall i :: 0 <= i < |storage| ==> |storage[i]| == d
    {
      TablesSize(maps, storage, d, nhash, b, ntotal, 0);
      hide Tables;
    }

    lemma TableReady(h: nat)
      requires Valid() && h < nhash == |maps|
      ensures h * b + b <= d && h * b + b == (h + 1) * b && Indexes(maps[h], storage, d, h * b, b)
    {
      ChunkFits(d, nhash, b, h);
      assert TableHas(maps[h], storage, d, nhash, b, h, ntotal);
      assert storage[..ntotal] == storage;
      hide Tables, Indexes;
    }

    lemma NextReached(q: Code, h: nat)
      requires Shaped() && |q| == d && h < nhash && h * b + b <= d
      requires forall i :: 0 <= i < |storage| ==> |storage[i]| == d
      ensures forall i: nat :: i < |storage| ==>
        (Reached(q, storage[i], nhash, b, nflip, h + 1) <==>
         Reached(q, storage[i], nhash, b, nflip, h) || HashDistance(q, storage[i], h * b, b) <= nflip)
    {
      hide Reached;
      forall i: nat | i < |storage|
        ensures Reached(q, storage[i], nhash, b, nflip, h + 1) <==>
          Reached(q, storage[i], nhash, b, nflip, h) || HashDistance(q, storage[i], h * b, b) <= nflip
      {
        ReachedStep(q, storage[i], nhash, b, nflip, h);
      }
    }

    lemma NothingReached(q: Code)
      requires Shaped() && |q| == d
      ensures forall i: nat :: i < |storage| ==> !Reached(q, storage[i], nhash, b, nflip, 0)
    {
      hide TableDistance;
    }

    /** The candidate ids of one query (the table loop of search_1_query_multihash). */
    method ShortList(q: Memory) returns (shortlist: set<nat>)
      requires Valid() && nflip <= b
      ensures forall i: nat :: i in shortlist <==>
        i < |storage| && Reached(Vector(q, 0, d), storage[i], nhash, b, nflip, nhash)
    {
      hide *;
      ValidIsShaped();
      ghost var qv := Vector(q, 0, d);
      NothingReached(qv);
      shortlist := {};
      var ho := 0;
      for h := 0 to nhash
        invariant ho == h * b
        invariant forall i: nat :: i in shortlist <==>
          i < |storage| && Reached(qv, storage[i], nhash, b, nflip, h)
      {
        TableReady(h);
        shortlist := ProbeTable(q, maps[h], ho, shortlist);
        ho := ho + b;
        NextReached(qv, h);
      }
    }

    lemma ShapeFacts()
      requires Shaped()
      ensures b <= 63 && forall i :: 0 <= i < |storage| ==> |storage[i]| == d
    {
    }

    lemma ListAt(table: Map, hash: Word, ho: nat)
      requires Shaped() && b <= 63 && ho + b <= d && Indexes(table, storage, d, ho, b)
      requires forall i :: 0 <= i < |storage| ==> |storage[i]| == d
      ensures hash in table ==> forall i: nat :: i in table[hash] <==> i < |storage| && Chunk(storage[i], ho, b) == hash
      ensures hash !in table ==> forall i: nat :: i < |storage| ==> Chunk(storage[i], ho, b) != hash
    {
      assert ListsHash(if hash in table then table[hash] else [], hash, storage, d, ho, b);
      hide Chunk;
    }

    /** The do-while loop over the hashes near the query's in one table. */
    method ProbeTable(q: Memory, table: Map, ho: nat, shortlist: set<nat>) returns (r: set<nat>)
      requires Shaped() && nflip <= b && ho + b <= d
      requires Indexes(table, storage, d, ho, b)
      ensures forall i: nat :: i in r <==>
        i in shortlist || (i < |storage| && HashDistance(Vector(q, 0, d), storage[i], ho, b) <= nflip)
    {
      hide *;
      ShapeFacts();
      ghost var qv := Vector(q, 0, d);
      var qhash := HashAt(q, 0, ho, b);
      HashReadsVectorOnly(q, 0, d, ho, b);
      var fe := new FlipEnumerator(b, nflip);
      r := shortlist;
      ghost var done: seq<Word> := [];
      var more := true;
      while more
        invariant fe.Valid() && fe.nbit == b && fe.nflip <= fe.maxflip == nflip && fresh(fe)
        invariant more ==> fe.visited == done + [fe.x]
        invariant !more ==> fe.visited == done && forall w :: w in done <==> Candidate(w, b, nflip)
        invariant forall i: nat :: i in r <==>
          i in shortlist || (i < |storage| && Xor(qhash, Chunk(storage[i], ho, b)) in done)
        decreases more, nflip - fe.nflip, Value(fe.x)
      {
        var hash := Xor(qhash, fe.x);
        ListAt(table, hash, ho);
        if hash in table {
          r := InsertAll(table[hash], r);
        }
        forall i: nat | i < |storage|
          ensures Chunk(storage[i], ho, b) == hash <==> Xor(qhash, Chunk(storage[i], ho, b)) == fe.x
        {
          XorTwice(qhash, Chunk(storage[i], ho, b));
          XorTwice(qhash, fe.x);
        }
        done := done + [fe.x];
        more := fe.Next();
      }
      forall i: nat | i < |storage|
        ensures Xor(qhash, Chunk(storage[i], ho, b)) in done <==> HashDistance(qv, storage[i], ho, b) <= nflip
      {
        NearIffCandidate(qv, storage[i], ho, b, nflip);
      }
    }

    /** Distances of the short list, in the arbitrary order of an unordered set (verify_shortlist). */
    method VerifyShortList(q: Memory, shortlist: set<nat>) returns (scan: seq<Entry>)
      requires Shaped() && forall i :: i in shortlist ==> i < |storage|
      ensures ListsOnce(multiset(scan), shortlist, storage, Vector(q, 0, d))
    {
      var qv := Vector(q, 0, d);
      var rest := shortlist;
      scan := [];
      while rest != {}
        invariant rest <= shortlist
        invariant ListsOnce(multiset(scan), shortlist - rest, storage, qv)
        decreases rest
      {
        var i :| i in rest;
        scan := scan + [Entry(Hamming(qv, storage[i]), i)];
        rest := rest - {i};
      }
    }

    /** Range search for one query: every reached id below the radius once, and within the budget every id
        below the radius. */
    method RangeSearch(q: Memory, radius: int) returns (res: seq<Entry>)
      requires Valid() && nflip <= b
      ensures ReachedInRadius(multiset(res), storage, Vector(q, 0, d), nhash, b, nflip, radius)
      ensures WithinBudget(nhash, b, nflip, radius) ==> ReportsInRadius(multiset(res), storage, Vector(q, 0, d), radius)
    {
      var shortlist := ShortList(q);
      hide Tables, Reached;
      var scan := VerifyShortList(q, shortlist);
      res := CollectRange(scan, radius);
      if WithinBudget(nhash, b, nflip, radius) {
        RangeIsExact(storage, Vector(q, 0, d), nhash, b, nflip, radius, multiset(scan), multiset(res));
      }
    }

    method Search(q: Memory, a: array<Entry>, o: nat, k: nat) returns (ok: bool, ghost scanned: multiset<Entry>)
      requires Valid() && nflip <= b && d < MAX_DIS && o + k <= a.Length
      modifies a
      ensures ok == (k > 0)
      ensures ok ==> ReportsReached(scanned, storage, Vector(q, 0, d), nhash, b, nflip)
      ensures ok ==> ResultRow(a[o..o + k], scanned, k)
      ensures forall p :: 0 <= p < a.Length && !(ok && o <= p < o + k) ==> a[p] == old(a[p])
    {
      if k == 0 {
        return false, multiset{};
      }
      var shortlist := ShortList(q);
      hide Tables, Reached, KeepsNearest;
      var scan := VerifyShortList(q, shortlist);
      scanned := multiset(scan);
      CollectNearest(scan, a, o, k);
      ok := true;
    }
  }

  method InsertAll(v: seq<nat>, s: set<nat>) returns (r: set<nat>)
    ensures forall i :: i in r <==> i in s || i in v
  {
    r := s;
    for k := 0 to |v|
      invariant forall i :: i in r <==> i in s || i in v[..k]
    {
      r := r + {v[k]};
    }
  }

  /** If no table below h has the vectors near, their first h chunks hold h * (nflip + 1) differences. */
  lemma {:induction false} UnreachedIsFar(q: Code, v: Code, nhash: nat, b: nat, nflip: nat, h: nat)
    requires |q| == |v| && Dimensions(|q|, nhash, b) && h <= nhash
    requires forall g: nat :: g < nhash ==> TableDistance(q, v, nhash, b, g) > nflip
    ensures h * b <= |q| && Count(Diff(q, v), h * b) >= h * (nflip + 1)
    decreases h
  {
    if h > 0 {
      ChunkFits(|q|, nhash, b, h - 1);
      UnreachedIsFar(q, v, nhash, b, nflip, h - 1);
      var ho := (h - 1) * b;
      assert HashDistance(q, v, ho, b) == TableDistance(q, v, nhash, b, h - 1) > nflip;
      ChunkPrefix(h, b);
      ChunkPrefix(h, nflip + 1);
      HashDistanceBound(q, v, ho, b);
    }
  }

  /** The pigeonhole: fewer than nhash * (nflip + 1) differences leave some chunk with at most nflip. */
  lemma NearIsReached(q: Code, v: Code, nhash: nat, b: nat, nflip: nat)
    requires |q| == |v| && Dimensions(|q|, nhash, b)
    requires Hamming(q, v) < nhash * (nflip + 1)
    ensures Reached(q, v, nhash, b, nflip, nhash)
  {
    if !Reached(q, v, nhash, b, nflip, nhash) {
      UnreachedIsFar(q, v, nhash, b, nflip, nhash);
      CountMonotone(Diff(q, v), nhash * b, |q|);
      assert false;
    }
  }

  /** When every hash of a table is probed, every vector is reached. */
  lemma FullProbeReaches(q: Code, v: Code, nhash: nat, b: nat)
    requires |q| == |v| && Dimensions(|q|, nhash, b) && nhash > 0
    ensures Reached(q, v, nhash, b, b, nhash)
  {
    ChunkFits(|q|, nhash, b, 0);
    HashXorFits(q, v, 0 * b, b);
    assert TableDistance(q, v, nhash, b, 0) <= b;
  }

  ghost predicate WithinBudget(nhash: nat, b: nat, nflip: nat, radius: int) {
    radius <= nhash * (nflip + 1) || (nflip == b && nhash > 0)
  }

  /** Below that radius the range results are those of brute force: every id once, with its distance. */
  lemma RangeIsExact(xb: seq<Code>, q: Code, nhash: nat, b: nat, nflip: nat, radius: int,
                     scanned: multiset<Entry>, res: multiset<Entry>)
    requires OfWidth(xb, |q|) && Dimensions(|q|, nhash, b)
    requires WithinBudget(nhash, b, nflip, radius)
    requires ReportsReached(scanned, xb, q, nhash, b, nflip) && RangeOf(res, scanned, radius)
    ensures ReportsInRadius(res, xb, q, radius)
  {
    hide Reached;
    forall e: Entry
      ensures res[e] == (if 0 <= e.id < |xb| && e.dis == Hamming(q, xb[e.id]) && e.dis < radius then 1 else 0)
    {
      if 0 <= e.id < |xb| && e.dis == Hamming(q, xb[e.id]) && e.dis < radius {
        if radius <= nhash * (nflip + 1) {
          NearIsReached(q, xb[e.id], nhash, b, nflip);
        } else {
          FullProbeReaches(q, xb[e.id], nhash, b);
        }
      }
    }
  }

  /** The distances found are the true ones when the true k-th distance is below nhash * (nflip + 1). */
  lemma SearchIsExact(xb: seq<Code>, q: Code, nhash: nat, b: nat, nflip: nat, k: nat,
                      all: multiset<Entry>, scanned: multiset<Entry>, exact: seq<Entry>, found: seq<Entry>)
    requires OfWidth(xb, |q|) && Dimensions(|q|, nhash, b)
    requires ReportsAll(all, xb, q) && ReportsReached(scanned, xb, q, nhash, b, nflip)
    requires ResultRow(exact, all, k) && ResultRow(found, scanned, k)
    requires k > 0 ==> exact[k - 1].dis < nhash * (nflip + 1) && exact[k - 1].dis < MAX_DIS
    ensures forall j :: 0 <= j < k ==> found[j].dis == exact[j].dis
  {
    if k > 0 {
      hide Reached, KeepsNearest;
      var t := exact[k - 1].dis;
      forall e: Entry
        ensures scanned[e] <= all[e]
        ensures e.dis <= t ==> scanned[e] == all[e]
      {
        if 0 <= e.id < |xb| && e.dis == Hamming(q, xb[e.id]) && e.dis <= t {
          NearIsReached(q, xb[e.id], nhash, b, nflip);
        }
      }
      assert scanned <= all;
      NearestOfPart(exact, all, scanned, k, t);
      ResultRowsAgree(exact, found, scanned, k);
    }
  }

  /** A vector that differs from q in the first n bits of each of the nhash chunks. */
  function FlipChunks(q: Code, nhash: nat, b: nat, n: nat): (v: Code)
    requires b > 0
    ensures |v| == |q|
  {
    seq(|q|, i requires 0 <= i < |q| => q[i] != (i < nhash * b && i % b < n))
  }

  lemma {:induction false} FlippedBits(q: Code, nhash: nat, b: nat, n: nat, h: nat)
    requires Dimensions(|q|, nhash, b) && 0 < b && n <= b && h <= nhash
    ensures h * b <= nhash * b && Count(Diff(q, FlipChunks(q, nhash, b, n)), h * b) == h * n
    decreases h
  {
    var diff := Diff(q, FlipChunks(q, nhash, b, n));
    assert h * b <= nhash * b;
    if h > 0 {
      FlippedBits(q, nhash, b, n, h - 1);
      var lo := (h - 1) * b;
      assert lo + b == h * b && (h - 1) * n + n == h * n;
      forall i | lo <= i < lo + b
        ensures diff[i] == (i - lo < n)
      {
        OffsetInChunk(h - 1, b, i - lo);
      }
      CountRange(diff, lo, lo + n, true);
      CountRange(diff, lo + n, lo + b, false);
    }
  }

  lemma OffsetInChunk(h: nat, b: nat, r: nat)
    requires r < b
    ensures (h * b + r) % b == r
  {
    var n := h * b + r;
    var e := n / b - h;
    assert b * e == b * (n / b) - b * h == r - n % b;
    assert e >= 1 ==> b * e >= b;
    assert e <= -1 ==> b * e + b <= 0;
  }

  lemma ChunkPrefix(h: nat, m: nat)
    requires h > 0
    ensures (h - 1) * m + m == h * m
  {
  }

  /** Every table sees n flipped bits, so none is within n - 1. */
  lemma FlippedIsUnreached(q: Code, nhash: nat, b: nat, n: nat)
    requires Dimensions(|q|, nhash, b) && 0 < n <= b <= 57
    ensures !Reached(q, FlipChunks(q, nhash, b, n), nhash, b, n - 1, nhash)
  {
    var v := FlipChunks(q, nhash, b, n);
    forall h: nat | h < nhash
      ensures TableDistance(q, v, nhash, b, h) == n
    {
      var ho := h * b;
      ChunkFits(|q|, nhash, b, h);
      var x := Xor(Chunk(q, ho, b), Chunk(v, ho, b));
      forall i | 0 <= i < b
        ensures x[i] == (i < n)
      {
        OffsetInChunk(h, b, i);
        InsideChunks(nhash, b, h, i);
        assert ho % 8 + i < 64;
      }
      CountRange(x, 0, n, true);
      CountRange(x, n, 64, false);
    }
  }

  lemma InsideChunks(nhash: nat, b: nat, h: nat, i: nat)
    requires h < nhash && i < b
    ensures h * b + i < nhash * b
  {
    assert (h + 1) * b <= nhash * b;
  }

  lemma FlippedDistance(q: Code, nhash: nat, b: nat, n: nat)
    requires Dimensions(|q|, nhash, b) && 0 < b && n <= b
    ensures Hamming(q, FlipChunks(q, nhash, b, n)) == nhash * n
  {
    FlippedBits(q, nhash, b, n, nhash);
    CountRange(Diff(q, FlipChunks(q, nhash, b, n)), nhash * b, |q|, false);
  }

  /** Multi-hash range search agrees with brute force on every data set exactly when the radius is
      at most nhash * (nflip + 1), or a table is probed completely. */
  lemma RangeExactIff(d: nat, nhash: nat, b: nat, nflip: nat, radius: int)
    requires Dimensions(d, nhash, b) && nflip <= b && 0 < b <= 57
    ensures WithinBudget(nhash, b, nflip, radius) <==>
      forall xb, q, scanned, res :: OfWidth(xb, d) && |q| == d
        && ReportsReached(scanned, xb, q, nhash, b, nflip) && RangeOf(res, scanned, radius)
        ==> ReportsInRadius(res, xb, q, radius)
  {
    if WithinBudget(nhash, b, nflip, radius) {
      forall xb, q, scanned, res | OfWidth(xb, d) && |q| == d
        && ReportsReached(scanned, xb, q, nhash, b, nflip) && RangeOf(res, scanned, radius)
        ensures ReportsInRadius(res, xb, q, radius)
      {
        RangeIsExact(xb, q, nhash, b, nflip, radius, scanned, res);
      }
    } else {
      var xb, q, none := CounterExample(d, nhash, b, nflip, radius);
    }
  }

  lemma CounterExample(d: nat, nhash: nat, b: nat, nflip: nat, radius: int)
    returns (xb: seq<Code>, q: Code, none: multiset<Entry>)
    requires Dimensions(d, nhash, b) && nflip <= b && 0 < b <= 57
    requires !WithinBudget(nhash, b, nflip, radius)
    ensures OfWidth(xb, d) && |q| == d
    ensures ReportsReached(none, xb, q, nhash, b, nflip) && RangeOf(none, none, radius)
    ensures !ReportsInRadius(none, xb, q, radius)
  {
    q := seq(d, _ => false);
    var n := if nflip == b then b else nflip + 1;
    var v := FlipChunks(q, nhash, b, n);
    xb, none := [v], multiset{};
    FlippedDistance(q, nhash, b, n);
    if nhash > 0 {
      FlippedIsUnreached(q, nhash, b, n);
    }
    assert nhash * n < radius;
    assert none[Entry(nhash * n, 0)] == 0;
  }
}
