/**
 The in-place bucket sort with several threads (faiss/utils/sorting.cpp, bucket_sort_inplace_parallel). Rounds
 of writes push rows around: every row that is written uncovers another one, which is written in the next
 round. Pads start the process, and a bucket that is full wraps around and writes over its pads. A bucket
 belongs to one thread, so that the threads of a round touch different cells.
 */
module ParallelBucketSort {

  import opened BucketSort

  // The checks and the limits.

  predicate AllWithin(vals: seq<int>, n: nat) {
    forall i :: 0 <= i < |vals| ==> 0 <= vals[i] < n
  }

  /** The checks of the sort in their order. The histogram of a thread has one place more than there are
      buckets and values are not compared with their number: larger ones are counted past its end, negative
      ones before its start, and only a value in the additional place is noticed, when the limits are added up. */
  function ParallelOutcome(vals: seq<int>, nbucket: nat): Outcome {
    if nbucket >= |vals| then Refused
    else if !AllWithin(vals, nbucket + 1) then Overrun
    else if AllWithin(vals, nbucket) then Outcome.Sorted
    else Refused
  }

  /** The limits add up to the number of values exactly when every value has a bucket. */
  lemma {:induction false} BelowAddsUpIff(vals: seq<int>, n: nat, nbucket: nat)
    requires n <= |vals| && forall i :: 0 <= i < |vals| ==> 0 <= vals[i]
    ensures CountBelow(vals[..n], nbucket) <= n
    ensures CountBelow(vals[..n], nbucket) == n <==> AllWithin(vals[..n], nbucket)
  {
    if n == 0 {
      NothingBelow(vals[..0], nbucket);
    } else {
      BelowAddsUpIff(vals, n - 1, nbucket);
      OneMoreBelow(vals[..n - 1], vals[n - 1], nbucket);
      hide CountBelow;
      assert vals[..n - 1] + [vals[n - 1]] == vals[..n];
      assert forall i :: 0 <= i < n - 1 ==> vals[..n - 1][i] == vals[..n][i];
      assert vals[..n][n - 1] == vals[n - 1];
      assert AllWithin(vals[..n], nbucket) <==> AllWithin(vals[..n - 1], nbucket) && vals[n - 1] < nbucket;
    }
  }

  /** The limits of bucket_sort_inplace_parallel, and how the sort ends. */
  method ParallelLimits(vals: array<int>, nbucket: nat, lims: array<int>) returns (outcome: Outcome)
    requires vals != lims && nbucket < lims.Length
    modifies lims
    ensures outcome == ParallelOutcome(vals[..], nbucket)
    ensures outcome == Outcome.Sorted ==> Limits(lims[..nbucket + 1], vals[..]) && lims[0] == 0
  {
    hide CountBelow, CountOf;
    if nbucket >= vals.Length {
      return Refused;
    }
    var local := new int[nbucket + 1];
    var inside := LocalHistogram(vals, local);
    if !inside {
      return Overrun;
    }
    BelowStep(vals[..]);
    NoneOrAll(vals[..], vals.Length, -1);
    lims[0] := 0;
    ghost var counts := local[..];
    for i := 0 to nbucket
      invariant local[..] == counts
      invariant forall b :: 0 <= b <= i ==> lims[b] == CountBelow(vals[..], b)
    {
      assert local[i] == counts[i] == CountOf(vals[..], vals.Length, i);
      lims[i + 1] := local[i] + lims[i];
    }
    assert vals[..][..vals.Length] == vals[..];
    BelowAddsUpIff(vals[..], vals.Length, nbucket);
    outcome := if lims[nbucket] == vals.Length then Outcome.Sorted else Refused;
  }

  /** The histogram of a thread. Nothing when a value lies past its end or before its start. */
  method LocalHistogram(vals: array<int>, local: array<int>) returns (inside: bool)
    requires vals != local
    modifies local
    ensures inside <==> AllWithin(vals[..], local.Length)
    ensures inside ==> forall b :: 0 <= b < local.Length ==> local[b] == CountOf(vals[..], vals.Length, b)
  {
    for b := 0 to local.Length
      invariant forall a :: 0 <= a < b ==> local[a] == 0
    {
      local[b] := 0;
    }
    for i := 0 to vals.Length
      invariant forall k :: 0 <= k < i ==> 0 <= vals[k] < local.Length
      invariant forall b :: 0 <= b < local.Length ==> local[b] == CountOf(vals[..], i, b)
    {
      if vals[i] < 0 || vals[i] >= local.Length {
        return false;
      }
      local[vals[i]] := local[vals[i]] + 1;
    }
    inside := true;
  }

  // The rounds.

  /** A problem without values of -1: every cell names a bucket and belongs to one. */
  ghost predicate AllNamed(x: Problem) {
    && x.ncol > 0 && |x.lims| >= 2 && |x.own| == |x.input| > 0 && x.lims[0] == 0
    && (forall i :: 0 <= i < |x.input| ==> 0 <= x.input[i] < |x.lims| - 1)
    && (forall p :: 0 <= p < |x.own| ==> InBucket(x.lims, p, x.own[p]))
    && Limits(x.lims, x.input) && Owners(x.own, x.lims)
  }

  /** What a cell holds: the value it came with, a pad, or a row at its final place. */
  datatype Kind = Raw | Pad | Done

  datatype Store = Store(cells: seq<int>, kind: seq<Kind>, from: map<int, int>, to: map<int, int>)

  /** The cells with their maps, what is still to be written to each bucket (input cells whose rows are not
      placed yet, or -1 for a pad), and where each bucket goes on. */
  datatype Run = Run(m: Store, queue: seq<seq<int>>, ptrs: seq<int>, wrapped: seq<bool>)

  ghost predicate KindHolds(x: Problem, m: Store, p: nat)
    requires p < |x.input| == |m.cells| == |m.kind|
  {
    match m.kind[p]
    case Raw => m.cells[p] == x.input[p] && p !in m.from && p !in m.to
    case Pad => m.cells[p] == -1 && p !in m.from
    case Done => p in m.from
  }

  ghost predicate Stored(x: Problem, m: Store) {
    && x.ncol > 0 && |m.cells| == |m.kind| == |x.input| == |x.own|
    && Placed(m.cells, x.input, x.own, m.from, m.to, x.ncol) && Inverse(m.from, m.to)
    && forall p: nat :: p < |x.input| ==> KindHolds(x, m, p)
  }

  /** A pad, or a cell of this bucket that has been written over and whose row has no place yet. */
  ghost predicate Owed(x: Problem, m: Store, b: int, c: int)
    requires |m.kind| == |x.input|
  {
    c == -1 || (0 <= c < |x.input| && x.input[c] == b && m.kind[c] != Raw && c !in m.to)
  }

  ghost predicate NoneTwice(q: seq<int>) {
    forall i, j :: 0 <= i < j < |q| && q[i] == q[j] ==> q[i] == -1
  }

  ghost predicate QueueGood(x: Problem, m: Store, b: int, q: seq<int>)
    requires |m.kind| == |x.input|
  {
    NoneTwice(q) && forall i :: 0 <= i < |q| ==> Owed(x, m, b, q[i])
  }

  /** No row is lost: what has been written over is placed or waits. */
  ghost predicate NotLost(x: Problem, m: Store, queue: seq<seq<int>>, c: nat)
    requires |m.kind| == |x.input| && c < |x.input|
  {
    m.kind[c] != Raw ==> c in m.to || (0 <= x.input[c] < |queue| && c in queue[x.input[c]])
  }

  ghost predicate Awaited(x: Problem, m: Store, queue: seq<seq<int>>)
    requires |m.kind| == |x.input|
  {
    && (forall b: nat {:trigger queue[b]} :: b < |queue| ==> QueueGood(x, m, b, queue[b]))
    && forall c: nat :: c < |x.input| ==> NotLost(x, m, queue, c)
  }

  /** From lo on: pads up to the k-th cell and rows behind them as far as ptr; after wrapping around, rows
      take the places of the pads. */
  function KindAt(lo: int, k: nat, ptr: int, wrapped: bool, p: int): Kind {
    if wrapped then (if p < ptr || p >= lo + k then Done else Pad)
    else if p >= ptr then Raw
    else if p < lo + k then Pad
    else Done
  }

  /** Pads that a bucket still has to write. */
  function Left(lo: int, k: nat, ptr: int, wrapped: bool): nat {
    if wrapped || ptr >= lo + k then 0 else lo + k - ptr
  }

  ghost predicate BucketGood(lo: int, hi: int, k: nat, ptr: int, wrapped: bool, q: seq<int>) {
    && lo <= ptr <= hi && k <= hi - lo && (hi > lo ==> k > 0)
    && (wrapped ==> lo < ptr <= lo + k)
    && Left(lo, k, ptr, wrapped) <= |q|
    && forall i :: 0 <= i < |q| ==> (q[i] == -1 <==> i < Left(lo, k, ptr, wrapped))
  }

  ghost predicate Shaped(x: Problem, pads: seq<nat>, s: Run) {
    && AllNamed(x) && |s.m.kind| == |x.input| && |s.queue| == |s.ptrs| == |s.wrapped| == |pads| == |x.lims| - 1
  }

  ghost predicate KindPlaced(x: Problem, pads: seq<nat>, s: Run, p: nat)
    requires Shaped(x, pads, s) && p < |x.input|
  {
    var b := x.own[p];
    0 <= b < |pads| && s.m.kind[p] == KindAt(x.lims[b], pads[b], s.ptrs[b], s.wrapped[b], p)
  }

  ghost predicate Zoned(x: Problem, pads: seq<nat>, s: Run)
    requires Shaped(x, pads, s)
  {
    && (forall b: nat {:trigger s.queue[b]} :: b < |pads| ==>
        BucketGood(x.lims[b], x.lims[b + 1], pads[b], s.ptrs[b], s.wrapped[b], s.queue[b]))
    && forall p: nat :: p < |x.input| ==> KindPlaced(x, pads, s, p)
  }

  ghost predicate Passing(x: Problem, pads: seq<nat>, s: Run) {
    Shaped(x, pads, s) && Stored(x, s.m) && Awaited(x, s.m, s.queue) && Zoned(x, pads, s)
  }

  // One write.

  /** The cell idx takes a pad or the row of input cell e. */
  function Overwrite(m: Store, idx: nat, e: int, ncol: nat): Store
    requires idx < |m.cells| == |m.kind| && ncol > 0
  {
    if e < 0 then m.(cells := m.cells[idx := -1], kind := m.kind[idx := Pad])
    else Store(m.cells[idx := RowOf(e, ncol)], m.kind[idx := Done], m.from[idx := e], m.to[e := idx])
  }

  /** The head of queue b is taken; an uncovered row joins the queue of its bucket. */
  function Requeue(queue: seq<seq<int>>, b: nat, raw: bool, v: int, idx: int): seq<seq<int>>
    requires b < |queue| && queue[b] != [] && (raw ==> 0 <= v < |queue|)
  {
    var rest := queue[b := queue[b][1..]];
    if raw then rest[v := rest[v] + [idx]] else rest
  }

  lemma OverwriteStored(x: Problem, m: Store, idx: nat, b: int, e: int)
    requires Stored(x, m) && idx < |x.input| && x.own[idx] == b && Owed(x, m, b, e)
    requires m.kind[idx] == Raw || (m.kind[idx] == Pad && e >= 0)
    ensures Stored(x, Overwrite(m, idx, e, x.ncol))
  {
    var n := Overwrite(m, idx, e, x.ncol);
    assert KindHolds(x, m, idx);
    assert e >= 0 ==> KindHolds(x, m, e);
    forall p: nat | p < |x.input|
      ensures KindHolds(x, n, p)
    {
      assert KindHolds(x, m, p);
    }
    hide KindHolds;
  }

  lemma TailGood(x: Problem, m: Store, b: int, q: seq<int>)
    requires |m.kind| == |x.input| && QueueGood(x, m, b, q) && q != []
    ensures QueueGood(x, m, b, q[1..]) && Owed(x, m, b, q[0]) && (q[0] >= 0 ==> q[0] !in q[1..])
  {
  }

  /** A queue without e is still good after e has been written, and one with the uncovered cell too. */
  lemma QueueStays(x: Problem, m: Store, idx: nat, e: int, b: int, q: seq<int>)
    requires Stored(x, m) && idx < |x.input| && QueueGood(x, m, b, q) && (e >= 0 ==> e !in q)
    ensures
      var n := Overwrite(m, idx, e, x.ncol);
      && |n.kind| == |x.input| && QueueGood(x, n, b, q)
      && (m.kind[idx] == Raw && x.input[idx] == b && e != idx ==> QueueGood(x, n, b, q + [idx]))
  {
    var n := Overwrite(m, idx, e, x.ncol);
    forall i | 0 <= i < |q|
      ensures Owed(x, n, b, q[i])
    {
      assert Owed(x, m, b, q[i]);
    }
    if m.kind[idx] == Raw && x.input[idx] == b && e != idx {
      assert KindHolds(x, m, idx);
      assert idx !in q;
    }
  }

  lemma OtherBucket(x: Problem, m: Store, b: int, q: seq<int>, e: int)
    requires |m.kind| == |x.input| && QueueGood(x, m, b, q) && 0 <= e < |x.input| && x.input[e] != b
    ensures e !in q
  {
  }

  lemma RequeueGood(x: Problem, m: Store, queue: seq<seq<int>>, b: nat, idx: nat, v: nat)
    requires Stored(x, m) && Awaited(x, m, queue) && b < |queue| && queue[b] != [] && idx < |x.input|
    requires x.input[idx] == v < |queue|
    ensures
      var e := queue[b][0];
      var n, next := Overwrite(m, idx, e, x.ncol), Requeue(queue, b, m.kind[idx] == Raw, v, idx);
      |n.kind| == |x.input| && forall a: nat {:trigger next[a]} :: a < |next| ==> QueueGood(x, n, a, next[a])
  {
    var e := queue[b][0];
    var n, next := Overwrite(m, idx, e, x.ncol), Requeue(queue, b, m.kind[idx] == Raw, v, idx);
    assert QueueGood(x, m, b, queue[b]);
    TailGood(x, m, b, queue[b]);
    assert |n.kind| == |x.input|;
    assert m.kind[idx] == Raw ==> e != idx;
    forall a: nat {:trigger next[a]} | a < |next|
      ensures QueueGood(x, n, a, next[a])
    {
      assert QueueGood(x, m, a, queue[a]);
      var q := if a == b then queue[b][1..] else queue[a];
      if e >= 0 && a != b {
        OtherBucket(x, m, a, queue[a], e);
      }
      hide QueueGood, Overwrite, Stored, Owed;
      QueueStays(x, m, idx, e, a, q);
      assert next[a] == if m.kind[idx] == Raw && a == v then q + [idx] else q;
    }
  }

  lemma RequeueKeeps(x: Problem, m: Store, queue: seq<seq<int>>, b: nat, idx: nat, v: nat)
    requires Stored(x, m) && Awaited(x, m, queue) && b < |queue| && queue[b] != [] && idx < |x.input|
    requires x.input[idx] == v < |queue| && (queue[b][0] == -1 ==> m.kind[idx] == Raw)
    ensures
      var e := queue[b][0];
      var n, next := Overwrite(m, idx, e, x.ncol), Requeue(queue, b, m.kind[idx] == Raw, v, idx);
      |n.kind| == |x.input| && forall c: nat :: c < |x.input| ==> NotLost(x, n, next, c)
  {
    var e := queue[b][0];
    var n, next := Overwrite(m, idx, e, x.ncol), Requeue(queue, b, m.kind[idx] == Raw, v, idx);
    var q := queue[b];
    assert QueueGood(x, m, b, q) && Owed(x, m, b, q[0]);
    forall c: nat | c < |x.input|
      ensures NotLost(x, n, next, c)
    {
      assert NotLost(x, m, queue, c);
      if c == idx && m.kind[idx] == Raw {
        assert next[v][|next[v]| - 1] == idx;
      } else if m.kind[c] != Raw && c !in m.to && c != e {
        var a := x.input[c];
        var i :| 0 <= i < |queue[a]| && queue[a][i] == c;
        var rest := if a == b then q[1..] else queue[a];
        assert c in rest by {
          assert rest[if a == b then i - 1 else i] == c;
        }
        assert next[a] == rest || next[a] == rest + [idx];
      }
    }
  }

  // Where a write goes.

  function Target(lo: int, hi: int, ptr: int): int {
    if ptr < hi then ptr else lo
  }

  function NextPtr(lo: int, hi: int, ptr: int): int {
    Target(lo, hi, ptr) + 1
  }

  function NextWrapped(hi: int, ptr: int, wrapped: bool): bool {
    wrapped || ptr >= hi
  }

  /** There is a cell for what comes next: a raw one, or a pad once the bucket is full. */
  ghost predicate HasRoom(lo: int, hi: int, k: nat, ptr: int, wrapped: bool) {
    lo < hi && (wrapped ==> ptr < lo + k)
  }

  lemma BucketStep(lo: int, hi: int, k: nat, ptr: int, wrapped: bool, q: seq<int>)
    requires BucketGood(lo, hi, k, ptr, wrapped, q) && q != [] && HasRoom(lo, hi, k, ptr, wrapped)
    ensures BucketGood(lo, hi, k, NextPtr(lo, hi, ptr), NextWrapped(hi, ptr, wrapped), q[1..])
    ensures lo <= Target(lo, hi, ptr) < hi
  {
    var left, next := Left(lo, k, ptr, wrapped), Left(lo, k, NextPtr(lo, hi, ptr), NextWrapped(hi, ptr, wrapped));
    assert q[0] == -1 <==> left > 0;
    assert next == if left > 0 then left - 1 else 0;
    hide Left;
    var rest := q[1..];
    forall i | 0 <= i < |rest|
      ensures rest[i] == -1 <==> i < next
    {
      assert rest[i] == q[i + 1];
    }
  }

  lemma QueueExtends(lo: int, hi: int, k: nat, ptr: int, wrapped: bool, q: seq<int>, idx: int)
    requires BucketGood(lo, hi, k, ptr, wrapped, q) && idx >= 0
    ensures BucketGood(lo, hi, k, ptr, wrapped, q + [idx])
  {
    hide Left;
  }

  /** What the written cell was, and that no other one changes its kind. */
  lemma KindStep(lo: int, hi: int, k: nat, ptr: int, wrapped: bool, q: seq<int>)
    requires BucketGood(lo, hi, k, ptr, wrapped, q) && q != [] && HasRoom(lo, hi, k, ptr, wrapped)
    ensures
      var idx, e := Target(lo, hi, ptr), q[0];
      var was := KindAt(lo, k, ptr, wrapped, idx);
      && (if e == -1 then was == Raw else was == (if NextWrapped(hi, ptr, wrapped) then Pad else Raw))
      && (e == -1 ==> !NextWrapped(hi, ptr, wrapped))
      && forall p :: lo <= p < hi ==>
        KindAt(lo, k, NextPtr(lo, hi, ptr), NextWrapped(hi, ptr, wrapped), p) ==
          if p == idx then (if e == -1 then Pad else Done) else KindAt(lo, k, ptr, wrapped, p)
  {
    assert q[0] == -1 <==> 0 < Left(lo, k, ptr, wrapped);
  }

  /** A bucket whose row is in hand has a cell without a row. */
  lemma SomeCellOpen(x: Problem, m: Store, e: nat, b: nat)
    requires AllNamed(x) && Stored(x, m) && e < |x.input| && e !in m.to && x.input[e] == b < |x.lims| - 1
    ensures 0 <= x.lims[b] <= x.lims[b + 1] <= |x.input|
    ensures !(forall p :: x.lims[b] <= p < x.lims[b + 1] ==> p in m.from)
  {
    LimitsBounds(x.lims, x.input, b);
    LimitsBounds(x.lims, x.input, b + 1);
    assert x.lims[b + 1] == x.lims[b] + CountOf(x.input, |x.input|, b);
    hide Limits, CountOf;
    if forall p :: x.lims[b] <= p < x.lims[b + 1] ==> p in m.from {
      forall p | x.lims[b] <= p < x.lims[b + 1]
        ensures m.from[p] in m.to && m.to[m.from[p]] == p && m.from[p] in CellsOf(x.input, |x.input|, b) - {e}
      {
        assert InBucket(x.lims, p, b);
      }
      hide Stored, AllNamed;
      ImageSize(m.from, m.to, x.lims[b], x.lims[b + 1]);
      CellsOfSize(x.input, |x.input|, b);
      assert e in CellsOf(x.input, |x.input|, b);
      SubsetSize(Image(m.from, x.lims[b], x.lims[b + 1]), CellsOf(x.input, |x.input|, b) - {e});
    }
  }

  lemma RoomForHead(x: Problem, pads: seq<nat>, s: Run, b: nat)
    requires Passing(x, pads, s) && b < |s.queue| && s.queue[b] != []
    ensures HasRoom(x.lims[b], x.lims[b + 1], pads[b], s.ptrs[b], s.wrapped[b])
  {
    var lo, hi, e := x.lims[b], x.lims[b + 1], s.queue[b][0];
    assert BucketGood(lo, hi, pads[b], s.ptrs[b], s.wrapped[b], s.queue[b]);
    assert QueueGood(x, s.m, b, s.queue[b]) && Owed(x, s.m, b, e);
    hide QueueGood, Awaited, NotLost;
    if e >= 0 {
      SomeCellOpen(x, s.m, e, b);
      var p :| lo <= p < hi && p !in s.m.from;
      assert InBucket(x.lims, p, b);
      assert x.own[p] == b && KindPlaced(x, pads, s, p) && KindHolds(x, s.m, p);
    }
  }

  function Next(x: Problem, s: Run, b: nat): Run
    requires |s.queue| == |s.ptrs| == |s.wrapped| == |x.lims| - 1 && b < |s.queue| && s.queue[b] != []
    requires x.ncol > 0 && |s.m.cells| == |s.m.kind| == |x.input|
    requires 0 <= Target(x.lims[b], x.lims[b + 1], s.ptrs[b]) < |x.input|
    requires forall i :: 0 <= i < |x.input| ==> 0 <= x.input[i] < |x.lims| - 1
  {
    var lo, hi := x.lims[b], x.lims[b + 1];
    var idx := Target(lo, hi, s.ptrs[b]);
    Run(Overwrite(s.m, idx, s.queue[b][0], x.ncol), Requeue(s.queue, b, s.m.kind[idx] == Raw, x.input[idx], idx),
        s.ptrs[b := NextPtr(lo, hi, s.ptrs[b])], s.wrapped[b := NextWrapped(hi, s.ptrs[b], s.wrapped[b])])
  }

  /** What a write meets: a value that was there from the start, or a pad after wrapping around; and a bucket
      wraps around once. */
  lemma Meets(x: Problem, pads: seq<nat>, s: Run, b: nat)
    requires Passing(x, pads, s) && b < |s.queue| && s.queue[b] != []
    ensures x.ncol > 0 && |s.ptrs| == |s.wrapped| == |s.queue| == |x.lims| - 1
    ensures |s.m.cells| == |s.m.kind| == |x.input|
    ensures forall i :: 0 <= i < |x.input| ==> 0 <= x.input[i] < |x.lims| - 1
    ensures
      var idx := Target(x.lims[b], x.lims[b + 1], s.ptrs[b]);
      && 0 <= idx < |x.input| && x.own[idx] == b
      && (s.ptrs[b] >= x.lims[b + 1] ==> !s.wrapped[b])
      && s.m.cells[idx] == (if s.m.kind[idx] == Raw then x.input[idx] else -1)
      && (s.m.kind[idx] == Raw || (s.m.kind[idx] == Pad && s.queue[b][0] >= 0))
      && (s.m.kind[idx] != Raw ==> NextWrapped(x.lims[b + 1], s.ptrs[b], s.wrapped[b]))
    ensures Owed(x, s.m, b, s.queue[b][0])
  {
    var lo, hi, k := x.lims[b], x.lims[b + 1], pads[b];
    RoomForHead(x, pads, s, b);
    assert BucketGood(lo, hi, k, s.ptrs[b], s.wrapped[b], s.queue[b]);
    BucketStep(lo, hi, k, s.ptrs[b], s.wrapped[b], s.queue[b]);
    KindStep(lo, hi, k, s.ptrs[b], s.wrapped[b], s.queue[b]);
    LimitsBounds(x.lims, x.input, b);
    LimitsBounds(x.lims, x.input, b + 1);
    var idx := Target(lo, hi, s.ptrs[b]);
    assert InBucket(x.lims, idx, b);
    assert KindPlaced(x, pads, s, idx) && KindHolds(x, s.m, idx);
    assert QueueGood(x, s.m, b, s.queue[b]);
    hide BucketGood, KindAt, Left, Limits;
  }

  lemma NextZoned(x: Problem, pads: seq<nat>, s: Run, b: nat)
    requires Passing(x, pads, s) && b < |s.queue| && s.queue[b] != []
    requires |s.ptrs| == |s.wrapped| == |s.queue| == |x.lims| - 1
    requires x.ncol > 0 && |s.m.cells| == |s.m.kind| == |x.input|
    requires 0 <= Target(x.lims[b], x.lims[b + 1], s.ptrs[b]) < |x.input|
    requires forall i :: 0 <= i < |x.input| ==> 0 <= x.input[i] < |x.lims| - 1
    ensures Shaped(x, pads, Next(x, s, b)) && Zoned(x, pads, Next(x, s, b))
  {
    var lo, hi, k := x.lims[b], x.lims[b + 1], pads[b];
    var n, e := Next(x, s, b), s.queue[b][0];
    var idx := Target(lo, hi, s.ptrs[b]);
    RoomForHead(x, pads, s, b);
    assert BucketGood(lo, hi, k, s.ptrs[b], s.wrapped[b], s.queue[b]);
    assert Owed(x, s.m, b, e) by {
      assert QueueGood(x, s.m, b, s.queue[b]);
    }
    assert InBucket(x.lims, idx, b) by {
      BucketStep(lo, hi, k, s.ptrs[b], s.wrapped[b], s.queue[b]);
    }
    assert Shaped(x, pads, n);
    forall a: nat {:trigger n.queue[a]} | a < |pads|
      ensures BucketGood(x.lims[a], x.lims[a + 1], pads[a], n.ptrs[a], n.wrapped[a], n.queue[a])
    {
      assert BucketGood(x.lims[a], x.lims[a + 1], pads[a], s.ptrs[a], s.wrapped[a], s.queue[a]);
      NextBucket(x, pads, s, b, a);
    }
    forall p: nat | p < |x.input|
      ensures KindPlaced(x, pads, n, p)
    {
      assert KindPlaced(x, pads, s, p);
      assert InBucket(x.lims, p, x.own[p]);
      hide BucketGood, KindAt, Left;
      KindStep(lo, hi, k, s.ptrs[b], s.wrapped[b], s.queue[b]);
    }
  }

  lemma NextBucket(x: Problem, pads: seq<nat>, s: Run, b: nat, a: nat)
    requires Shaped(x, pads, s) && a < |pads| && b < |s.queue| && s.queue[b] != []
    requires x.ncol > 0 && |s.m.cells| == |s.m.kind| == |x.input|
    requires 0 <= Target(x.lims[b], x.lims[b + 1], s.ptrs[b]) < |x.input|
    requires forall i :: 0 <= i < |x.input| ==> 0 <= x.input[i] < |x.lims| - 1
    requires BucketGood(x.lims[a], x.lims[a + 1], pads[a], s.ptrs[a], s.wrapped[a], s.queue[a])
    requires HasRoom(x.lims[b], x.lims[b + 1], pads[b], s.ptrs[b], s.wrapped[b])
    ensures var n := Next(x, s, b);
      BucketGood(x.lims[a], x.lims[a + 1], pads[a], n.ptrs[a], n.wrapped[a], n.queue[a])
  {
    var n := Next(x, s, b);
    var idx := Target(x.lims[b], x.lims[b + 1], s.ptrs[b]);
    var q := if a == b then s.queue[b][1..] else s.queue[a];
    assert n.queue[a] == q || n.queue[a] == q + [idx];
    hide BucketGood;
    if a == b {
      BucketStep(x.lims[b], x.lims[b + 1], pads[b], s.ptrs[b], s.wrapped[b], s.queue[b]);
    }
    QueueExtends(x.lims[a], x.lims[a + 1], pads[a], n.ptrs[a], n.wrapped[a], q, idx);
  }

  /** Every write keeps the state of the sort. */
  lemma Advance(x: Problem, pads: seq<nat>, s: Run, b: nat)
    requires Passing(x, pads, s) && b < |s.queue| && s.queue[b] != []
    requires |s.ptrs| == |s.wrapped| == |s.queue| == |x.lims| - 1
    requires x.ncol > 0 && |s.m.cells| == |s.m.kind| == |x.input|
    requires 0 <= Target(x.lims[b], x.lims[b + 1], s.ptrs[b]) < |x.input|
    requires forall i :: 0 <= i < |x.input| ==> 0 <= x.input[i] < |x.lims| - 1
    ensures Passing(x, pads, Next(x, s, b))
    ensures s.queue[b][0] >= 0 ==> |Next(x, s, b).m.from| == |s.m.from| + 1
    ensures s.queue[b][0] < 0 ==> Next(x, s, b).m.from == s.m.from
  {
    Meets(x, pads, s, b);
    NextZoned(x, pads, s, b);
    var idx := Target(x.lims[b], x.lims[b + 1], s.ptrs[b]);
    assert KindHolds(x, s.m, idx);
    hide KindHolds, Awaited, Zoned, Shaped, AllNamed;
    OverwriteStored(x, s.m, idx, b, s.queue[b][0]);
    hide Stored;
    RequeueGood(x, s.m, s.queue, b, idx, x.input[idx]);
    RequeueKeeps(x, s.m, s.queue, b, idx, x.input[idx]);
    MakeAwaited(x, Next(x, s, b).m, Next(x, s, b).queue);
  }

  lemma MakeAwaited(x: Problem, m: Store, queue: seq<seq<int>>)
    requires |m.kind| == |x.input|
    requires forall b: nat {:trigger queue[b]} :: b < |queue| ==> QueueGood(x, m, b, queue[b])
    requires forall c: nat :: c < |x.input| ==> NotLost(x, m, queue, c)
    ensures Awaited(x, m, queue)
  {
  }

  // The beginning and the end.

  /** At least one pad for every bucket that has cells, and no more than it has. */
  ghost predicate GoodPads(lims: seq<int>, pads: seq<nat>) {
    && |pads| == |lims| - 1
    && forall b: nat {:trigger pads[b]} :: b < |pads| ==>
      pads[b] <= lims[b + 1] - lims[b] && (lims[b] < lims[b + 1] ==> pads[b] > 0)
  }

  function AllPads(pads: seq<nat>): (queue: seq<seq<int>>)
    ensures |queue| == |pads|
    ensures forall b :: 0 <= b < |queue| ==> |queue[b]| == pads[b]
    ensures forall b, i :: 0 <= b < |queue| && 0 <= i < |queue[b]| ==> queue[b][i] == -1
  {
    seq(|pads|, b requires 0 <= b < |pads| => seq(pads[b], _ => -1))
  }

  function Begin(x: Problem, pads: seq<nat>): Run
    requires |x.lims| > 0
  {
    var nbucket := |x.lims| - 1;
    Run(Store(x.input, seq(|x.input|, _ => Raw), map[], map[]), AllPads(pads), x.lims[..nbucket], seq(nbucket, _ => false))
  }

  lemma BeginPasses(x: Problem, pads: seq<nat>)
    requires AllNamed(x) && GoodPads(x.lims, pads)
    ensures Passing(x, pads, Begin(x, pads)) && Begin(x, pads).m.from == map[]
  {
    var s := Begin(x, pads);
    assert Shaped(x, pads, s) && Stored(x, s.m);
    forall b: nat {:trigger s.queue[b]} | b < |pads|
      ensures BucketGood(x.lims[b], x.lims[b + 1], pads[b], s.ptrs[b], s.wrapped[b], s.queue[b])
    {
      LimitsGrow(x.lims, x.input, b, b + 1);
      assert pads[b] <= x.lims[b + 1] - x.lims[b];
    }
    forall b: nat {:trigger s.queue[b]} | b < |s.queue|
      ensures QueueGood(x, s.m, b, s.queue[b])
    {
    }
    forall p: nat | p < |x.input|
      ensures KindPlaced(x, pads, s, p)
    {
      assert InBucket(x.lims, p, x.own[p]);
    }
  }

  /** Nothing waits: every row that was written over has its place. So there are as many rows in place as
      cells written over, no pads are left, every bucket has wrapped around, and no cell is as it was. */
  lemma AllDone(x: Problem, pads: seq<nat>, s: Run)
    requires Passing(x, pads, s) && forall b :: 0 <= b < |s.queue| ==> s.queue[b] == []
    ensures x.ncol > 0 && Grouped(s.m.cells, x.input, x.lims, x.ncol, s.m.from, s.m.to)
  {
    SplitPassing(x, pads, s);
    hide *;
    NoPads(x, pads, s);
    forall p: nat | p < |x.input|
      ensures p in s.m.from && p in s.m.to
    {
      NothingRaw(x, pads, s, p);
      PlacedAndTaken(x, s.m, s.queue, p);
    }
    MakeGrouped(x, s.m);
  }

  lemma SplitPassing(x: Problem, pads: seq<nat>, s: Run)
    requires Passing(x, pads, s)
    ensures AllNamed(x) && Stored(x, s.m) && Awaited(x, s.m, s.queue)
    ensures x.ncol > 0 && |s.m.kind| == |x.input| && |s.queue| == |x.lims| - 1
  {
    hide Stored, Awaited, Zoned, Limits, Owners;
    assert Stored(x, s.m);
  }

  lemma PlacedAndTaken(x: Problem, m: Store, queue: seq<seq<int>>, p: nat)
    requires Stored(x, m) && Awaited(x, m, queue) && p < |x.input| == |m.kind| && m.kind[p] == Done
    requires forall b :: 0 <= b < |queue| ==> queue[b] == []
    ensures p in m.from && p in m.to
  {
    assert KindHolds(x, m, p) && NotLost(x, m, queue, p);
  }

  lemma MakeGrouped(x: Problem, m: Store)
    requires AllNamed(x) && Stored(x, m) && forall p: nat :: p < |x.input| ==> p in m.from && p in m.to
    ensures x.ncol > 0 && Grouped(m.cells, x.input, x.lims, x.ncol, m.from, m.to)
  {
    hide KindHolds, Limits, RowOf;
    forall p | 0 <= p < |x.input|
      ensures 0 <= m.from[p] < |x.input| && m.to[m.from[p]] == p && m.cells[p] == RowOf(m.from[p], x.ncol)
      ensures 0 <= m.to[p] < |x.input| && m.from[m.to[p]] == p
      ensures InBucket(x.lims, p, x.input[m.from[p]])
    {
      assert InBucket(x.lims, p, x.own[p]);
    }
    hide AllNamed, Stored, InBucket;
  }

  ghost function Touched(m: Store, n: nat): (cells: set<int>)
    requires n <= |m.kind|
    ensures forall c :: c in cells <==> 0 <= c < n && m.kind[c] != Raw
  {
    set c | 0 <= c < n && m.kind[c] != Raw
  }

  lemma NoPads(x: Problem, pads: seq<nat>, s: Run)
    requires Passing(x, pads, s) && forall b :: 0 <= b < |s.queue| ==> s.queue[b] == []
    ensures |s.m.kind| == |x.input| && forall p: nat :: p < |x.input| ==> s.m.kind[p] != Pad
  {
    var m := s.m;
    var touched := Touched(m, |x.input|);
    forall c | c in touched
      ensures c in m.to && m.to[c] in m.from && m.from[m.to[c]] == c
    {
      assert NotLost(x, m, s.queue, c);
    }
    forall p | p in m.from
      ensures p in touched
    {
      assert 0 <= p < |x.input|;
      assert KindHolds(x, m, p);
    }
    hide Zoned, Awaited, NotLost;
    InjectionSize(touched, m.from.Keys, m.to, m.from);
    SameSize(m.from.Keys, touched);
    forall p: nat | p < |x.input|
      ensures m.kind[p] != Pad
    {
      assert KindHolds(x, m, p);
      assert p in touched <==> p in m.from.Keys;
    }
  }

  lemma NothingRaw(x: Problem, pads: seq<nat>, s: Run, p: nat)
    requires Passing(x, pads, s) && p < |x.input| && forall b :: 0 <= b < |s.queue| ==> s.queue[b] == []
    requires |s.m.kind| == |x.input| && forall p: nat :: p < |x.input| ==> s.m.kind[p] != Pad
    ensures s.m.kind[p] == Done
  {
    var b := x.own[p];
    var lo := x.lims[b];
    assert InBucket(x.lims, p, b);
    assert KindPlaced(x, pads, s, p);
    assert BucketGood(lo, x.lims[b + 1], pads[b], s.ptrs[b], s.wrapped[b], s.queue[b]);
    LimitsBounds(x.lims, x.input, b);
    LimitsBounds(x.lims, x.input, b + 1);
    assert InBucket(x.lims, lo, b);
    assert KindPlaced(x, pads, s, lo);
  }

  // The methods.

  /** The row of an input cell; pads are written as -1. */
  function RowFor(c: int, ncol: nat): int
    requires ncol > 0
  {
    if c < 0 then -1 else RowOf(c, ncol)
  }

  function RowsFor(q: seq<int>, ncol: nat): (rows: seq<int>)
    requires ncol > 0
    ensures |rows| == |q| && forall i :: 0 <= i < |rows| ==> rows[i] == RowFor(q[i], ncol)
  {
    seq(|q|, i requires 0 <= i < |q| => RowFor(q[i], ncol))
  }

  /** The queues are what is left of this round and what has been found for the next one. */
  ghost predicate Matches(ncol: nat, queue: seq<seq<int>>, rest: seq<seq<int>>, next: seq<seq<int>>) {
    && ncol > 0 && |queue| == |rest| == |next|
    && forall b: nat {:trigger queue[b]} :: b < |queue| ==> RowsFor(queue[b], ncol) == rest[b] + next[b]
  }

  ghost predicate Current(x: Problem, pads: seq<nat>, s: Run, vals: array<int>, ncol: nat, lims: seq<int>, ptrs: seq<int>,
                          wrapped: seq<bool>, rest: seq<seq<int>>, next: seq<seq<int>>)
    reads vals
  {
    && Passing(x, pads, s) && vals[..] == s.m.cells && ptrs == s.ptrs && wrapped == s.wrapped
    && lims == x.lims && ncol == x.ncol && Matches(ncol, s.queue, rest, next)
  }

  /** Every row is one, none is a pad. */
  ghost predicate Rows(next: seq<seq<int>>) {
    forall b, i :: 0 <= b < |next| && 0 <= i < |next[b]| ==> next[b][i] >= 0
  }

  lemma NextMatches(ncol: nat, queue: seq<seq<int>>, rest: seq<seq<int>>, next: seq<seq<int>>, b: nat, raw: bool, v: int,
                    idx: nat)
    requires Matches(ncol, queue, rest, next) && b < |queue| && rest[b] != [] && (raw ==> 0 <= v < |queue|)
    ensures queue[b] != [] && RowFor(queue[b][0], ncol) == rest[b][0]
    ensures Matches(ncol, Requeue(queue, b, raw, v, idx), rest[b := rest[b][1..]],
                    if raw then next[v := next[v] + [RowOf(idx, ncol)]] else next)
  {
    hide RowFor, RowOf, Requeue;
    assert RowsFor(queue[b], ncol) == rest[b] + next[b];
    assert RowsFor(queue[b], ncol)[0] == rest[b][0];
    var queue', rest' := Requeue(queue, b, raw, v, idx), rest[b := rest[b][1..]];
    var next' := if raw then next[v := next[v] + [RowOf(idx, ncol)]] else next;
    RequeueIs(queue, b, raw, v, idx);
    IsRow(idx, ncol);
    forall a: nat {:trigger queue'[a]} | a < |queue'|
      ensures RowsFor(queue'[a], ncol) == rest'[a] + next'[a]
    {
      assert RowsFor(queue[a], ncol) == rest[a] + next[a];
      if a == b {
        RowsTail(queue[b], ncol, rest[b], next[b]);
      }
      if raw && a == v {
        RowsSnoc(if a == b then queue[b][1..] else queue[a], idx, ncol, rest'[a], next[a]);
      }
    }
  }

  lemma RequeueIs(queue: seq<seq<int>>, b: nat, raw: bool, v: int, idx: int)
    requires b < |queue| && queue[b] != [] && (raw ==> 0 <= v < |queue|)
    ensures var next := Requeue(queue, b, raw, v, idx);
      |next| == |queue| && forall a: nat {:trigger next[a]} :: a < |next| ==>
        var q := if a == b then queue[b][1..] else queue[a];
        next[a] == if raw && a == v then q + [idx] else q
  {
  }

  lemma RowsTail(q: seq<int>, ncol: nat, rest: seq<int>, next: seq<int>)
    requires ncol > 0 && q != [] && rest != [] && RowsFor(q, ncol) == rest + next
    ensures RowsFor(q[1..], ncol) == rest[1..] + next
  {
    hide RowFor;
    assert RowsFor(q[1..], ncol) == RowsFor(q, ncol)[1..];
    assert (rest + next)[1..] == rest[1..] + next;
  }

  lemma RowsSnoc(q: seq<int>, idx: nat, ncol: nat, rest: seq<int>, next: seq<int>)
    requires ncol > 0 && RowsFor(q, ncol) == rest + next
    ensures RowsFor(q + [idx], ncol) == rest + (next + [RowFor(idx, ncol)])
  {
    hide RowFor;
    assert RowsFor(q + [idx], ncol) == RowsFor(q, ncol) + [RowFor(idx, ncol)];
  }

  lemma IsRow(c: nat, ncol: nat)
    requires ncol > 0
    ensures RowFor(c, ncol) == RowOf(c, ncol) >= 0
  {
  }

  lemma OpenCurrent(x: Problem, pads: seq<nat>, s: Run, vals: array<int>, ncol: nat, lims: seq<int>, ptrs: seq<int>,
                    wrapped: seq<bool>, rest: seq<seq<int>>, next: seq<seq<int>>, b: nat)
    requires Current(x, pads, s, vals, ncol, lims, ptrs, wrapped, rest, next) && b < |rest| && rest[b] != []
    ensures Passing(x, pads, s) && b < |s.queue| && s.queue[b] != [] && |rest| == |next| == |s.queue|
    ensures vals[..] == s.m.cells && ptrs == s.ptrs && wrapped == s.wrapped && lims == x.lims && ncol == x.ncol
    ensures ncol > 0 && Matches(ncol, s.queue, rest, next) && rest[b][0] == RowFor(s.queue[b][0], ncol)
  {
    hide Passing, RowFor;
    assert RowsFor(s.queue[b], ncol) == rest[b] + next[b];
    assert RowsFor(s.queue[b], ncol)[0] == rest[b][0];
  }

  lemma MoreRows(next: seq<seq<int>>, v: nat, row: int)
    requires Rows(next) && v < |next| && row >= 0
    ensures Rows(next[v := next[v] + [row]])
  {
  }

  lemma WrittenCell(m: Store, idx: nat, e: int, ncol: nat)
    requires idx < |m.cells| == |m.kind| && ncol > 0
    ensures Overwrite(m, idx, e, ncol).cells == m.cells[idx := RowFor(e, ncol)]
  {
  }

  lemma HeadOfBucket(e: int, ncol: nat)
    requires ncol > 0 && e >= -1
    ensures RowFor(e, ncol) >= 0 <==> e >= 0
  {
  }

  /** One write of a round. `check` says whether the assertions on the way hold. */
  method WriteRow(vals: array<int>, ncol: nat, lims: seq<int>, ptrs: seq<int>, wrapped: seq<bool>, next: seq<seq<int>>,
                  b: nat, row: int, ghost rest: seq<seq<int>>, ghost x: Problem, ghost pads: seq<nat>, ghost s: Run)
    returns (ptrs': seq<int>, wrapped': seq<bool>, next': seq<seq<int>>, check: bool, ghost s': Run)
    requires Current(x, pads, s, vals, ncol, lims, ptrs, wrapped, rest, next) && Rows(next)
    requires b < |rest| && rest[b] != [] && row == rest[b][0]
    modifies vals
    ensures Current(x, pads, s', vals, ncol, lims, ptrs', wrapped', rest[b := rest[b][1..]], next') && Rows(next')
    ensures |next'| == |next| && check
    ensures |s'.m.from| == |s.m.from| + if row >= 0 then 1 else 0
  {
    hide *;
    OpenCurrent(x, pads, s, vals, ncol, lims, ptrs, wrapped, rest, next, b);
    Meets(x, pads, s, b);
    TargetIs(lims[b], lims[b + 1], ptrs[b], wrapped[b]);
    ghost var e, v := s.queue[b][0], x.input[Target(lims[b], lims[b + 1], ptrs[b])];
    Advance(x, pads, s, b);
    OwedIsCell(x, s.m, b, e);
    HeadOfBucket(e, ncol);
    NextIs(x, s, b);
    s' := Next(x, s, b);
    var idx := ptrs[b];
    check, wrapped', next' := true, wrapped, next;
    if idx < lims[b + 1] {
      ptrs' := ptrs[b := idx + 1];
    } else {
      check := !wrapped[b];
      wrapped' := wrapped[b := true];
      idx := lims[b];
      ptrs' := ptrs[b := idx + 1];
    }
    NextMatches(ncol, s.queue, rest, next, b, s.m.kind[idx] == Raw, v, idx);
    WrittenCell(s.m, idx, e, ncol);
    if vals[idx] >= 0 {
      IsRow(idx, ncol);
      MoreRows(next, vals[idx], RowOf(idx, ncol));
      next' := next[vals[idx] := next[vals[idx]] + [RowOf(idx, ncol)]];
    } else {
      check := check && wrapped'[b];
    }
    vals[idx] := row;
    assert vals[..] == s'.m.cells;
    MakeCurrent(x, pads, s', vals, ncol, lims, ptrs', wrapped', rest[b := rest[b][1..]], next');
  }

  lemma TargetIs(lo: int, hi: int, ptr: int, wrapped: bool)
    ensures Target(lo, hi, ptr) == (if ptr < hi then ptr else lo) && NextPtr(lo, hi, ptr) == Target(lo, hi, ptr) + 1
    ensures NextWrapped(hi, ptr, wrapped) == (wrapped || ptr >= hi)
  {
  }

  lemma OwedIsCell(x: Problem, m: Store, b: int, c: int)
    requires |m.kind| == |x.input| && Owed(x, m, b, c)
    ensures c >= -1
  {
  }

  lemma NextIs(x: Problem, s: Run, b: nat)
    requires |s.queue| == |s.ptrs| == |s.wrapped| == |x.lims| - 1 && b < |s.queue| && s.queue[b] != []
    requires x.ncol > 0 && |s.m.cells| == |s.m.kind| == |x.input|
    requires 0 <= Target(x.lims[b], x.lims[b + 1], s.ptrs[b]) < |x.input|
    requires forall i :: 0 <= i < |x.input| ==> 0 <= x.input[i] < |x.lims| - 1
    ensures
      var lo, hi, n := x.lims[b], x.lims[b + 1], Next(x, s, b);
      var idx := Target(lo, hi, s.ptrs[b]);
      && n.m == Overwrite(s.m, idx, s.queue[b][0], x.ncol)
      && n.queue == Requeue(s.queue, b, s.m.kind[idx] == Raw, x.input[idx], idx)
      && n.ptrs == s.ptrs[b := NextPtr(lo, hi, s.ptrs[b])]
      && n.wrapped == s.wrapped[b := NextWrapped(hi, s.ptrs[b], s.wrapped[b])]
  {
    hide Overwrite, Requeue, Target, NextPtr, NextWrapped;
  }

  lemma MakeCurrent(x: Problem, pads: seq<nat>, s: Run, vals: array<int>, ncol: nat, lims: seq<int>, ptrs: seq<int>,
                    wrapped: seq<bool>, rest: seq<seq<int>>, next: seq<seq<int>>)
    requires Passing(x, pads, s) && vals[..] == s.m.cells && ptrs == s.ptrs && wrapped == s.wrapped
    requires lims == x.lims && ncol == x.ncol && Matches(ncol, s.queue, rest, next)
    ensures Current(x, pads, s, vals, ncol, lims, ptrs, wrapped, rest, next)
  {
    hide Passing, Matches;
  }

  /** At bucket b of a round: the buckets before it have written everything. */
  ghost predicate AtBucket(rest: seq<seq<int>>, toWrite: seq<seq<int>>, b: nat) {
    |rest| == |toWrite| && forall a: nat {:trigger rest[a]} :: a < |rest| ==> rest[a] == if a < b then [] else toWrite[a]
  }

  /** All writes of a round to one bucket. */
  method WriteBucket(vals: array<int>, ncol: nat, lims: seq<int>, ptrs: seq<int>, wrapped: seq<bool>, next: seq<seq<int>>,
                     b: nat, toWrite: seq<seq<int>>, ghost rest: seq<seq<int>>, ghost x: Problem, ghost pads: seq<nat>,
                     ghost s: Run)
    returns (ptrs': seq<int>, wrapped': seq<bool>, next': seq<seq<int>>, checks: bool, ghost s': Run)
    requires Current(x, pads, s, vals, ncol, lims, ptrs, wrapped, rest, next) && Rows(next)
    requires b < |rest| == |toWrite| && rest[b] == toWrite[b]
    modifies vals
    ensures Current(x, pads, s', vals, ncol, lims, ptrs', wrapped', rest[b := []], next') && Rows(next') && checks
    ensures |s'.m.from| >= |s.m.from|
    ensures toWrite[b] != [] && Rows(toWrite) ==> |s'.m.from| > |s.m.from|
  {
    hide *;
    ptrs', wrapped', next', checks, s' := ptrs, wrapped, next, true, s;
    ghost var left := rest;
    for i := 0 to |toWrite[b]|
      invariant left == rest[b := toWrite[b][i..]] && checks
      invariant Current(x, pads, s', vals, ncol, lims, ptrs', wrapped', left, next') && Rows(next')
      invariant |s'.m.from| >= |s.m.from| && (Rows(toWrite) ==> |s'.m.from| >= |s.m.from| + i)
    {
      var check;
      if Rows(toWrite) {
        RowAt(toWrite, b, i);
      }
      ptrs', wrapped', next', check, s' :=
        WriteRow(vals, ncol, lims, ptrs', wrapped', next', b, toWrite[b][i], left, x, pads, s');
      checks := checks && check;
      left := left[b := left[b][1..]];
    }
    assert left == rest[b := []];
  }

  lemma RowAt(next: seq<seq<int>>, b: nat, i: nat)
    requires Rows(next) && b < |next| && i < |next[b]|
    ensures next[b][i] >= 0
  {
  }

  /** The first bucket of a thread. */
  function Share(rank: nat, nbucket: nat, nt: nat): nat
    requires nt > 0
  {
    (rank * nbucket + nt - 1) / nt
  }

  /** The threads divide the buckets among them. */
  lemma SharesCover(rank: nat, nbucket: nat, nt: nat)
    requires rank < nt
    ensures Share(0, nbucket, nt) == 0 && Share(nt, nbucket, nt) == nbucket
    ensures Share(rank, nbucket, nt) <= Share(rank + 1, nbucket, nt) <= nbucket
  {
    hide Share;
    FirstShare(nbucket, nt);
    SharesEnd(nbucket, nt);
    ShareGrows(rank, rank + 1, nbucket, nt);
    ShareGrows(rank + 1, nt, nbucket, nt);
  }

  lemma FirstShare(nbucket: nat, nt: nat)
    requires nt > 0
    ensures Share(0, nbucket, nt) == 0
  {
    assert 0 * nbucket == 0;
  }

  lemma SharesEnd(nbucket: nat, nt: nat)
    requires nt > 0
    ensures Share(nt, nbucket, nt) == nbucket
  {
    Quotient(nt * nbucket, nt - 1, nt, nbucket);
  }

  lemma Quotient(m: int, r: int, n: int, q: int)
    requires 0 <= r < n && m == n * q
    ensures (m + r) / n == q
  {
    var t := (m + r) / n;
    assert m + r == n * t + (m + r) % n;
    Apart(n, t, q, (m + r) % n - r);
  }

  lemma Apart(n: int, t: int, q: int, d: int)
    requires -n < d < n && n * t + d == n * q
    ensures t == q
  {
    assert n * (t - q) == n * t - n * q;
    Small(n, t - q);
  }

  lemma {:induction false} AtLeastOnce(n: nat, u: nat)
    requires u > 0
    ensures n * u >= n
  {
    if u > 1 {
      AtLeastOnce(n, u - 1);
      Split(n, u - 1, 1);
    }
  }

  lemma Split(n: int, a: int, b: int)
    ensures n * (a + b) == n * a + n * b && n * -a == -(n * a)
  {
  }

  lemma Small(n: int, u: int)
    requires -n < n * u < n
    ensures u == 0
  {
    if u >= 1 {
      AtLeastOnce(n, u);
      assert false;
    } else if u <= -1 {
      AtLeastOnce(n, -u);
      Split(n, u, 0);
      assert false;
    }
  }

  lemma ShareGrows(a: nat, b: nat, nbucket: nat, nt: nat)
    requires nt > 0 && a <= b
    ensures Share(a, nbucket, nt) <= Share(b, nbucket, nt)
  {
    ProductGrows(a, b, nbucket);
    QuotientGrows(a * nbucket + nt - 1, b * nbucket + nt - 1, nt);
  }

  lemma ProductGrows(a: nat, b: nat, n: nat)
    requires a <= b
    ensures a * n <= b * n
  {
    assert b * n == a * n + (b - a) * n;
  }

  lemma QuotientGrows(a: int, b: int, n: int)
    requires n > 0 && a <= b
    ensures a / n <= b / n
  {
    var q, r := a / n, b / n;
    assert a == n * q + a % n && b == n * r + b % n;
    if q > r {
      ProductSteps(n, q, r);
    }
  }

  lemma ProductSteps(n: nat, q: int, r: int)
    requires q > r
    ensures n * q >= n * r + n
  {
    AtLeastOnce(n, q - r);
    Split(n, r, q - r);
    assert r + (q - r) == q;
  }

  lemma StartRound(x: Problem, pads: seq<nat>, s: Run, vals: array<int>, ncol: nat, lims: seq<int>, ptrs: seq<int>,
                   wrapped: seq<bool>, toWrite: seq<seq<int>>, next: seq<seq<int>>)
    requires Waits(x, pads, s, vals, ncol, lims, ptrs, wrapped, toWrite)
    requires |next| == |toWrite| && forall b :: 0 <= b < |next| ==> next[b] == []
    ensures Current(x, pads, s, vals, ncol, lims, ptrs, wrapped, toWrite, next) && Rows(next)
    ensures AtBucket(toWrite, toWrite, 0)
  {
    hide Passing;
    forall b: nat {:trigger s.queue[b]} | b < |s.queue|
      ensures RowsFor(s.queue[b], ncol) == toWrite[b] + next[b]
    {
      assert toWrite[b] + [] == toWrite[b];
    }
  }

  lemma EndRound(x: Problem, pads: seq<nat>, s: Run, vals: array<int>, ncol: nat, lims: seq<int>, ptrs: seq<int>,
                 wrapped: seq<bool>, toWrite: seq<seq<int>>, rest: seq<seq<int>>, next: seq<seq<int>>)
    requires Current(x, pads, s, vals, ncol, lims, ptrs, wrapped, rest, next) && AtBucket(rest, toWrite, |toWrite|)
    ensures Waits(x, pads, s, vals, ncol, lims, ptrs, wrapped, next) && |next| == |toWrite|
  {
    hide Passing;
    forall b: nat {:trigger s.queue[b]} | b < |s.queue|
      ensures RowsFor(s.queue[b], ncol) == next[b]
    {
      assert rest[b] == [] && RowsFor(s.queue[b], ncol) == rest[b] + next[b];
      assert [] + next[b] == next[b];
    }
  }

  /** Between two rounds: what is to be written next is what the queues hold. */
  ghost predicate Waits(x: Problem, pads: seq<nat>, s: Run, vals: array<int>, ncol: nat, lims: seq<int>, ptrs: seq<int>,
                        wrapped: seq<bool>, toWrite: seq<seq<int>>)
    reads vals
  {
    && Passing(x, pads, s) && vals[..] == s.m.cells && ptrs == s.ptrs && wrapped == s.wrapped
    && lims == x.lims && ncol == x.ncol && ncol > 0 && |s.queue| == |toWrite|
    && forall b: nat {:trigger s.queue[b]} :: b < |s.queue| ==> RowsFor(s.queue[b], ncol) == toWrite[b]
  }

  lemma BucketInside(rest: seq<seq<int>>, toWrite: seq<seq<int>>, b: nat)
    requires AtBucket(rest, toWrite, b)
    ensures |rest| == |toWrite|
  {
  }

  lemma NextBucketOf(rest: seq<seq<int>>, toWrite: seq<seq<int>>, b: nat)
    requires AtBucket(rest, toWrite, b) && b < |rest|
    ensures |rest| == |toWrite| && rest[b] == toWrite[b] && AtBucket(rest[b := []], toWrite, b + 1)
  {
  }

  /** A round: the threads write what the last one found, each to its own buckets, and collect what they
      uncover. */
  method Round(vals: array<int>, ncol: nat, lims: seq<int>, ptrs: seq<int>, wrapped: seq<bool>, toWrite: seq<seq<int>>,
               nt: nat, ghost x: Problem, ghost pads: seq<nat>, ghost s: Run)
    returns (ptrs': seq<int>, wrapped': seq<bool>, next: seq<seq<int>>, checks: bool, ghost s': Run)
    requires Waits(x, pads, s, vals, ncol, lims, ptrs, wrapped, toWrite) && nt > 0
    modifies vals
    ensures Waits(x, pads, s', vals, ncol, lims, ptrs', wrapped', next) && |next| == |toWrite| && Rows(next) && checks
    ensures |s'.m.from| >= |s.m.from|
    ensures Rows(toWrite) && (exists b :: 0 <= b < |toWrite| && toWrite[b] != []) ==> |s'.m.from| > |s.m.from|
  {
    hide *;
    ptrs', wrapped', checks, s' := ptrs, wrapped, true, s;
    next := seq(|toWrite|, _ => []);
    StartRound(x, pads, s, vals, ncol, lims, ptrs, wrapped, toWrite, next);
    ghost var rest := toWrite;
    SharesCover(0, |toWrite|, nt);
    for rank := 0 to nt
      invariant AtBucket(rest, toWrite, Share(rank, |toWrite|, nt)) && checks
      invariant Current(x, pads, s', vals, ncol, lims, ptrs', wrapped', rest, next) && Rows(next)
      invariant |s'.m.from| >= |s.m.from|
      invariant Rows(toWrite) && (exists a :: 0 <= a < Share(rank, |toWrite|, nt) && a < |toWrite| && toWrite[a] != []) ==>
        |s'.m.from| > |s.m.from|
    {
      SharesCover(rank, |toWrite|, nt);
      for b := Share(rank, |toWrite|, nt) to Share(rank + 1, |toWrite|, nt)
        invariant AtBucket(rest, toWrite, b) && checks
        invariant Current(x, pads, s', vals, ncol, lims, ptrs', wrapped', rest, next) && Rows(next)
        invariant |s'.m.from| >= |s.m.from|
        invariant Rows(toWrite) && (exists a :: 0 <= a < b && a < |toWrite| && toWrite[a] != []) ==>
          |s'.m.from| > |s.m.from|
      {
        BucketInside(rest, toWrite, b);
        NextBucketOf(rest, toWrite, b);
        var check;
        ptrs', wrapped', next, check, s' :=
          WriteBucket(vals, ncol, lims, ptrs', wrapped', next, b, toWrite, rest, x, pads, s');
        checks := checks && check;
        rest := rest[b := []];
      }
    }
    EndRound(x, pads, s', vals, ncol, lims, ptrs', wrapped', toWrite, rest, next);
  }

  lemma LimitsRise(lims: seq<int>, vals: seq<int>, b: nat)
    requires Limits(lims, vals) && b + 1 < |lims|
    ensures lims[b] <= lims[b + 1]
  {
    LimitsGrow(lims, vals, b, b + 1);
  }

  /** Pads for the cells l0 up to l1 of a bucket: one at least, and more until so many have been written. */
  method PadBucket(l0: int, l1: int, target: int, written: nat) returns (batch: seq<int>, written': nat)
    requires l0 <= l1
    ensures |batch| <= l1 - l0 && (l0 < l1 ==> batch != []) && forall i :: 0 <= i < |batch| ==> batch[i] == -1
    ensures l0 + |batch| < l1 ==> written' >= target
  {
    batch, written' := [], written;
    var l := l0;
    var again := true;
    while again
      invariant l0 <= l <= l1 && |batch| == l - l0 && forall i :: 0 <= i < |batch| ==> batch[i] == -1
      invariant batch == [] ==> again || l == l1
      invariant !again ==> written' >= target
      decreases l1 - l, again
    {
      if l == l1 {
        break;
      }
      batch := batch + [-1];
      l := l + 1;
      written' := written' + 1;
      again := written' < target;
    }
  }

  lemma SamePads(toWrite: seq<seq<int>>, pads: seq<nat>)
    requires |toWrite| == |pads| && forall b :: 0 <= b < |pads| ==> |toWrite[b]| == pads[b]
    requires forall b, i :: 0 <= b < |toWrite| && 0 <= i < |toWrite[b]| ==> toWrite[b][i] == -1
    ensures toWrite == AllPads(pads)
  {
    var all := AllPads(pads);
    forall b | 0 <= b < |pads|
      ensures toWrite[b] == all[b]
    {
    }
  }

  /** The pads that start the process: their number follows the share of the buckets seen so far, but a bucket
      that has cells gets one in any case. */
  method InitialWrites(lims: seq<int>, nval: nat, init: nat, ghost vals: seq<int>)
    returns (toWrite: seq<seq<int>>, ghost pads: seq<nat>)
    requires Limits(lims, vals) && |lims| > 0 && nval > 0
    ensures |toWrite| == |lims| - 1
    ensures forall b :: 0 <= b < |toWrite| ==>
      |toWrite[b]| <= lims[b + 1] - lims[b] && (lims[b] < lims[b + 1] ==> toWrite[b] != [])
    ensures GoodPads(lims, pads) && toWrite == AllPads(pads)
  {
    hide *;
    toWrite, pads := [], [];
    var written := 0;
    for b := 0 to |lims| - 1
      invariant |pads| == |toWrite| == b && written >= 0
      invariant forall a :: 0 <= a < b ==>
        |toWrite[a]| <= lims[a + 1] - lims[a] && (lims[a] < lims[a + 1] ==> toWrite[a] != [])
      invariant forall a :: 0 <= a < b ==> |toWrite[a]| == pads[a]
      invariant forall a, i :: 0 <= a < b && 0 <= i < |toWrite[a]| ==> toWrite[a][i] == -1
    {
      LimitsRise(lims, vals, b);
      var batch;
      batch, written := PadBucket(lims[b], lims[b + 1], lims[b + 1] * init / nval, written);
      toWrite, pads := toWrite + [batch], pads + [|batch|];
    }
    SamePads(toWrite, pads);
    ArePads(lims, toWrite, pads);
  }

  lemma ArePads(lims: seq<int>, toWrite: seq<seq<int>>, pads: seq<nat>)
    requires |toWrite| == |pads| == |lims| - 1 && forall b :: 0 <= b < |pads| ==> |toWrite[b]| == pads[b]
    requires forall b :: 0 <= b < |toWrite| ==>
      |toWrite[b]| <= lims[b + 1] - lims[b] && (lims[b] < lims[b + 1] ==> toWrite[b] != [])
    ensures GoodPads(lims, pads)
  {
    forall b: nat {:trigger pads[b]} | b < |pads|
      ensures pads[b] <= lims[b + 1] - lims[b] && (lims[b] < lims[b + 1] ==> pads[b] > 0)
    {
      assert |toWrite[b]| == pads[b];
    }
  }

  lemma Start(x: Problem, pads: seq<nat>, vals: array<int>)
    requires AllNamed(x) && GoodPads(x.lims, pads) && vals[..] == x.input
    ensures var s := Begin(x, pads);
      Waits(x, pads, s, vals, x.ncol, x.lims, s.ptrs, s.wrapped, AllPads(pads)) && s.m.from == map[]
  {
    BeginPasses(x, pads);
    hide Passing;
    var s := Begin(x, pads);
    forall b: nat {:trigger s.queue[b]} | b < |s.queue|
      ensures RowsFor(s.queue[b], x.ncol) == AllPads(pads)[b]
    {
      assert forall i :: 0 <= i < |s.queue[b]| ==> RowFor(s.queue[b][i], x.ncol) == -1;
    }
  }

  lemma End(x: Problem, pads: seq<nat>, s: Run, vals: array<int>, ncol: nat, lims: seq<int>, ptrs: seq<int>,
            wrapped: seq<bool>, toWrite: seq<seq<int>>)
    requires Waits(x, pads, s, vals, ncol, lims, ptrs, wrapped, toWrite)
    requires forall b :: 0 <= b < |toWrite| ==> toWrite[b] == []
    ensures ncol > 0 && Grouped(vals[..], x.input, lims, ncol, s.m.from, s.m.to)
  {
    hide Passing;
    forall b | 0 <= b < |s.queue|
      ensures s.queue[b] == []
    {
      assert RowsFor(s.queue[b], ncol) == toWrite[b];
    }
    AllDone(x, pads, s);
  }

  lemma PlacesLeft(x: Problem, pads: seq<nat>, s: Run, vals: array<int>, ncol: nat, lims: seq<int>, ptrs: seq<int>,
                   wrapped: seq<bool>, toWrite: seq<seq<int>>)
    requires Waits(x, pads, s, vals, ncol, lims, ptrs, wrapped, toWrite)
    ensures |s.m.from| <= |x.input|
  {
    assert Stored(x, s.m);
    assert forall p :: p in s.m.from ==> 0 <= p < |x.input|;
    hide *;
    KeysBound(s.m.from, |x.input|);
  }

  lemma NamedProblem(input: seq<int>, lims: seq<int>, own: seq<int>, ncol: nat) returns (x: Problem)
    requires ncol > 0 && |lims| >= 2 && |own| == |input| > 0 && Limits(lims, input) && Owners(own, lims)
    requires forall i :: 0 <= i < |input| ==> 0 <= input[i] < |lims| - 1
    requires lims[0] == 0
    ensures AllNamed(x) && x.input == input && x.lims == lims && x.ncol == ncol
  {
    x := Problem(input, lims, own, ncol);
  }

  function Max(a: nat, b: nat): nat {
    if a < b then b else a
  }

  function Min(a: nat, b: nat): nat {
    if b < a then b else a
  }

  /** Room for the rows of a round: less than 5 GiB, but one for each bucket. */
  function RoundSize(nval: nat, nbucket: nat, nt: nat, size: nat): nat
    requires nt > 0 && size > 0
  {
    Max(nbucket, Min(nval / 10, 5 * 0x4000_0000 / (size * 3 * nt)))
  }

  /** The sort with nt threads, on values of so many bytes. Where the checks let it run it groups the rows by
      bucket, ends, and its assertions hold: a bucket wraps around at most once, and then meets pads. */
  method SortWithThreads(vals: array<int>, nrow: nat, ncol: nat, nbucket: nat, lims: array<int>, nt: nat, size: nat)
    returns (outcome: Outcome, checks: bool, ghost from: map<int, int>, ghost to: map<int, int>)
    requires IsMatrix(vals.Length, nrow, ncol) && vals != lims && nbucket < lims.Length && nt > 0 && size > 0
    modifies vals, lims
    ensures outcome == ParallelOutcome(old(vals[..]), nbucket)
    ensures outcome != Outcome.Sorted ==> vals[..] == old(vals[..])
    ensures outcome == Outcome.Sorted ==> ncol > 0 && Limits(lims[..nbucket + 1], old(vals[..]))
    ensures outcome == Outcome.Sorted ==> Grouped(vals[..], old(vals[..]), lims[..nbucket + 1], ncol, from, to)
    ensures checks
  {
    hide *;
    MatrixShape(vals.Length, nrow, ncol);
    from, to, checks := map[], map[], true;
    ghost var input := vals[..];
    outcome := ParallelLimits(vals, nbucket, lims);
    if outcome == Outcome.Sorted {
      SortedFits(input, nbucket);
      assert vals[0] == input[0];
      checks, from, to := Rounds(vals, ncol, lims[..nbucket + 1], nt, RoundSize(vals.Length, nbucket, nt, size));
    }
  }

  lemma SortedFits(vals: seq<int>, nbucket: nat)
    requires ParallelOutcome(vals, nbucket) == Outcome.Sorted
    ensures |vals| > 0 && forall i :: 0 <= i < |vals| ==> 0 <= vals[i] < nbucket
  {
  }

  /** All rounds, until nothing is left to write. Only the first one writes pads; every later one places a
      row. */
  method Rounds(vals: array<int>, ncol: nat, lims: seq<int>, nt: nat, init: nat)
    returns (checks: bool, ghost from: map<int, int>, ghost to: map<int, int>)
    requires ncol > 0 && vals.Length > 0 && |lims| >= 2 && nt > 0 && Limits(lims, vals[..]) && lims[0] == 0
    requires forall i :: 0 <= i < vals.Length ==> 0 <= vals[i] < |lims| - 1
    modifies vals
    ensures Grouped(vals[..], old(vals[..]), lims, ncol, from, to) && checks
  {
    hide *;
    ghost var input := vals[..];
    ghost var own := OwnersExist(lims, input);
    ghost var x := NamedProblem(input, lims, own, ncol);
    var ptrs, wrapped := lims[..|lims| - 1], seq(|lims| - 1, _ => false);
    var toWrite;
    ghost var pads;
    toWrite, pads := InitialWrites(lims, vals.Length, init, input);
    Start(x, pads, vals);
    BeginIs(x, pads);
    ghost var s := Begin(x, pads);
    ghost var first := true;
    checks := true;
    while exists b :: 0 <= b < |toWrite| && toWrite[b] != []
      invariant Waits(x, pads, s, vals, ncol, lims, ptrs, wrapped, toWrite) && checks
      invariant first || Rows(toWrite)
      decreases first, |x.input| - |s.m.from|
    {
      var check;
      ghost var before := |s.m.from|;
      ptrs, wrapped, toWrite, check, s := Round(vals, ncol, lims, ptrs, wrapped, toWrite, nt, x, pads, s);
      checks := checks && check;
      PlacesLeft(x, pads, s, vals, ncol, lims, ptrs, wrapped, toWrite);
      assert !first ==> |s.m.from| > before;
      first := false;
    }
    End(x, pads, s, vals, ncol, lims, ptrs, wrapped, toWrite);
    from, to := s.m.from, s.m.to;
  }

  lemma BeginIs(x: Problem, pads: seq<nat>)
    requires |x.lims| > 0
    ensures Begin(x, pads).ptrs == x.lims[..|x.lims| - 1] && Begin(x, pads).wrapped == seq(|x.lims| - 1, _ => false)
  {
  }
}
