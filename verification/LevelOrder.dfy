/**
 The order in which a binary HNSW index inserts new points (faiss/IndexBinaryHNSW.cpp, hnsw_add_vertices):
 a bucket sort by level, then level by level from the highest, shuffled inside each level.
 */
module LevelOrder {

  /** Numbers of the first n new points whose level is l, in order; numbering starts at n0. */
  function Members(levels: seq<nat>, n: nat, l: nat, n0: nat): (ids: seq<nat>)
    requires n <= |levels|
    ensures |ids| <= n
  {
    if n == 0 then []
    else Members(levels, n - 1, l, n0) + if levels[n - 1] == l then [n0 + n - 1] else []
  }

  lemma NobodyYet(levels: seq<nat>, l: nat, n0: nat)
    ensures Members(levels, 0, l, n0) == []
  {
  }

  lemma CountInBoth(a: seq<nat>, b: seq<nat>, id: nat)
    ensures multiset(a + b)[id] == multiset(a)[id] + multiset(b)[id]
  {
  }

  /** Each point is a member of its own level, once, and of no other. */
  lemma {:induction false} MemberOnce(levels: seq<nat>, n: nat, l: nat, n0: nat, id: nat)
    requires n <= |levels|
    ensures multiset(Members(levels, n, l, n0))[id] == if n0 <= id < n0 + n && levels[id - n0] == l then 1 else 0
  {
    hide *;
    if n == 0 {
      NobodyYet(levels, l, n0);
    } else {
      MemberOnce(levels, n - 1, l, n0, id);
      NextMember(levels, n - 1, l, n0);
      var front := Members(levels, n - 1, l, n0);
      var last: seq<nat> := if levels[n - 1] == l then [n0 + n - 1] else [];
      assert Members(levels, n, l, n0) == front + last;
      CountInBoth(front, last, id);
      assert multiset(last)[id] == if levels[n - 1] == l && id == n0 + n - 1 then 1 else 0;
    }
  }

  lemma {:induction false} MembersPrefix(levels: seq<nat>, m: nat, n: nat, l: nat, n0: nat)
    requires m <= n <= |levels|
    ensures |Members(levels, m, l, n0)| <= |Members(levels, n, l, n0)|
    decreases n
  {
    if m < n {
      MembersPrefix(levels, m, n - 1, l, n0);
    }
  }

  /** Number of points per level, for the first n. */
  ghost predicate IsHistogram(hist: seq<nat>, levels: seq<nat>, n: nat, n0: nat)
    requires n <= |levels|
  {
    && (forall l :: 0 <= l < |hist| ==> hist[l] == |Members(levels, n, l, n0)|)
    && (forall i :: 0 <= i < n ==> levels[i] < |hist|)
    && (hist != [] ==> Reached(levels, n, |hist| - 1))
  }

  ghost predicate Reached(levels: seq<nat>, n: nat, l: int)
    requires n <= |levels|
  {
    exists i :: 0 <= i < n && levels[i] == l
  }

  lemma {:induction false} NoMembers(levels: seq<nat>, n: nat, l: nat, n0: nat)
    requires n <= |levels| && forall i :: 0 <= i < n ==> levels[i] != l
    ensures Members(levels, n, l, n0) == []
  {
    if n > 0 {
      NoMembers(levels, n - 1, l, n0);
    }
  }

  method Histogram(levels: seq<nat>, n0: nat) returns (hist: seq<nat>)
    ensures IsHistogram(hist, levels, |levels|, n0) && (levels != [] ==> hist != [])
  {
    hist := [];
    for i := 0 to |levels|
      invariant IsHistogram(hist, levels, i, n0) && (i > 0 ==> hist != [])
    {
      var level := levels[i];
      ghost var size := |hist|;
      while level >= |hist|
        invariant |hist| <= level + 1 || |hist| == size
        invariant size <= |hist|
        invariant forall l :: 0 <= l < |hist| ==> hist[l] == |Members(levels, i, l, n0)|
      {
        NoMembers(levels, i, |hist|, n0);
        hist := hist + [0];
      }
      hist := hist[level := hist[level] + 1];
      assert size == |hist| || |hist| == level + 1;
      assert Reached(levels, i + 1, |hist| - 1) by {
        if |hist| == level + 1 {
          assert levels[i] == |hist| - 1;
        } else {
          var j :| 0 <= j < i && levels[j] == |hist| - 1;
        }
      }
    }
  }

  /** Where the bucket of level l starts. */
  function StartOf(hist: seq<nat>, l: nat): nat
    requires l <= |hist|
  {
    if l == 0 then 0 else StartOf(hist, l - 1) + hist[l - 1]
  }

  lemma {:induction false} StartsGrow(hist: seq<nat>, l: nat, m: nat)
    requires l <= m <= |hist|
    ensures StartOf(hist, l) <= StartOf(hist, m)
    ensures l < m ==> StartOf(hist, l) + hist[l] <= StartOf(hist, m)
    decreases m
  {
    if l < m {
      StartsGrow(hist, l, m - 1);
    }
  }

  /** All points have a bucket: the buckets fill the order. */
  lemma {:induction false} BucketsAddUp(levels: seq<nat>, n: nat, h: nat, n0: nat)
    requires n <= |levels| && forall i :: 0 <= i < n ==> levels[i] < h
    ensures SizeBelow(levels, n, h, n0) == n
  {
    if n > 0 {
      BucketsAddUp(levels, n - 1, h, n0);
      OneMore(levels, n, h, n0);
    } else {
      NothingBelow(levels, h, n0);
    }
  }

  /** Number of members of all levels below h. */
  function SizeBelow(levels: seq<nat>, n: nat, h: nat, n0: nat): nat
    requires n <= |levels|
  {
    if h == 0 then 0 else SizeBelow(levels, n, h - 1, n0) + |Members(levels, n, h - 1, n0)|
  }

  lemma {:induction false} NothingBelow(levels: seq<nat>, h: nat, n0: nat)
    ensures SizeBelow(levels, 0, h, n0) == 0
  {
    if h > 0 {
      NothingBelow(levels, h - 1, n0);
    }
  }

  lemma {:induction false} OneMore(levels: seq<nat>, n: nat, h: nat, n0: nat)
    requires 0 < n <= |levels|
    ensures SizeBelow(levels, n, h, n0) == SizeBelow(levels, n - 1, h, n0) + if levels[n - 1] < h then 1 else 0
  {
    if h > 0 {
      OneMore(levels, n, h - 1, n0);
    }
  }

  lemma {:induction false} StartsAreSizes(hist: seq<nat>, levels: seq<nat>, n0: nat, l: nat)
    requires IsHistogram(hist, levels, |levels|, n0) && l <= |hist|
    ensures StartOf(hist, l) == SizeBelow(levels, |levels|, l, n0)
  {
    if l > 0 {
      StartsAreSizes(hist, levels, n0, l - 1);
    }
  }

  /** The cumulative sums of the histogram. The last entry stays zero. */
  method Accumulate(hist: seq<nat>) returns (offsets: seq<nat>)
    requires hist != []
    ensures |offsets| == |hist| + 1
    ensures forall l :: 0 <= l < |hist| ==> offsets[l] == StartOf(hist, l)
  {
    offsets := seq(|hist| + 1, _ => 0);
    for i := 0 to |hist| - 1
      invariant |offsets| == |hist| + 1
      invariant forall l :: 0 <= l <= i ==> offsets[l] == StartOf(hist, l)
    {
      offsets := offsets[i + 1 := offsets[i] + hist[i]];
    }
  }

  /** The bucket of level l holds its members among the first i points. */
  ghost predicate BucketHolds(order: seq<nat>, start: nat, members: seq<nat>) {
    start + |members| <= |order| && order[start..start + |members|] == members
  }

  /** The first i points are in their buckets, for all levels below h. */
  ghost predicate Filled(order: seq<nat>, hist: seq<nat>, levels: seq<nat>, i: nat, h: nat, n0: nat)
    requires i <= |levels| && h <= |hist|
  {
    forall l {:trigger Members(levels, i, l, n0)} :: 0 <= l < h ==>
      BucketHolds(order, StartOf(hist, l), Members(levels, i, l, n0))
  }

  lemma SliceOfRest(s: seq<nat>, o: nat, start: nat, end: nat)
    requires o <= start <= end <= |s|
    ensures s[start..end] == s[o..][start - o..end - o]
  {
  }

  lemma SliceOfFront(s: seq<nat>, lo: nat, start: nat, end: nat)
    requires start <= end <= lo <= |s|
    ensures s[start..end] == s[..lo][start..end]
  {
  }

  lemma BucketKept(order: seq<nat>, next: seq<nat>, start: nat, members: seq<nat>, lo: nat, hi: nat)
    requires BucketHolds(order, start, members) && |next| == |order| && lo <= hi <= |order|
    requires next[..lo] == order[..lo] && next[hi..] == order[hi..]
    requires start + |members| <= lo || hi <= start
    ensures BucketHolds(next, start, members)
  {
    var end := start + |members|;
    if end <= lo {
      SliceOfFront(next, lo, start, end);
      SliceOfFront(order, lo, start, end);
    } else {
      SliceOfRest(next, hi, start, end);
      SliceOfRest(order, hi, start, end);
    }
  }

  lemma BucketGrows(order: seq<nat>, start: nat, members: seq<nat>, id: nat)
    requires BucketHolds(order, start, members) && start + |members| < |order|
    ensures BucketHolds(order[start + |members| := id], start, members + [id])
  {
  }

  lemma HistogramAt(hist: seq<nat>, levels: seq<nat>, n0: nat, l: nat)
    requires IsHistogram(hist, levels, |levels|, n0) && l < |hist|
    ensures hist[l] == |Members(levels, |levels|, l, n0)|
  {
  }

  /** The buckets fill the order, and every point has one. */
  lemma BucketsFit(hist: seq<nat>, levels: seq<nat>, n0: nat)
    requires IsHistogram(hist, levels, |levels|, n0)
    ensures StartOf(hist, |hist|) == |levels|
    ensures forall i :: 0 <= i < |levels| ==> levels[i] < |hist|
  {
    hide StartOf, Members, SizeBelow;
    BucketsAddUp(levels, |levels|, |hist|, n0);
    StartsAreSizes(hist, levels, n0, |hist|);
  }

  lemma NextMember(levels: seq<nat>, i: nat, l: nat, n0: nat)
    requires i < |levels|
    ensures Members(levels, i + 1, l, n0) == if levels[i] == l then Members(levels, i, l, n0) + [n0 + i]
      else Members(levels, i, l, n0)
  {
  }

  /** Where the next point goes: behind the members of its level so far, inside its bucket. */
  lemma RoomForNext(hist: seq<nat>, levels: seq<nat>, i: nat, n0: nat)
    requires i < |levels| && IsHistogram(hist, levels, |levels|, n0)
    ensures levels[i] < |hist|
    ensures StartOf(hist, levels[i]) + |Members(levels, i, levels[i], n0)| < StartOf(hist, levels[i]) + hist[levels[i]]
    ensures StartOf(hist, levels[i]) + hist[levels[i]] <= |levels|
  {
    hide *;
    BucketsFit(hist, levels, n0);
    HistogramAt(hist, levels, n0, levels[i]);
    NextMember(levels, i, levels[i], n0);
    MembersPrefix(levels, i + 1, |levels|, levels[i], n0);
    StartsGrow(hist, levels[i], |hist|);
  }

  lemma OtherBucket(hist: seq<nat>, levels: seq<nat>, i: nat, n0: nat, l: nat, m: nat)
    requires i <= |levels| && IsHistogram(hist, levels, |levels|, n0) && l < |hist| && m < |hist| && l != m
    ensures StartOf(hist, l) + |Members(levels, i, l, n0)| <= StartOf(hist, m) || StartOf(hist, m) + hist[m] <= StartOf(hist, l)
  {
    hide *;
    HistogramAt(hist, levels, n0, l);
    MembersPrefix(levels, i, |levels|, l, n0);
    if l < m {
      StartsGrow(hist, l, m);
    } else {
      StartsGrow(hist, m, l);
    }
  }

  /** The place of the next point is free and belongs to its bucket. */
  lemma PlaceNext(order: seq<nat>, hist: seq<nat>, levels: seq<nat>, i: nat, n0: nat)
    requires i < |levels| == |order| && IsHistogram(hist, levels, |levels|, n0)
    requires Filled(order, hist, levels, i, |hist|, n0)
    ensures levels[i] < |hist|
    ensures var p := StartOf(hist, levels[i]) + |Members(levels, i, levels[i], n0)|;
      p < |order| && Filled(order[p := n0 + i], hist, levels, i + 1, |hist|, n0)
  {
    hide IsHistogram, StartOf, Members, BucketHolds;
    RoomForNext(hist, levels, i, n0);
    var level := levels[i];
    var p := StartOf(hist, level) + |Members(levels, i, level, n0)|;
    var next := order[p := n0 + i];
    assert next[..p] == order[..p] && next[p + 1..] == order[p + 1..];
    forall l {:trigger Members(levels, i + 1, l, n0)} | 0 <= l < |hist|
      ensures BucketHolds(next, StartOf(hist, l), Members(levels, i + 1, l, n0))
    {
      assert BucketHolds(order, StartOf(hist, l), Members(levels, i, l, n0));
      NextMember(levels, i, l, n0);
      if l == level {
        BucketGrows(order, StartOf(hist, l), Members(levels, i, l, n0), n0 + i);
      } else {
        OtherBucket(hist, levels, i, n0, l, level);
        BucketKept(order, next, StartOf(hist, l), Members(levels, i, l, n0), p, p + 1);
      }
    }
  }

  method BucketSort(levels: seq<nat>, n0: nat, hist: seq<nat>, order: array<nat>)
    requires IsHistogram(hist, levels, |levels|, n0) && hist != [] && order.Length == |levels|
    modifies order
    ensures Filled(order[..], hist, levels, |levels|, |hist|, n0)
  {
    hide *;
    var offsets := Accumulate(hist);
    SomeStart(order[..], hist, levels, n0);
    OffsetsStart(offsets, hist, levels, n0);
    for i := 0 to |levels|
      invariant Offsets(offsets, hist, levels, i, n0) && Filled(order[..], hist, levels, i, |hist|, n0)
    {
      var level := levels[i];
      PlaceNext(order[..], hist, levels, i, n0);
      OffsetsNext(offsets, hist, levels, i, n0);
      ghost var before := order[..];
      var id: nat := n0 + i;
      order[offsets[level]] := id;
      assert order[..] == before[offsets[level] := id];
      offsets := offsets[level := offsets[level] + 1];
    }
  }

  /** Where the next point of each level goes. */
  ghost predicate Offsets(offsets: seq<nat>, hist: seq<nat>, levels: seq<nat>, i: nat, n0: nat)
    requires i <= |levels|
  {
    && |offsets| == |hist| + 1
    && forall l {:trigger offsets[l]} :: 0 <= l < |hist| ==>
      offsets[l] == StartOf(hist, l) + |Members(levels, i, l, n0)|
  }

  lemma OffsetsStart(offsets: seq<nat>, hist: seq<nat>, levels: seq<nat>, n0: nat)
    requires |offsets| == |hist| + 1 && forall l :: 0 <= l < |hist| ==> offsets[l] == StartOf(hist, l)
    ensures Offsets(offsets, hist, levels, 0, n0)
  {
  }

  lemma OffsetsNext(offsets: seq<nat>, hist: seq<nat>, levels: seq<nat>, i: nat, n0: nat)
    requires i < |levels| && levels[i] < |hist| && Offsets(offsets, hist, levels, i, n0)
    ensures |offsets| == |hist| + 1
    ensures offsets[levels[i]] == StartOf(hist, levels[i]) + |Members(levels, i, levels[i], n0)|
    ensures Offsets(offsets[levels[i] := offsets[levels[i]] + 1], hist, levels, i + 1, n0)
  {
    hide StartOf, Members;
    var next := offsets[levels[i] := offsets[levels[i]] + 1];
    forall l {:trigger next[l]} | 0 <= l < |hist|
      ensures next[l] == StartOf(hist, l) + |Members(levels, i + 1, l, n0)|
    {
      NextMember(levels, i, l, n0);
      assert offsets[l] == StartOf(hist, l) + |Members(levels, i, l, n0)|;
    }
  }

  lemma SomeStart(order: seq<nat>, hist: seq<nat>, levels: seq<nat>, n0: nat)
    requires IsHistogram(hist, levels, |levels|, n0) && |order| == |levels|
    ensures Filled(order, hist, levels, 0, |hist|, n0)
  {
    BucketsFit(hist, levels, n0);
    forall l {:trigger Members(levels, 0, l, n0)} | 0 <= l < |hist|
      ensures BucketHolds(order, StartOf(hist, l), Members(levels, 0, l, n0))
    {
      StartsGrow(hist, l, |hist|);
    }
  }

  /** Random swaps inside order[i0..i1], whatever the draws are. */
  method Shuffle(order: array<nat>, i0: nat, i1: nat, draws: nat -> nat, first: nat) returns (used: nat)
    requires i0 <= i1 <= order.Length
    modifies order
    ensures multiset(order[i0..i1]) == multiset(old(order[i0..i1]))
    ensures order[..i0] == old(order[..i0]) && order[i1..] == old(order[i1..])
  {
    used := first;
    for j := i0 to i1
      invariant multiset(order[i0..i1]) == multiset(old(order[i0..i1]))
      invariant order[..i0] == old(order[..i0]) && order[i1..] == old(order[i1..])
    {
      var m := j + draws(used) % (i1 - j);
      used := used + 1;
      SwapTwo(order, i0, i1, j, m);
    }
  }

  method SwapTwo(order: array<nat>, i0: nat, i1: nat, j: nat, m: nat)
    requires i0 <= j < i1 <= order.Length && i0 <= m < i1
    modifies order
    ensures multiset(order[i0..i1]) == multiset(old(order[i0..i1]))
    ensures order[..i0] == old(order[..i0]) && order[i1..] == old(order[i1..])
  {
    ghost var before := order[..];
    order[j], order[m] := order[m], order[j];
    ghost var after := order[..];
    assert after == before[j := before[m]][m := before[j]];
    SwapInSlice(before, after, i0, i1, j, m);
    assert order[i0..i1] == after[i0..i1] && order[..i0] == after[..i0] && order[i1..] == after[i1..];
  }

  lemma SwapInSlice(before: seq<nat>, after: seq<nat>, i0: nat, i1: nat, j: nat, m: nat)
    requires i0 <= j < i1 <= |before| && i0 <= m < i1 && after == before[j := before[m]][m := before[j]]
    ensures multiset(after[i0..i1]) == multiset(before[i0..i1])
    ensures after[..i0] == before[..i0] && after[i1..] == before[i1..]
  {
    var s, t := before[i0..i1], after[i0..i1];
    var a, b := j - i0, m - i0;
    assert s[a] == before[j] && s[b] == before[m];
    forall k | 0 <= k < |s|
      ensures t[k] == s[a := s[b]][b := s[a]][k]
    {
      assert t[k] == after[i0 + k] && s[k] == before[i0 + k];
    }
    assert t == s[a := s[b]][b := s[a]];
    SwapKeepsAll(s, a, b);
  }

  lemma SwapKeepsAll(s: seq<nat>, i: nat, j: nat)
    requires i < |s| && j < |s|
    ensures multiset(s[i := s[j]][j := s[i]]) == multiset(s)
  {
  }

  /** A batch holds every point of its level, once, and nothing else. */
  ghost predicate IsBatch(batch: seq<nat>, levels: seq<nat>, l: nat, n0: nat) {
    forall id: nat :: multiset(batch)[id] == if n0 <= id < n0 + |levels| && levels[id - n0] == l then 1 else 0
  }

  lemma SliceIsBatch(batch: seq<nat>, levels: seq<nat>, l: nat, n0: nat)
    requires multiset(batch) == multiset(Members(levels, |levels|, l, n0))
    ensures IsBatch(batch, levels, l, n0)
  {
    forall id: nat
      ensures multiset(batch)[id] == if n0 <= id < n0 + |levels| && levels[id - n0] == l then 1 else 0
    {
      MemberOnce(levels, |levels|, l, n0, id);
    }
  }

  /** Shuffling a bucket leaves the buckets below it alone. */
  lemma LowBucketsStay(order: seq<nat>, next: seq<nat>, hist: seq<nat>, levels: seq<nat>, n0: nat, h: nat)
    requires h < |hist| && IsHistogram(hist, levels, |levels|, n0) && Filled(order, hist, levels, |levels|, h + 1, n0)
    requires |next| == |order| && StartOf(hist, h) <= |order| && next[..StartOf(hist, h)] == order[..StartOf(hist, h)]
    ensures Filled(next, hist, levels, |levels|, h, n0)
  {
    forall l {:trigger Members(levels, |levels|, l, n0)} | 0 <= l < h
      ensures BucketHolds(next, StartOf(hist, l), Members(levels, |levels|, l, n0))
    {
      StartsGrow(hist, l, h);
      assert |Members(levels, |levels|, l, n0)| == hist[l];
      hide BucketHolds;
      BucketKept(order, next, StartOf(hist, l), Members(levels, |levels|, l, n0), StartOf(hist, h), |order|);
    }
  }

  /** The batches in the order they are inserted: levels from the highest one down, each with exactly its
      points; i1 ends at zero. There is at least one new point. */
  method AddVertices(levels: seq<nat>, n0: nat, draws: nat -> nat) returns (batches: seq<seq<nat>>, i1: nat)
    requires levels != []
    ensures i1 == 0 && batches != []
    ensures Reached(levels, |levels|, |batches| - 1) && forall i :: 0 <= i < |levels| ==> levels[i] < |batches|
    ensures forall b: nat :: b < |batches| ==> IsBatch(batches[b], levels, |batches| - 1 - b, n0)
  {
    hide *;
    var hist := Histogram(levels, n0);
    var order := new nat[|levels|];
    BucketSort(levels, n0, hist, order);
    BucketsFit(hist, levels, n0);
    batches := [];
    i1 := |levels|;
    var used := 0;
    var l := |hist| - 1;
    while l >= 0
      invariant -1 <= l < |hist| && |batches| == |hist| - 1 - l
      invariant i1 == StartOf(hist, l + 1) <= |levels| && Filled(order[..], hist, levels, |levels|, l + 1, n0)
      invariant forall b: nat :: b < |batches| ==> IsBatch(batches[b], levels, |hist| - 1 - b, n0)
    {
      var batch;
      i1, batch, used := NextBatch(levels, n0, hist, order, l, i1, draws, used);
      batches := batches + [batch];
      l := l - 1;
    }
    StartsAtZero(hist);
    TopReached(hist, levels, n0);
  }

  lemma TopReached(hist: seq<nat>, levels: seq<nat>, n0: nat)
    requires IsHistogram(hist, levels, |levels|, n0) && hist != []
    ensures Reached(levels, |levels|, |hist| - 1)
  {
  }

  lemma StartsAtZero(hist: seq<nat>)
    ensures StartOf(hist, 0) == 0
  {
  }

  /** One level: its points, shuffled. */
  method NextBatch(levels: seq<nat>, n0: nat, hist: seq<nat>, order: array<nat>, l: nat, i1: nat, draws: nat -> nat,
                   first: nat)
    returns (i0: nat, batch: seq<nat>, used: nat)
    requires IsHistogram(hist, levels, |levels|, n0) && order.Length == |levels| && l < |hist|
    requires i1 == StartOf(hist, l + 1) && Filled(order[..], hist, levels, |levels|, l + 1, n0)
    modifies order
    ensures i0 == StartOf(hist, l) <= |levels| && IsBatch(batch, levels, l, n0)
    ensures Filled(order[..], hist, levels, |levels|, l, n0)
  {
    BucketOf(order[..], hist, levels, n0, l);
    assert i1 - hist[l] >= 0;
    hide Filled, IsHistogram, IsBatch, StartOf, Members;
    i0 := i1 - hist[l];
    ghost var before := order[..];
    assert order[i0..i1] == before[i0..i1];
    used := Shuffle(order, i0, i1, draws, first);
    batch := order[i0..i1];
    SliceIsBatch(batch, levels, l, n0);
    assert order[..][..i0] == order[..i0] == before[..i0];
    LowBucketsStay(before, order[..], hist, levels, n0, l);
  }

  lemma BucketOf(order: seq<nat>, hist: seq<nat>, levels: seq<nat>, n0: nat, l: nat)
    requires l < |hist| && IsHistogram(hist, levels, |levels|, n0) && Filled(order, hist, levels, |levels|, l + 1, n0)
    ensures StartOf(hist, l + 1) == StartOf(hist, l) + hist[l] <= |order|
    ensures order[StartOf(hist, l)..StartOf(hist, l + 1)] == Members(levels, |levels|, l, n0)
  {
    assert |Members(levels, |levels|, l, n0)| == hist[l];
    assert BucketHolds(order, StartOf(hist, l), Members(levels, |levels|, l, n0));
  }

  /** Over all batches every new point is inserted once. */
  lemma EachPointOnce(batches: seq<seq<nat>>, levels: seq<nat>, n0: nat, id: nat)
    requires forall b: nat :: b < |batches| ==> IsBatch(batches[b], levels, |batches| - 1 - b, n0)
    requires n0 <= id < n0 + |levels| && levels[id - n0] < |batches|
    ensures var b := |batches| - 1 - levels[id - n0];
      multiset(batches[b])[id] == 1 && forall a: nat :: a < |batches| && a != b ==> id !in batches[a]
  {
    var b := |batches| - 1 - levels[id - n0];
    assert IsBatch(batches[b], levels, |batches| - 1 - b, n0);
    forall a: nat | a < |batches| && a != b
      ensures id !in batches[a]
    {
      assert IsBatch(batches[a], levels, |batches| - 1 - a, n0);
      assert multiset(batches[a])[id] == 0;
    }
  }
}
