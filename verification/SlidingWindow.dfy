/**
 A sliding window of index slices kept in the inverted lists of one index (faiss/IVFlib.cpp,
 SlidingIndexWindow). Every list is a vector of ids and a flat vector of codes.
 */
module SlidingWindow {

  import opened Options

  /** What a slice has in one list. */
  datatype Chunk = Chunk(ids: seq<int>, codes: seq<int>)

  /** The inverted lists of a slice, with its code size. */
  datatype Slice = Slice(chunks: seq<Chunk>, codeSize: nat)

  ghost predicate Compatible(s: Slice, nlist: nat, codeSize: nat) {
    && |s.chunks| == nlist && s.codeSize == codeSize
    && forall i :: 0 <= i < nlist ==> IsChunk(s.chunks[i], codeSize)
  }

  ghost predicate IsChunk(c: Chunk, codeSize: nat) {
    |c.codes| == |c.ids| * codeSize
  }

  /** The ids of list i in these slices, oldest first. */
  function Ids(window: seq<Slice>, i: nat): seq<int>
    requires forall j :: 0 <= j < |window| ==> i < |window[j].chunks|
  {
    if window == [] then [] else Ids(window[..|window| - 1], i) + window[|window| - 1].chunks[i].ids
  }

  function Codes(window: seq<Slice>, i: nat): seq<int>
    requires forall j :: 0 <= j < |window| ==> i < |window[j].chunks|
  {
    if window == [] then [] else Codes(window[..|window| - 1], i) + window[|window| - 1].chunks[i].codes
  }

  ghost predicate AllCompatible(window: seq<Slice>, nlist: nat, codeSize: nat) {
    forall j :: 0 <= j < |window| ==> Compatible(window[j], nlist, codeSize)
  }

  lemma LastOne(window: seq<Slice>, i: nat)
    requires window != [] && forall j :: 0 <= j < |window| ==> i < |window[j].chunks|
    ensures Ids(window, i) == Ids(window[..|window| - 1], i) + window[|window| - 1].chunks[i].ids
    ensures Codes(window, i) == Codes(window[..|window| - 1], i) + window[|window| - 1].chunks[i].codes
  {
  }

  lemma {:induction false} OldestFirst(window: seq<Slice>, i: nat)
    requires window != [] && forall j :: 0 <= j < |window| ==> i < |window[j].chunks|
    ensures Ids(window, i) == window[0].chunks[i].ids + Ids(window[1..], i)
    ensures Codes(window, i) == window[0].chunks[i].codes + Codes(window[1..], i)
  {
    hide Ids, Codes;
    var n := |window| - 1;
    var first, last := window[0].chunks[i], window[n].chunks[i];
    LastOne(window, i);
    if n == 0 {
      NoSlices(i);
      assert window[..0] == [] == window[1..];
    } else {
      var front, rest := window[..n], window[1..];
      assert rest[..n - 1] == front[1..];
      OldestFirst(front, i);
      LastOne(rest, i);
      Regroup(Ids(window, i), Ids(front, i), last.ids, Ids(rest, i), Ids(front[1..], i), first.ids);
      Regroup(Codes(window, i), Codes(front, i), last.codes, Codes(rest, i), Codes(front[1..], i), first.codes);
    }
  }

  lemma NoSlices(i: nat)
    ensures Ids([], i) == [] == Codes([], i)
  {
  }

  lemma Regroup(w: seq<int>, f: seq<int>, c: seq<int>, r: seq<int>, r0: seq<int>, h: seq<int>)
    requires w == f + c && r == r0 + c && f == h + r0
    ensures w == h + r
  {
  }

  lemma Associate(a: seq<int>, b: seq<int>, c: seq<int>)
    ensures (a + b) + c == a + (b + c)
  {
  }

  lemma Newest(window: seq<Slice>, s: Slice, i: nat)
    requires i < |s.chunks| && forall j :: 0 <= j < |window| ==> i < |window[j].chunks|
    ensures Ids(window + [s], i) == Ids(window, i) + s.chunks[i].ids
    ensures Codes(window + [s], i) == Codes(window, i) + s.chunks[i].codes
  {
    assert (window + [s])[..|window|] == window;
  }

  lemma {:induction false} CodesLength(window: seq<Slice>, nlist: nat, codeSize: nat, i: nat)
    requires AllCompatible(window, nlist, codeSize) && i < nlist
    ensures |Codes(window, i)| == |Ids(window, i)| * codeSize
  {
    if window != [] {
      var n := |window| - 1;
      CodesLength(window[..n], nlist, codeSize, i);
      var c := window[n].chunks[i];
      assert IsChunk(c, codeSize);
      Distribute(|Ids(window[..n], i)|, |c.ids|, codeSize);
    }
  }

  lemma Distribute(a: int, b: int, c: int)
    ensures (a + b) * c == a * c + b * c && (a - b) * c == a * c - b * c
  {
  }

  /** Cumulative lengths: entry j is the length through slice j. */
  ghost predicate Cumulative(sizes: seq<nat>, window: seq<Slice>, i: nat)
    requires forall j :: 0 <= j < |window| ==> i < |window[j].chunks|
  {
    |sizes| == |window| && forall j :: 0 <= j < |window| ==> sizes[j] == Through(window, j, i)
  }

  ghost function Through(window: seq<Slice>, j: nat, i: nat): nat
    requires j < |window| && forall m :: 0 <= m < |window| ==> i < |window[m].chunks|
  {
    |Ids(window[..j + 1], i)|
  }

  /** memmove, resize and memcpy in one buffer. */
  method ShiftAndAdd(dst: seq<int>, remove: nat, src: seq<int>) returns (r: seq<int>)
    requires remove <= |dst|
    ensures r == dst[remove..] + src
  {
    r := dst;
    if remove > 0 {
      r := dst[remove..] + dst[|dst| - remove..];
    }
    var insertPoint := |r| - remove;
    if insertPoint + |src| <= |r| {
      r := r[..insertPoint + |src|];
    } else {
      r := r + seq(insertPoint + |src| - |r|, _ => 0);
    }
    r := r[..insertPoint] + src + r[insertPoint + |src|..];
  }

  method RemoveFromBegin(v: seq<int>, remove: nat) returns (r: seq<int>)
    requires remove <= |v|
    ensures r == v[remove..]
  {
    r := v;
    if remove > 0 {
      r := v[remove..];
    }
  }

  /** One list of the index, with its base (what it held before the first slice came) and its slices. */
  ghost predicate GoodList(ids: seq<int>, codes: seq<int>, sizes: seq<nat>, base: Chunk, window: seq<Slice>, i: nat)
    requires forall j :: 0 <= j < |window| ==> i < |window[j].chunks|
  {
    && ids == base.ids + Ids(window, i) && codes == base.codes + Codes(window, i)
    && Cumulative(sizes, window, i)
  }

  ghost predicate EmptyBase(base: Slice) {
    forall i :: 0 <= i < |base.chunks| ==> base.chunks[i] == Chunk([], [])
  }

  function EmptySlice(nlist: nat, codeSize: nat): Slice {
    Slice(seq(nlist, _ => Chunk([], [])), codeSize)
  }

  /** What was there before becomes part of the first slice. */
  function Glue(base: Slice, s: Slice): Slice
    requires |base.chunks| == |s.chunks|
  {
    Slice(seq(|s.chunks|, i requires 0 <= i < |s.chunks| =>
      Chunk(base.chunks[i].ids + s.chunks[i].ids, base.chunks[i].codes + s.chunks[i].codes)), s.codeSize)
  }

  lemma GlueIsCompatible(base: Slice, s: Slice, nlist: nat, codeSize: nat)
    requires Compatible(base, nlist, codeSize) && Compatible(s, nlist, codeSize)
    ensures Compatible(Glue(base, s), nlist, codeSize)
  {
    forall i | 0 <= i < nlist
      ensures IsChunk(Glue(base, s).chunks[i], codeSize)
    {
      assert IsChunk(base.chunks[i], codeSize) && IsChunk(s.chunks[i], codeSize);
      Distribute(|base.chunks[i].ids|, |s.chunks[i].ids|, codeSize);
    }
  }

  /** The window after a step. */
  function NextWindow(base: Slice, window: seq<Slice>, sub: Option<Slice>, removeOldest: bool): seq<Slice>
    requires removeOldest ==> window != []
    requires sub.Some? ==> |base.chunks| == |sub.value.chunks|
  {
    var rest := if removeOldest then window[1..] else window;
    if sub.None? then rest
    else if window == [] then [Glue(base, sub.value)]
    else rest + [sub.value]
  }

  // The cumulative sizes.

  lemma ThroughNewest(window: seq<Slice>, s: Slice, j: nat, i: nat)
    requires i < |s.chunks| && forall m :: 0 <= m < |window| ==> i < |window[m].chunks|
    requires j <= |window|
    ensures Through(window + [s], j, i) ==
      if j < |window| then Through(window, j, i) else |Ids(window, i)| + |s.chunks[i].ids|
  {
    if j < |window| {
      assert (window + [s])[..j + 1] == window[..j + 1];
    } else {
      assert (window + [s])[..j + 1] == window + [s];
      Newest(window, s, i);
    }
  }

  lemma ThroughRest(window: seq<Slice>, j: nat, i: nat)
    requires j + 1 < |window| && forall m :: 0 <= m < |window| ==> i < |window[m].chunks|
    ensures Through(window[1..], j, i) == Through(window, j + 1, i) - |window[0].chunks[i].ids|
  {
    assert window[..j + 1 + 1][1..] == window[1..][..j + 1];
    OldestFirst(window[..j + 1 + 1], i);
  }

  lemma ThroughFirst(window: seq<Slice>, i: nat)
    requires window != [] && forall m :: 0 <= m < |window| ==> i < |window[m].chunks|
    ensures Through(window, 0, i) == |window[0].chunks[i].ids|
  {
    var first := window[..0 + 1];
    assert first[..|first| - 1] == [] && first[|first| - 1] == window[0];
    assert Ids([], i) == [];
  }

  /** The sizes of all slices but the oldest, shifted in place; the last entry is left as it was. */
  method ShiftSizes(sizes: seq<nat>, nSlice: nat, amount: nat, ghost window: seq<Slice>, ghost i: nat)
    returns (next: seq<nat>)
    requires forall m :: 0 <= m < |window| ==> i < |window[m].chunks|
    requires Cumulative(sizes, window, i) && nSlice == |window| > 0 && amount == sizes[0]
    ensures |next| == nSlice && Cumulative(next[..nSlice - 1], window[1..], i)
  {
    next := sizes;
    ThroughFirst(window, i);
    var j := 0;
    while j + 1 < nSlice
      invariant 0 <= j < nSlice && |next| == nSlice
      invariant forall m :: j <= m < nSlice ==> next[m] == sizes[m]
      invariant forall m: nat :: m < j ==> next[m] == Through(window[1..], m, i)
    {
      ThroughRest(window, j, i);
      next := next[j := next[j + 1] - amount];
      j := j + 1;
    }
  }

  // The window itself.

  function Total(ids: seq<seq<int>>): nat {
    if ids == [] then 0 else Total(ids[..|ids| - 1]) + |ids[|ids| - 1]|
  }

  lemma {:induction false} TotalUpdate(ids: seq<seq<int>>, i: nat, x: seq<int>)
    requires i < |ids|
    ensures Total(ids[i := x]) == Total(ids) - |ids[i]| + |x|
  {
    var n := |ids| - 1;
    if i == n {
      assert ids[i := x][..n] == ids[..n];
    } else {
      TotalUpdate(ids[..n], i, x);
      assert ids[i := x][..n] == ids[..n][i := x];
    }
  }

  lemma {:induction false} TotalHas(ids: seq<seq<int>>, i: nat)
    requires i < |ids|
    ensures |ids[i]| <= Total(ids)
  {
    if i < |ids| - 1 {
      TotalHas(ids[..|ids| - 1], i);
    }
  }

  datatype Error = NoSliceToRemove | NotCompatible | NothingToDo

  /** The sources of a step are refused in this order. */
  function Refused(nSlice: nat, sub: Option<Slice>, fits: bool, removeOldest: bool): Option<Error> {
    if removeOldest && nSlice == 0 then Some(NoSliceToRemove)
    else if sub.Some? && !fits then Some(NotCompatible)
    else if sub.None? && !removeOldest then Some(NothingToDo)
    else None
  }

  /** What a step does to one list: the oldest slice goes, the new one comes. */
  lemma ListRemoves(ids: seq<int>, codes: seq<int>, sizes: seq<nat>, base: Chunk, window: seq<Slice>, nlist: nat,
                    codeSize: nat, i: nat)
    requires AllCompatible(window, nlist, codeSize) && i < nlist && window != []
    requires GoodList(ids, codes, sizes, base, window, i) && base == Chunk([], [])
    ensures sizes[0] <= |ids| && ids[sizes[0]..] == Ids(window[1..], i)
    ensures 0 <= sizes[0] * codeSize <= |codes| && codes[sizes[0] * codeSize..] == Codes(window[1..], i)
  {
    ThroughFirst(window, i);
    OldestFirst(window, i);
    assert IsChunk(window[0].chunks[i], codeSize);
    assert ids == window[0].chunks[i].ids + Ids(window[1..], i);
    assert codes == window[0].chunks[i].codes + Codes(window[1..], i);
  }

  lemma ListGrows(window: seq<Slice>, s: Slice, sizes: seq<nat>, i: nat)
    requires i < |s.chunks| && forall m :: 0 <= m < |window| ==> i < |window[m].chunks|
    requires Cumulative(sizes, window, i)
    ensures Cumulative(sizes + [|Ids(window, i)| + |s.chunks[i].ids|], window + [s], i)
  {
    forall j | 0 <= j <= |window|
      ensures (sizes + [|Ids(window, i)| + |s.chunks[i].ids|])[j] == Through(window + [s], j, i)
    {
      ThroughNewest(window, s, j, i);
    }
  }

  lemma SizesFit(ids: seq<int>, codes: seq<int>, sizes: seq<nat>, base: Chunk, window: seq<Slice>, i: nat)
    requires forall j :: 0 <= j < |window| ==> i < |window[j].chunks|
    requires GoodList(ids, codes, sizes, base, window, i)
    ensures Cumulative(sizes, window, i) && |sizes| == |window|
  {
  }

  lemma BaseGrows(base: Slice, s: Slice, i: nat)
    requires i < |s.chunks| == |base.chunks|
    ensures Ids([Glue(base, s)], i) == base.chunks[i].ids + s.chunks[i].ids
    ensures Codes([Glue(base, s)], i) == base.chunks[i].codes + s.chunks[i].codes
    ensures Through([Glue(base, s)], 0, i) == |base.chunks[i].ids + s.chunks[i].ids|
  {
    var w := [Glue(base, s)];
    assert w[..0] == [] && w[..0 + 1] == w && Ids([], i) == [] && Codes([], i) == [];
  }

  function NextBase(base: Slice, sub: Option<Slice>, nlist: nat, codeSize: nat): Slice {
    if sub.Some? then EmptySlice(nlist, codeSize) else base
  }

  /** One list in a step that only adds. */
  lemma AddedList(ids: seq<int>, codes: seq<int>, sizes: seq<nat>, base: Slice, window: seq<Slice>, s: Slice, nlist: nat,
                  codeSize: nat, i: nat)
    requires Compatible(base, nlist, codeSize) && Compatible(s, nlist, codeSize) && AllCompatible(window, nlist, codeSize)
    requires i < nlist && (window != [] ==> EmptyBase(base)) && GoodList(ids, codes, sizes, base.chunks[i], window, i)
    requires AllCompatible(NextWindow(base, window, Some(s), false), nlist, codeSize)
    ensures GoodList(ids + s.chunks[i].ids, codes + s.chunks[i].codes, sizes + [|ids + s.chunks[i].ids|], Chunk([], []),
                     NextWindow(base, window, Some(s), false), i)
  {
    if window == [] {
      BaseGrows(base, s, i);
      assert Ids([], i) == [] && Codes([], i) == [];
    } else {
      Newest(window, s, i);
      ListGrows(window, s, sizes, i);
    }
  }

  /** One list in a step that removes, and then adds if there is something to add. */
  lemma RemovedList(ids: seq<int>, codes: seq<int>, sizes: seq<nat>, rest: seq<nat>, base: Chunk, window: seq<Slice>,
                    nlist: nat, codeSize: nat, i: nat)
    requires AllCompatible(window, nlist, codeSize) && i < nlist && window != [] && base == Chunk([], [])
    requires GoodList(ids, codes, sizes, base, window, i) && Cumulative(rest, window[1..], i)
    ensures sizes[0] <= |ids| && 0 <= sizes[0] * codeSize <= |codes|
    ensures GoodList(ids[sizes[0]..], codes[sizes[0] * codeSize..], rest, base, window[1..], i)
  {
    ListRemoves(ids, codes, sizes, base, window, nlist, codeSize, i);
  }

  lemma SwappedList(ids: seq<int>, codes: seq<int>, sizes: seq<nat>, rest: seq<nat>, base: Chunk, window: seq<Slice>,
                    s: Slice, nlist: nat, codeSize: nat, i: nat)
    requires AllCompatible(window, nlist, codeSize) && Compatible(s, nlist, codeSize) && i < nlist && window != []
    requires base == Chunk([], []) && GoodList(ids, codes, sizes, base, window, i) && Cumulative(rest, window[1..], i)
    ensures sizes[0] <= |ids| && 0 <= sizes[0] * codeSize <= |codes|
    ensures var next := ids[sizes[0]..] + s.chunks[i].ids;
      GoodList(next, codes[sizes[0] * codeSize..] + s.chunks[i].codes, rest + [|next|], base, window[1..] + [s], i)
  {
    ListRemoves(ids, codes, sizes, base, window, nlist, codeSize, i);
    Newest(window[1..], s, i);
    ListGrows(window[1..], s, rest, i);
  }

  // Whole runs.

  datatype Action = Action(sub: Option<Slice>, removeOldest: bool)

  /** No step of the run is refused. */
  ghost predicate Legal(actions: seq<Action>, nlist: nat, codeSize: nat) {
    actions == [] ||
    var a := actions[|actions| - 1];
    && Legal(actions[..|actions| - 1], nlist, codeSize)
    && (a.removeOldest ==> Removed(actions[..|actions| - 1]) < |Added(actions[..|actions| - 1])|)
    && (a.sub.Some? || a.removeOldest) && (a.sub.Some? ==> Compatible(a.sub.value, nlist, codeSize))
  }

  /** The slices added by a run, and how many were removed. */
  function Added(actions: seq<Action>): seq<Slice> {
    if actions == [] then []
    else
      var a := actions[|actions| - 1];
      Added(actions[..|actions| - 1]) + if a.sub.Some? then [a.sub.value] else []
  }

  function Removed(actions: seq<Action>): nat {
    if actions == [] then 0
    else Removed(actions[..|actions| - 1]) + if actions[|actions| - 1].removeOldest then 1 else 0
  }

  lemma GlueToEmpty(s: Slice, nlist: nat, codeSize: nat)
    requires Compatible(s, nlist, codeSize)
    ensures Glue(EmptySlice(nlist, codeSize), s) == s
  {
    forall i | 0 <= i < nlist
      ensures Glue(EmptySlice(nlist, codeSize), s).chunks[i] == s.chunks[i]
    {
      assert [] + s.chunks[i].ids == s.chunks[i].ids && [] + s.chunks[i].codes == s.chunks[i].codes;
    }
  }

  /** A legal run never removes more slices than it added. */
  lemma {:induction false} NeverOverdrawn(actions: seq<Action>, nlist: nat, codeSize: nat)
    requires Legal(actions, nlist, codeSize)
    ensures Removed(actions) <= |Added(actions)|
  {
    if actions != [] {
      NeverOverdrawn(actions[..|actions| - 1], nlist, codeSize);
    }
  }

  lemma {:induction false} AddedCompatible(actions: seq<Action>, nlist: nat, codeSize: nat)
    requires Legal(actions, nlist, codeSize)
    ensures AllCompatible(Added(actions), nlist, codeSize)
  {
    if actions != [] {
      AddedCompatible(actions[..|actions| - 1], nlist, codeSize);
    }
  }

  /** All slices added but the first r; the first one has taken in what was there before. */
  ghost function QueueOf(base: Slice, all: seq<Slice>, r: nat): (window: seq<Slice>)
    requires r <= |all| && (all != [] ==> |base.chunks| == |all[0].chunks|)
    ensures |window| == |all| - r
  {
    if r == 0 && all != [] then [Glue(base, all[0])] + all[1..] else all[r..]
  }

  /** The window after a legal run on an index that held base: the slices added, without as many of the oldest
      as were removed; what was there before is part of the first slice and goes with it. */
  ghost function WindowOf(base: Slice, done: seq<Action>, nlist: nat, codeSize: nat): (window: seq<Slice>)
    requires Compatible(base, nlist, codeSize) && Legal(done, nlist, codeSize)
    ensures Removed(done) <= |Added(done)| && |window| == |Added(done)| - Removed(done)
  {
    NeverOverdrawn(done, nlist, codeSize);
    AddedCompatible(done, nlist, codeSize);
    QueueOf(base, Added(done), Removed(done))
  }

  /** What is left of the base: it becomes part of the first slice. */
  ghost function BaseOf(base: Slice, done: seq<Action>, nlist: nat, codeSize: nat): Slice {
    if Added(done) == [] then base else EmptySlice(nlist, codeSize)
  }

  /** A queue, one step of a legal run: the step is not refused and takes the window to the next one. */
  lemma WindowIsQueue(base: Slice, actions: seq<Action>, a: Action, nlist: nat, codeSize: nat)
    requires Compatible(base, nlist, codeSize) && Legal(actions, nlist, codeSize) && Legal(actions + [a], nlist, codeSize)
    ensures
      var before := BaseOf(base, actions, nlist, codeSize);
      var window, next := WindowOf(base, actions, nlist, codeSize), WindowOf(base, actions + [a], nlist, codeSize);
      && Refused(|window|, a.sub, a.sub.Some? && Compatible(a.sub.value, nlist, codeSize), a.removeOldest) == None
      && (a.sub.Some? ==> |before.chunks| == |a.sub.value.chunks|)
      && NextWindow(before, window, a.sub, a.removeOldest) == next
      && NextBase(before, a.sub, nlist, codeSize) == BaseOf(base, actions + [a], nlist, codeSize)
  {
    hide *;
    NeverOverdrawn(actions, nlist, codeSize);
    AddedCompatible(actions, nlist, codeSize);
    OneMoreAction(actions, a, nlist, codeSize);
    WindowIs(base, actions, nlist, codeSize);
    WindowIs(base, actions + [a], nlist, codeSize);
    QueueStep(base, Added(actions), Removed(actions), a, nlist, codeSize);
  }

  lemma WindowIs(base: Slice, done: seq<Action>, nlist: nat, codeSize: nat)
    requires Compatible(base, nlist, codeSize) && Legal(done, nlist, codeSize)
    ensures Removed(done) <= |Added(done)| && (Added(done) != [] ==> |base.chunks| == |Added(done)[0].chunks|)
    ensures WindowOf(base, done, nlist, codeSize) == QueueOf(base, Added(done), Removed(done))
    ensures BaseOf(base, done, nlist, codeSize) == if Added(done) == [] then base else EmptySlice(nlist, codeSize)
  {
    AddedCompatible(done, nlist, codeSize);
    hide Added, Removed, Legal, QueueOf, EmptySlice;
  }

  lemma OneMoreAction(actions: seq<Action>, a: Action, nlist: nat, codeSize: nat)
    requires Legal(actions + [a], nlist, codeSize)
    ensures a.removeOldest ==> Removed(actions) < |Added(actions)|
    ensures (a.sub.Some? || a.removeOldest) && (a.sub.Some? ==> Compatible(a.sub.value, nlist, codeSize))
    ensures Added(actions + [a]) == Added(actions) + if a.sub.Some? then [a.sub.value] else []
    ensures Removed(actions + [a]) == Removed(actions) + if a.removeOldest then 1 else 0
  {
    assert (actions + [a])[..|actions|] == actions;
    hide Compatible;
  }

  /** One step on the slices themselves. */
  lemma QueueStep(base: Slice, all: seq<Slice>, r: nat, a: Action, nlist: nat, codeSize: nat)
    requires Compatible(base, nlist, codeSize) && AllCompatible(all, nlist, codeSize) && r <= |all|
    requires (a.removeOldest ==> r < |all|) && (a.sub.Some? || a.removeOldest)
    requires a.sub.Some? ==> Compatible(a.sub.value, nlist, codeSize)
    requires all != [] ==> |base.chunks| == |all[0].chunks|
    ensures
      var before, next := if all == [] then base else EmptySlice(nlist, codeSize), all + if a.sub.Some? then [a.sub.value] else [];
      && Refused(|all| - r, a.sub, a.sub.Some? && Compatible(a.sub.value, nlist, codeSize), a.removeOldest) == None
      && (a.sub.Some? ==> |before.chunks| == |a.sub.value.chunks|)
      && (next != [] ==> |base.chunks| == |next[0].chunks|)
      && NextWindow(before, QueueOf(base, all, r), a.sub, a.removeOldest)
        == QueueOf(base, next, r + if a.removeOldest then 1 else 0)
      && NextBase(before, a.sub, nlist, codeSize) == (if next == [] then base else EmptySlice(nlist, codeSize))
  {
    if a.sub.Some? {
      GlueToEmpty(a.sub.value, nlist, codeSize);
    }
    hide Glue, IsChunk;
    var added := if a.sub.Some? then [a.sub.value] else [];
    var window, next := QueueOf(base, all, r), QueueOf(base, all + added, r + if a.removeOldest then 1 else 0);
    assert (all + added)[r..] == all[r..] + added;
    if a.removeOldest {
      assert (all + added)[r + 1..] == all[r + 1..] + added && all[r..][1..] == all[r + 1..];
      assert next == window[1..] + added;
    } else if r == 0 && all != [] {
      assert (all + added)[0] == all[0] && (all + added)[1..] == all[1..] + added;
      assert next == window + added;
    }
  }

  /** On an empty index it is the slices added without the oldest ones removed. */
  lemma WindowOfEmpty(done: seq<Action>, nlist: nat, codeSize: nat)
    requires Compatible(EmptySlice(nlist, codeSize), nlist, codeSize) && Legal(done, nlist, codeSize)
    ensures Removed(done) <= |Added(done)|
    ensures WindowOf(EmptySlice(nlist, codeSize), done, nlist, codeSize) == Added(done)[Removed(done)..]
    ensures BaseOf(EmptySlice(nlist, codeSize), done, nlist, codeSize) == EmptySlice(nlist, codeSize)
  {
    NeverOverdrawn(done, nlist, codeSize);
    AddedCompatible(done, nlist, codeSize);
    if Added(done) != [] {
      GlueToEmpty(Added(done)[0], nlist, codeSize);
    }
    hide Glue, Compatible, EmptySlice;
  }

  /** The old content that list i still holds after a run. */
  function OldPart(base: Slice, done: seq<Action>, i: nat): Chunk
    requires i < |base.chunks|
  {
    if Removed(done) == 0 then base.chunks[i] else Chunk([], [])
  }

  lemma RestHasLists(done: seq<Action>, nlist: nat, codeSize: nat)
    requires Legal(done, nlist, codeSize)
    ensures Removed(done) <= |Added(done)|
    ensures forall j :: 0 <= j < |Added(done)[Removed(done)..]| ==> |Added(done)[Removed(done)..][j].chunks| == nlist
  {
    NeverOverdrawn(done, nlist, codeSize);
    AddedCompatible(done, nlist, codeSize);
    hide Added, Removed, Legal;
  }

  /** What list i holds after a run: the old content as long as no slice has gone, then the slices that are
      left. */
  lemma ContentOf(base: Slice, done: seq<Action>, nlist: nat, codeSize: nat, i: nat)
    requires Compatible(base, nlist, codeSize) && Legal(done, nlist, codeSize) && i < nlist
    requires Removed(done) <= |Added(done)|
    requires forall j :: 0 <= j < |Added(done)[Removed(done)..]| ==> |Added(done)[Removed(done)..][j].chunks| == nlist
    ensures
      var window, left := WindowOf(base, done, nlist, codeSize), BaseOf(base, done, nlist, codeSize);
      var rest := Added(done)[Removed(done)..];
      && |left.chunks| == nlist && (forall j :: 0 <= j < |window| ==> |window[j].chunks| == nlist)
      && left.chunks[i].ids + Ids(window, i) == OldPart(base, done, i).ids + Ids(rest, i)
      && left.chunks[i].codes + Codes(window, i) == OldPart(base, done, i).codes + Codes(rest, i)
  {
    hide *;
    AddedCompatible(done, nlist, codeSize);
    WindowIs(base, done, nlist, codeSize);
    ContentOfQueue(base, Added(done), Removed(done), nlist, codeSize, i);
    OldPartIs(base, done, i);
  }

  lemma OldPartIs(base: Slice, done: seq<Action>, i: nat)
    requires i < |base.chunks|
    ensures OldPart(base, done, i) == if Removed(done) == 0 then base.chunks[i] else Chunk([], [])
  {
    hide Removed;
  }

  lemma ContentOfQueue(base: Slice, all: seq<Slice>, r: nat, nlist: nat, codeSize: nat, i: nat)
    requires Compatible(base, nlist, codeSize) && AllCompatible(all, nlist, codeSize) && r <= |all| && i < nlist
    requires all != [] ==> |base.chunks| == |all[0].chunks|
    ensures
      var window, left := QueueOf(base, all, r), if all == [] then base else EmptySlice(nlist, codeSize);
      var first := if r == 0 then base.chunks[i] else Chunk([], []);
      && |left.chunks| == |base.chunks| == nlist && (forall j :: 0 <= j < |window| ==> |window[j].chunks| == nlist)
      && (forall j :: 0 <= j < |all[r..]| ==> |all[r..][j].chunks| == nlist)
      && left.chunks[i].ids + Ids(window, i) == first.ids + Ids(all[r..], i)
      && left.chunks[i].codes + Codes(window, i) == first.codes + Codes(all[r..], i)
  {
    hide Ids, Codes, IsChunk;
    NoSlices(i);
    if all != [] && r == 0 {
      var window := QueueOf(base, all, r);
      assert all[0..] == all && window[1..] == all[1..];
      assert forall j :: 0 <= j < |window| ==> |window[j].chunks| == nlist;
      OldestFirst(window, i);
      OldestFirst(all, i);
      Associate(base.chunks[i].ids, all[0].chunks[i].ids, Ids(all[1..], i));
      Associate(base.chunks[i].codes, all[0].chunks[i].codes, Codes(all[1..], i));
    }
  }

  /** What the lists hold after a run: what is left of the old content, then the slices that are left. */
  ghost predicate HoldsRest(ids: seq<seq<int>>, codes: seq<seq<int>>, base: Slice, done: seq<Action>) {
    && |ids| == |codes| == |base.chunks| && Removed(done) <= |Added(done)|
    && (forall j :: 0 <= j < |Added(done)[Removed(done)..]| ==> |Added(done)[Removed(done)..][j].chunks| == |base.chunks|)
    && (forall i: nat {:trigger ids[i]} :: i < |ids| ==>
      && ids[i] == OldPart(base, done, i).ids + Ids(Added(done)[Removed(done)..], i)
      && codes[i] == OldPart(base, done, i).codes + Codes(Added(done)[Removed(done)..], i))
  }

  /** First in, first out behind the old content: the lists hold all of it, then the slices added without as
      many of the oldest as were removed. */
  ghost predicate FirstInFirstOut(ids: seq<seq<int>>, codes: seq<seq<int>>, base: Slice, done: seq<Action>) {
    && |ids| == |codes| == |base.chunks| && Removed(done) <= |Added(done)|
    && (forall j :: 0 <= j < |Added(done)[Removed(done)..]| ==> |Added(done)[Removed(done)..][j].chunks| == |base.chunks|)
    && (forall i: nat {:trigger ids[i]} :: i < |ids| ==>
      && ids[i] == base.chunks[i].ids + Ids(Added(done)[Removed(done)..], i)
      && codes[i] == base.chunks[i].codes + Codes(Added(done)[Removed(done)..], i))
  }

  /** That holds exactly as long as no slice has been removed, or if there was no old content. */
  lemma KeepsOrderIff(ids: seq<seq<int>>, codes: seq<seq<int>>, base: Slice, done: seq<Action>)
    requires HoldsRest(ids, codes, base, done)
    ensures FirstInFirstOut(ids, codes, base, done) <==> EmptyBase(base) || Removed(done) == 0
  {
    hide Added, Removed, Ids, Codes;
    var rest := Added(done)[Removed(done)..];
    forall i: nat | i < |ids| && Removed(done) != 0
      ensures ids[i] == Ids(rest, i) && codes[i] == Codes(rest, i)
    {
      assert OldPart(base, done, i) == Chunk([], []);
    }
    if FirstInFirstOut(ids, codes, base, done) && Removed(done) != 0 {
      forall i: nat | i < |base.chunks|
        ensures base.chunks[i] == Chunk([], [])
      {
        assert |ids[i]| == |base.chunks[i].ids| + |Ids(rest, i)|;
        assert |codes[i]| == |base.chunks[i].codes| + |Codes(rest, i)|;
      }
    }
    if EmptyBase(base) || Removed(done) == 0 {
      forall i: nat | i < |ids|
        ensures ids[i] == base.chunks[i].ids + Ids(rest, i) && codes[i] == base.chunks[i].codes + Codes(rest, i)
      {
        assert OldPart(base, done, i) == base.chunks[i];
      }
    }
  }

  /** The steps of a run that are not refused; a refused one changes nothing. */
  ghost function Accepted(actions: seq<Action>, nlist: nat, codeSize: nat): (done: seq<Action>)
    ensures Legal(done, nlist, codeSize)
  {
    if actions == [] then []
    else
      var done, a := Accepted(actions[..|actions| - 1], nlist, codeSize), actions[|actions| - 1];
      if Legal(done + [a], nlist, codeSize) then done + [a] else done
  }

  lemma LegalSnoc(done: seq<Action>, a: Action, nlist: nat, codeSize: nat)
    requires Legal(done, nlist, codeSize)
    ensures Removed(done) <= |Added(done)|
    ensures Legal(done + [a], nlist, codeSize) <==>
      Refused(|Added(done)| - Removed(done), a.sub, a.sub.Some? && Compatible(a.sub.value, nlist, codeSize), a.removeOldest) == None
  {
    NeverOverdrawn(done, nlist, codeSize);
    assert (done + [a])[..|done|] == done;
  }

  lemma AcceptedSnoc(actions: seq<Action>, i: nat, nlist: nat, codeSize: nat)
    requires i < |actions|
    ensures
      var done, next := Accepted(actions[..i], nlist, codeSize), Accepted(actions[..i + 1], nlist, codeSize);
      next == if Legal(done + [actions[i]], nlist, codeSize) then done + [actions[i]] else done
    ensures Legal(actions[..i + 1], nlist, codeSize) ==> Legal(actions[..i], nlist, codeSize)
    ensures actions[..i + 1] == actions[..i] + [actions[i]]
  {
    assert actions[..i + 1][..i] == actions[..i];
    hide Added, Removed, Compatible;
  }

  /** A run without refused steps is accepted as a whole. */
  lemma {:induction false} LegalIsAccepted(actions: seq<Action>, nlist: nat, codeSize: nat)
    requires Legal(actions, nlist, codeSize)
    ensures Accepted(actions, nlist, codeSize) == actions
  {
    if actions != [] {
      LegalIsAccepted(actions[..|actions| - 1], nlist, codeSize);
      assert actions == actions[..|actions| - 1] + [actions[|actions| - 1]];
    }
  }

  /** A step seen from the run: it is accepted or changes nothing. */
  lemma StepOfRun(base: Slice, actions: seq<Action>, i: nat, nlist: nat, codeSize: nat, error: Option<Error>)
    requires i < |actions| && Compatible(base, nlist, codeSize)
    requires var done, a := Accepted(actions[..i], nlist, codeSize), actions[i];
      error == Refused(|WindowOf(base, done, nlist, codeSize)|, a.sub,
                       a.sub.Some? && Compatible(a.sub.value, nlist, codeSize), a.removeOldest)
    ensures
      var done, next := Accepted(actions[..i], nlist, codeSize), Accepted(actions[..i + 1], nlist, codeSize);
      var before, window := BaseOf(base, done, nlist, codeSize), WindowOf(base, done, nlist, codeSize);
      && (error.Some? ==> next == done)
      && (error.None? ==>
        && (actions[i].sub.Some? ==> |before.chunks| == |actions[i].sub.value.chunks|)
        && (actions[i].removeOldest ==> window != [])
        && NextWindow(before, window, actions[i].sub, actions[i].removeOldest) == WindowOf(base, next, nlist, codeSize)
        && NextBase(before, actions[i].sub, nlist, codeSize) == BaseOf(base, next, nlist, codeSize))
    ensures Legal(actions[..i + 1], nlist, codeSize) <==> Legal(actions[..i], nlist, codeSize) && error.None?
  {
    var done, a := Accepted(actions[..i], nlist, codeSize), actions[i];
    AcceptedSnoc(actions, i, nlist, codeSize);
    LegalSnoc(done, a, nlist, codeSize);
    if Legal(actions[..i], nlist, codeSize) {
      LegalIsAccepted(actions[..i], nlist, codeSize);
    }
    hide Added, Removed, Accepted, Legal, NextWindow, EmptySlice, NextBase, WindowOf, BaseOf;
    if error.None? {
      WindowIsQueue(base, done, a, nlist, codeSize);
    }
  }

  predicate NoneRefused(errors: seq<Option<Error>>) {
    forall i :: 0 <= i < |errors| ==> errors[i] == None
  }

  lemma AllOfNone()
    ensures NoneRefused([])
  {
  }

  lemma NoneRefusedSnoc(errors: seq<Option<Error>>, e: Option<Error>)
    ensures NoneRefused(errors + [e]) <==> NoneRefused(errors) && e == None
  {
    var all := errors + [e];
    assert forall i :: 0 <= i < |errors| ==> all[i] == errors[i];
    assert all[|errors|] == e;
  }

  class SlidingIndexWindow {
    const nlist: nat
    const codeSize: nat
    var ids: seq<seq<int>>
    var codes: seq<seq<int>>
    var sizes: seq<seq<nat>>
    var nSlice: nat
    var ntotal: nat

    /** The lists are the base and the slices of the window, in order. There is only a base before the
        first slice comes. */
    ghost predicate Holds(base: Slice, window: seq<Slice>)
      reads this
    {
      && |ids| == |codes| == |sizes| == nlist && nSlice == |window|
      && Compatible(base, nlist, codeSize) && AllCompatible(window, nlist, codeSize)
      && (window != [] ==> EmptyBase(base))
      && (forall i {:trigger ids[i]} :: 0 <= i < nlist ==>
        GoodList(ids[i], codes[i], sizes[i], base.chunks[i], window, i))
      && ntotal == Total(ids)
    }

    /** The window of an index, with whatever the index holds; it should be empty but need not be. */
    constructor (start: Slice)
      requires Compatible(start, |start.chunks|, start.codeSize)
      ensures nlist == |start.chunks| && codeSize == start.codeSize && Holds(start, [])
      ensures forall i: nat :: i < nlist ==> ids[i] == start.chunks[i].ids && codes[i] == start.chunks[i].codes
    {
      nlist, codeSize, nSlice := |start.chunks|, start.codeSize, 0;
      ids := seq(|start.chunks|, i requires 0 <= i < |start.chunks| => start.chunks[i].ids);
      codes := seq(|start.chunks|, i requires 0 <= i < |start.chunks| => start.chunks[i].codes);
      sizes := seq(|start.chunks|, _ => []);
      ntotal := Total(seq(|start.chunks|, i requires 0 <= i < |start.chunks| => start.chunks[i].ids));
    }

    /** One step. A refused one changes nothing. */
    method Step(sub: Option<Slice>, removeOldest: bool, ghost base: Slice, ghost window: seq<Slice>)
      returns (error: Option<Error>)
      requires Holds(base, window)
      modifies this
      ensures error == Refused(|window|, sub, sub.Some? && Compatible(sub.value, nlist, codeSize), removeOldest)
      ensures error.Some? ==> Holds(base, window)
      ensures error.None? ==>
        Holds(NextBase(base, sub, nlist, codeSize), NextWindow(base, window, sub, removeOldest))
    {
      if removeOldest && nSlice == 0 {
        return Some(NoSliceToRemove);
      }
      if sub.Some? {
        var fits := CheckCompatible(sub.value);
        if !fits {
          return Some(NotCompatible);
        }
      }
      if removeOldest && sub.Some? {
        Swap(sub.value, base, window);
      } else if sub.Some? {
        Push(sub.value, base, window);
      } else if removeOldest {
        Pop(base, window);
      } else {
        return Some(NothingToDo);
      }
      return None;
    }

    lemma StartOfRun(base: Slice, actions: seq<Action>)
      requires Holds(base, [])
      ensures Compatible(base, nlist, codeSize) && Legal(actions[..0], nlist, codeSize)
      ensures var done := Accepted(actions[..0], nlist, codeSize);
        Holds(BaseOf(base, done, nlist, codeSize), WindowOf(base, done, nlist, codeSize))
    {
      hide Compatible;
    }

    /** What the lists hold after a run. */
    lemma EndOfRun(base: Slice, done: seq<Action>)
      requires Compatible(base, nlist, codeSize) && Legal(done, nlist, codeSize)
      requires Holds(BaseOf(base, done, nlist, codeSize), WindowOf(base, done, nlist, codeSize))
      ensures HoldsRest(ids, codes, base, done)
      ensures FirstInFirstOut(ids, codes, base, done) <==> EmptyBase(base) || Removed(done) == 0
      ensures Removed(done) <= |Added(done)|
      ensures base == EmptySlice(nlist, codeSize) ==> Holds(base, Added(done)[Removed(done)..])
    {
      RestHasLists(done, nlist, codeSize);
      if base == EmptySlice(nlist, codeSize) {
        WindowOfEmpty(done, nlist, codeSize);
      }
      hide Added, Removed, Legal, WindowOf, BaseOf, Ids, Codes, OldPart, Cumulative;
      forall i: nat | i < nlist
        ensures ids[i] == OldPart(base, done, i).ids + Ids(Added(done)[Removed(done)..], i)
        ensures codes[i] == OldPart(base, done, i).codes + Codes(Added(done)[Removed(done)..], i)
      {
        ContentOf(base, done, nlist, codeSize, i);
      }
      KeepsOrderIff(ids, codes, base, done);
    }

    /** A whole run, with whatever steps, on an index that held base: the lists hold the slices added by the
        steps that were not refused, without as many of the oldest as those removed, and before them what
        the index held, until the first slice goes. */
    method Run(actions: seq<Action>, ghost base: Slice) returns (errors: seq<Option<Error>>)
      requires Holds(base, [])
      modifies this
      ensures |errors| == |actions|
      ensures NoneRefused(errors) <==> Legal(actions, nlist, codeSize)
      ensures Legal(actions, nlist, codeSize) ==> Accepted(actions, nlist, codeSize) == actions
      ensures var done := Accepted(actions, nlist, codeSize);
        && HoldsRest(ids, codes, base, done)
        && (FirstInFirstOut(ids, codes, base, done) <==> EmptyBase(base) || Removed(done) == 0)
        && Removed(done) <= |Added(done)|
        && (base == EmptySlice(nlist, codeSize) ==> Holds(base, Added(done)[Removed(done)..]))
    {
      hide *;
      errors := [];
      StartOfRun(base, actions);
      AllOfNone();
      for i := 0 to |actions|
        invariant |errors| == i && Compatible(base, nlist, codeSize)
        invariant NoneRefused(errors) <==> Legal(actions[..i], nlist, codeSize)
        invariant var done := Accepted(actions[..i], nlist, codeSize);
          Holds(BaseOf(base, done, nlist, codeSize), WindowOf(base, done, nlist, codeSize))
      {
        ghost var done := Accepted(actions[..i], nlist, codeSize);
        var error := Step(actions[i].sub, actions[i].removeOldest, BaseOf(base, done, nlist, codeSize),
                          WindowOf(base, done, nlist, codeSize));
        StepOfRun(base, actions, i, nlist, codeSize, error);
        NoneRefusedSnoc(errors, error);
        errors := errors + [error];
      }
      assert actions[..|actions|] == actions;
      if Legal(actions, nlist, codeSize) {
        LegalIsAccepted(actions, nlist, codeSize);
      }
      EndOfRun(base, Accepted(actions, nlist, codeSize));
    }

    method CheckCompatible(s: Slice) returns (ok: bool)
      ensures ok <==> Compatible(s, nlist, codeSize)
    {
      ok := |s.chunks| == nlist && s.codeSize == codeSize &&
        forall i :: 0 <= i < |s.chunks| ==> |s.chunks[i].codes| == |s.chunks[i].ids| * s.codeSize;
      assert ok ==> forall i :: 0 <= i < nlist ==> IsChunk(s.chunks[i], codeSize);
      if !ok && |s.chunks| == nlist && s.codeSize == codeSize {
        var i :| 0 <= i < |s.chunks| && |s.chunks[i].codes| != |s.chunks[i].ids| * s.codeSize;
        assert !IsChunk(s.chunks[i], codeSize);
      }
    }

    /** Lists up to i have made the step, the others have not. */
    ghost predicate HalfWay(base: Slice, window: seq<Slice>, nextBase: Slice, next: seq<Slice>, i: nat)
      reads this
    {
      && |ids| == |codes| == |sizes| == nlist && i <= nlist && ntotal == Total(ids)
      && Compatible(base, nlist, codeSize) && AllCompatible(window, nlist, codeSize)
      && Compatible(nextBase, nlist, codeSize) && AllCompatible(next, nlist, codeSize)
      && (forall m {:trigger ids[m]} :: 0 <= m < i ==>
        GoodList(ids[m], codes[m], sizes[m], nextBase.chunks[m], next, m))
      && (forall m {:trigger ids[m]} :: i <= m < nlist ==>
        GoodList(ids[m], codes[m], sizes[m], base.chunks[m], window, m))
    }

    lemma EmptyIsCompatible()
      ensures Compatible(EmptySlice(nlist, codeSize), nlist, codeSize) && EmptyBase(EmptySlice(nlist, codeSize))
    {
    }

    method Push(s: Slice, ghost base: Slice, ghost window: seq<Slice>)
      requires Holds(base, window) && Compatible(s, nlist, codeSize)
      modifies this
      ensures Holds(EmptySlice(nlist, codeSize), NextWindow(base, window, Some(s), false))
    {
      ghost var next := NextWindow(base, window, Some(s), false);
      GlueIsCompatible(base, s, nlist, codeSize);
      EmptyIsCompatible();
      for i := 0 to nlist
        invariant HalfWay(base, window, EmptySlice(nlist, codeSize), next, i) && nSlice == |window|
      {
        PushList(s, base, window, i);
      }
      nSlice := nSlice + 1;
    }

    method PushList(s: Slice, ghost base: Slice, ghost window: seq<Slice>, i: nat)
      requires i < nlist && Compatible(s, nlist, codeSize) && (window != [] ==> EmptyBase(base))
      requires |base.chunks| == |s.chunks|
      requires HalfWay(base, window, EmptySlice(nlist, codeSize), NextWindow(base, window, Some(s), false), i)
      modifies this`ids, this`codes, this`sizes, this`ntotal
      ensures HalfWay(base, window, EmptySlice(nlist, codeSize), NextWindow(base, window, Some(s), false), i + 1)
    {
      hide GoodList, Glue, Cumulative, Ids, Codes, Total, Through;
      assert GoodList(ids[i], codes[i], sizes[i], base.chunks[i], window, i);
      AddedList(ids[i], codes[i], sizes[i], base, window, s, nlist, codeSize, i);
      ntotal := ntotal + |s.chunks[i].ids|;
      var listIds := ShiftAndAdd(ids[i], 0, s.chunks[i].ids);
      var listCodes := ShiftAndAdd(codes[i], 0, s.chunks[i].codes);
      TotalUpdate(ids, i, listIds);
      ids, codes := ids[i := listIds], codes[i := listCodes];
      sizes := sizes[i := sizes[i] + [|ids[i]|]];
    }

    method Swap(s: Slice, ghost base: Slice, ghost window: seq<Slice>)
      requires Holds(base, window) && Compatible(s, nlist, codeSize) && window != []
      modifies this
      ensures Holds(EmptySlice(nlist, codeSize), window[1..] + [s])
    {
      EmptyIsCompatible();
      for i := 0 to nlist
        invariant HalfWay(base, window, EmptySlice(nlist, codeSize), window[1..] + [s], i) && nSlice == |window|
      {
        SwapList(s, base, window, i);
      }
    }

    method SwapList(s: Slice, ghost base: Slice, ghost window: seq<Slice>, i: nat)
      requires i < nlist && Compatible(s, nlist, codeSize) && nSlice == |window| > 0 && EmptyBase(base)
      requires HalfWay(base, window, EmptySlice(nlist, codeSize), window[1..] + [s], i)
      modifies this`ids, this`codes, this`sizes, this`ntotal
      ensures HalfWay(base, window, EmptySlice(nlist, codeSize), window[1..] + [s], i + 1)
    {
      hide GoodList, Cumulative, Ids, Codes, Total, Through;
      assert GoodList(ids[i], codes[i], sizes[i], base.chunks[i], window, i);
      SizesFit(ids[i], codes[i], sizes[i], base.chunks[i], window, i);
      var amount := sizes[i][0];
      var next := ShiftSizes(sizes[i], nSlice, amount, window, i);
      SwappedList(ids[i], codes[i], sizes[i], next[..nSlice - 1], base.chunks[i], window, s, nlist, codeSize, i);
      TotalHas(ids, i);
      ntotal := ntotal + |s.chunks[i].ids| - amount;
      var listIds := ShiftAndAdd(ids[i], amount, s.chunks[i].ids);
      var listCodes := ShiftAndAdd(codes[i], amount * codeSize, s.chunks[i].codes);
      TotalUpdate(ids, i, listIds);
      ids, codes := ids[i := listIds], codes[i := listCodes];
      next := next[nSlice - 1 := |ids[i]|];
      assert next == next[..nSlice - 1] + [|ids[i]|];
      sizes := sizes[i := next];
    }

    method Pop(ghost base: Slice, ghost window: seq<Slice>)
      requires Holds(base, window) && window != []
      modifies this
      ensures Holds(base, window[1..])
    {
      for i := 0 to nlist
        invariant HalfWay(base, window, base, window[1..], i) && nSlice == |window|
      {
        PopList(base, window, i);
      }
      nSlice := nSlice - 1;
    }

    method PopList(ghost base: Slice, ghost window: seq<Slice>, i: nat)
      requires i < nlist && nSlice == |window| > 0 && EmptyBase(base)
      requires HalfWay(base, window, base, window[1..], i)
      modifies this`ids, this`codes, this`sizes, this`ntotal
      ensures HalfWay(base, window, base, window[1..], i + 1)
    {
      hide GoodList, Cumulative, Ids, Codes, Total, Through;
      assert GoodList(ids[i], codes[i], sizes[i], base.chunks[i], window, i);
      SizesFit(ids[i], codes[i], sizes[i], base.chunks[i], window, i);
      var amount := sizes[i][0];
      var next := ShiftSizes(sizes[i], nSlice, amount, window, i);
      RemovedList(ids[i], codes[i], sizes[i], next[..nSlice - 1], base.chunks[i], window, nlist, codeSize, i);
      TotalHas(ids, i);
      ntotal := ntotal - amount;
      var listIds := RemoveFromBegin(ids[i], amount);
      var listCodes := RemoveFromBegin(codes[i], amount * codeSize);
      TotalUpdate(ids, i, listIds);
      ids, codes := ids[i := listIds], codes[i := listCodes];
      sizes := sizes[i := next[..nSlice - 1]];
    }
  }
}
