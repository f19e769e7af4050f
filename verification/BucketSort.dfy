/**
 In-place bucket sort of a matrix of bucket numbers: the flat array ends up holding row numbers,
 grouped by bucket (faiss/utils/sorting.cpp, bucket_sort_inplace_ref). The permutation is followed
 cycle by cycle with one hole, without a second buffer.
 */
module BucketSort {

  /** How many of the first n values are b. */
  function CountOf(vals: seq<int>, n: nat, b: int): (c: nat)
    requires n <= |vals|
    ensures c <= n
  {
    if n == 0 then 0 else CountOf(vals, n - 1, b) + (if vals[n - 1] == b then 1 else 0)
  }

  /** How many values are below b, counting from -1 up. */
  function CountBelow(vals: seq<int>, b: nat): nat {
    if b == 0 then CountOf(vals, |vals|, -1) else CountBelow(vals, b - 1) + CountOf(vals, |vals|, b - 1)
  }

  /** lims are the bucket limits of these values; those of -1 come before the first bucket. */
  ghost predicate Limits(lims: seq<int>, vals: seq<int>) {
    forall b :: 0 <= b < |lims| ==> lims[b] == CountBelow(vals, b)
  }

  lemma {:induction false} LimitsGrow(lims: seq<int>, vals: seq<int>, lo: nat, hi: nat)
    requires Limits(lims, vals) && lo <= hi < |lims|
    ensures lims[lo] <= lims[hi]
    decreases hi
  {
    if lo < hi {
      LimitsGrow(lims, vals, lo, hi - 1);
    }
  }

  /** All values are counted in some bucket. */
  lemma {:induction false} CountsAddUp(vals: seq<int>, n: nat, nbucket: nat)
    requires n <= |vals| && forall i :: 0 <= i < |vals| ==> -1 <= vals[i] < nbucket
    ensures CountBelow(vals[..n], nbucket) == n
  {
    if n == 0 {
      NothingBelow(vals[..0], nbucket);
    } else {
      CountsAddUp(vals, n - 1, nbucket);
      OneMoreBelow(vals[..n - 1], vals[n - 1], nbucket);
      assert vals[..n - 1] + [vals[n - 1]] == vals[..n];
    }
  }

  lemma {:induction false} NothingBelow(vals: seq<int>, b: nat)
    requires vals == []
    ensures CountBelow(vals, b) == 0
  {
    if b > 0 {
      NothingBelow(vals, b - 1);
    }
  }

  lemma {:induction false} OneMoreBelow(vals: seq<int>, v: int, b: nat)
    requires -1 <= v
    ensures CountBelow(vals + [v], b) == CountBelow(vals, b) + (if v < b then 1 else 0)
  {
    if b == 0 {
      CountOfPrefix(vals, v, |vals|, -1);
    } else {
      OneMoreBelow(vals, v, b - 1);
      CountOfPrefix(vals, v, |vals|, b - 1);
    }
  }

  lemma {:induction false} CountOfPrefix(vals: seq<int>, v: int, n: nat, b: int)
    requires n <= |vals|
    ensures CountOf(vals + [v], n, b) == CountOf(vals, n, b)
  {
    if n > 0 {
      CountOfPrefix(vals, v, n - 1, b);
    }
  }

  /** The row of a cell of the matrix. */
  function RowOf(cell: int, ncol: nat): (r: int)
    requires ncol > 0
    ensures cell >= 0 ==> r >= 0
  {
    cell / ncol
  }

  /** Cell p of the result holds the row of input cell from[p], whose bucket owns position p; `to` is the
      inverse of `from`, so every input cell that names a bucket is used once. Those of -1 stay in front. */
  ghost predicate Grouped(vals: seq<int>, input: seq<int>, lims: seq<int>, ncol: nat, from: map<int, int>, to: map<int, int>)
    requires ncol > 0
  {
    && |vals| == |input| && |lims| > 0 && 0 <= lims[0] <= |input|
    && (forall p :: 0 <= p < lims[0] ==> vals[p] == input[p] == -1)
    && (forall p :: lims[0] <= p < |input| ==> p in from && p in to)
    && (forall p :: lims[0] <= p < |input| ==>
          lims[0] <= from[p] < |input| && to[from[p]] == p && vals[p] == RowOf(from[p], ncol))
    && (forall p :: lims[0] <= p < |input| ==> lims[0] <= to[p] < |input| && from[to[p]] == p)
    && (forall p :: lims[0] <= p < |input| ==> InBucket(lims, p, input[from[p]]))
  }

  ghost predicate InBucket(lims: seq<int>, p: int, b: int) {
    0 <= b < |lims| - 1 && lims[b] <= p < lims[b + 1]
  }

  /** own[p] is the bucket that owns position p, or -1 before the first bucket. */
  ghost predicate Owners(own: seq<int>, lims: seq<int>) {
    && |lims| > 0
    && (forall p :: 0 <= p < |own| ==> if p < lims[0] then own[p] == -1 else InBucket(lims, p, own[p]))
    && (forall b, p :: 0 <= p < |own| && InBucket(lims, p, b) ==> own[p] == b)
  }

  /** Cells that have their row, with the input cell the row comes from. */
  ghost predicate Placed(vals: seq<int>, input: seq<int>, own: seq<int>, from: map<int, int>, to: map<int, int>, ncol: nat)
    requires ncol > 0 && |vals| == |own| == |input|
  {
    forall p :: p in from ==>
      && 0 <= p < |input| && 0 <= from[p] < |input| && from[p] in to && to[from[p]] == p
      && input[from[p]] == own[p] && vals[p] == RowOf(from[p], ncol)
  }

  ghost predicate Inverse(from: map<int, int>, to: map<int, int>) {
    forall c :: c in to ==> to[c] in from && from[to[c]] == c
  }

  /** A cell without a row is -1 or has not been read. The -1 may be the hole of this cycle, the hole that an
      earlier cycle left when it met a -1 of the input, or a -1 of the input. */
  ghost predicate Unread(vals: seq<int>, input: seq<int>, from: map<int, int>, to: map<int, int>, cur: int)
    requires |vals| == |input|
  {
    forall p :: 0 <= p < |input| && p !in from && vals[p] != -1 ==> vals[p] == input[p] && p !in to && p != cur
  }

  /** No row is lost: it has its place, is in hand, or its cell has not been read. */
  ghost predicate Kept(vals: seq<int>, input: seq<int>, from: map<int, int>, to: map<int, int>, cur: int)
    requires |vals| == |input|
  {
    forall c :: 0 <= c < |input| && input[c] >= 0 && c !in to && c != cur ==> c !in from && vals[c] == input[c]
  }

  /** Between two cycles (cur == -1) no row is in hand; inside one it is the row of input cell cur. */
  ghost predicate Hand(input: seq<int>, to: map<int, int>, cur: int) {
    cur == -1 || (0 <= cur < |input| && input[cur] >= 0 && cur !in to)
  }

  ghost predicate Cycling(vals: seq<int>, input: seq<int>, own: seq<int>, from: map<int, int>, to: map<int, int>,
                          ncol: nat, cur: int)
    requires ncol > 0
  {
    && |vals| == |own| == |input|
    && Placed(vals, input, own, from, to, ncol) && Inverse(from, to)
    && Unread(vals, input, from, to, cur) && Kept(vals, input, from, to, cur) && Hand(input, to, cur)
  }

  /** Reading a cell that is not -1 starts a cycle and leaves the hole. */
  lemma StartCycle(vals: seq<int>, input: seq<int>, own: seq<int>, from: map<int, int>, to: map<int, int>,
                   ncol: nat, idx: int)
    requires ncol > 0 && Cycling(vals, input, own, from, to, ncol, -1)
    requires 0 <= idx < |input| && idx !in from && vals[idx] != -1 && -1 <= input[idx]
    ensures vals[idx] == input[idx]
    ensures Cycling(vals[idx := -1], input, own, from, to, ncol, idx)
  {
  }

  /** The row in hand goes to a free cell of its bucket. The cell there is taken in hand; a -1 closes the
      cycle, be it the hole or not. */
  lemma PlaceRow(vals: seq<int>, input: seq<int>, own: seq<int>, from: map<int, int>, to: map<int, int>,
                 ncol: nat, cur: int, idx: int)
    requires ncol > 0 && Cycling(vals, input, own, from, to, ncol, cur)
    requires 0 <= cur && 0 <= idx < |input| && idx !in from && own[idx] == input[cur] && -1 <= input[idx]
    ensures vals[idx] != -1 ==> vals[idx] == input[idx]
    ensures Cycling(vals[idx := RowOf(cur, ncol)], input, own, from[idx := cur], to[cur := idx],
              ncol, if vals[idx] == -1 then -1 else idx)
  {
  }

  /** The write pointers: the cells of a bucket below its pointer are placed, the others are not. */
  ghost predicate Pointers(ptrs: seq<int>, lims: seq<int>, own: seq<int>, from: map<int, int>) {
    && |ptrs| == |lims| - 1 && Owners(own, lims)
    && (forall b {:trigger ptrs[b]} :: 0 <= b < |ptrs| ==> lims[b] <= ptrs[b] <= lims[b + 1])
    && (forall p :: 0 <= p < |own| ==> (p in from <==> lims[0] <= p && p < ptrs[own[p]]))
  }

  lemma AdvancePointer(ptrs: seq<int>, lims: seq<int>, own: seq<int>, from: map<int, int>, b: int, c: int)
    requires Pointers(ptrs, lims, own, from)
    requires 0 <= b < |ptrs| && 0 <= lims[0] <= ptrs[b] < lims[b + 1] && ptrs[b] < |own|
    ensures own[ptrs[b]] == b && ptrs[b] !in from
    ensures Pointers(ptrs[b := ptrs[b] + 1], lims, own, from[ptrs[b] := c])
  {
    assert InBucket(lims, ptrs[b], b);
  }

  ghost function CellsOf(input: seq<int>, n: nat, b: int): set<int>
    requires n <= |input|
  {
    set c | 0 <= c < n && input[c] == b
  }

  lemma {:induction false} CellsOfSize(input: seq<int>, n: nat, b: int)
    requires n <= |input|
    ensures |CellsOf(input, n, b)| == CountOf(input, n, b)
  {
    if n > 0 {
      CellsOfSize(input, n - 1, b);
      var rest := CellsOf(input, n - 1, b);
      assert CellsOf(input, n, b) == if input[n - 1] == b then rest + {n - 1} else rest;
    }
  }

  ghost function Image(from: map<int, int>, lo: int, hi: int): set<int>
    requires forall p :: lo <= p < hi ==> p in from
  {
    set p | lo <= p < hi :: from[p]
  }

  lemma {:induction false} ImageSize(from: map<int, int>, to: map<int, int>, lo: int, hi: int)
    requires lo <= hi
    requires forall p :: lo <= p < hi ==> p in from && from[p] in to && to[from[p]] == p
    ensures |Image(from, lo, hi)| == hi - lo
    decreases hi - lo
  {
    if lo < hi {
      ImageSize(from, to, lo, hi - 1);
      assert Image(from, lo, hi) == Image(from, lo, hi - 1) + {from[hi - 1]};
      assert from[hi - 1] !in Image(from, lo, hi - 1);
    }
  }

  lemma {:induction false} SubsetSize(a: set<int>, b: set<int>)
    requires a <= b
    ensures |a| <= |b|
  {
    assert b == a + (b - a);
  }

  lemma SomeMember(a: set<int>) returns (x: int)
    requires a != {}
    ensures x in a
  {
    assert (forall y :: y !in a) ==> a == {};
    x :| x in a;
  }

  /** A set whose members have different images in another one is not larger. */
  lemma {:induction false} InjectionSize(a: set<int>, b: set<int>, f: map<int, int>, g: map<int, int>)
    requires forall x :: x in a ==> x in f && f[x] in b && f[x] in g && g[f[x]] == x
    ensures |a| <= |b|
  {
    if a != {} {
      var x := SomeMember(a);
      forall y | y in a - {x}
        ensures f[y] in b - {f[x]}
      {
        assert g[f[y]] == y && g[f[x]] == x;
      }
      InjectionSize(a - {x}, b - {f[x]}, f, g);
    }
  }

  lemma PlacedInBucket(vals: seq<int>, input: seq<int>, ptrs: seq<int>, lims: seq<int>, own: seq<int>,
                       from: map<int, int>, to: map<int, int>, ncol: nat, cur: int, b: nat)
    requires ncol > 0 && Cycling(vals, input, own, from, to, ncol, cur) && cur >= 0
    requires Pointers(ptrs, lims, own, from) && b < |ptrs|
    requires 0 <= lims[0] <= lims[b] && lims[b + 1] <= |input|
    ensures lims[b] <= ptrs[b] <= lims[b + 1]
    ensures forall p :: lims[b] <= p < ptrs[b] ==>
      p in from && from[p] in to && to[from[p]] == p && from[p] in CellsOf(input, |input|, b) - {cur}
  {
    forall p | lims[b] <= p < ptrs[b]
      ensures p in from && from[p] in to && to[from[p]] == p && from[p] in CellsOf(input, |input|, b) - {cur}
    {
      assert InBucket(lims, p, b);
    }
  }

  /** The bucket of the row in hand has a free cell: its rows placed so far are fewer than its cells. */
  lemma RoomForRow(vals: seq<int>, input: seq<int>, ptrs: seq<int>, lims: seq<int>, own: seq<int>,
                   from: map<int, int>, to: map<int, int>, ncol: nat, cur: int)
    requires ncol > 0 && Cycling(vals, input, own, from, to, ncol, cur) && 0 <= cur < |input|
    requires Pointers(ptrs, lims, own, from) && Limits(lims, input) && |ptrs| == |lims| - 1
    requires forall i :: 0 <= i < |input| ==> -1 <= input[i] < |ptrs|
    ensures input[cur] >= 0 && ptrs[input[cur]] < lims[input[cur] + 1]
  {
    hide Placed, Inverse, Unread, Kept, Pointers;
    var b, n := input[cur], |input|;
    LimitsBounds(lims, input, b);
    LimitsBounds(lims, input, b + 1);
    LimitsBounds(lims, input, 0);
    LimitsGrow(lims, input, 0, b);
    assert lims[b + 1] == lims[b] + CountOf(input, n, b);
    hide Limits, CountOf, Cycling;
    PlacedInBucket(vals, input, ptrs, lims, own, from, to, ncol, cur, b);
    ImageSize(from, to, lims[b], ptrs[b]);
    CellsOfSize(input, n, b);
    assert cur in CellsOf(input, n, b);
    SubsetSize(Image(from, lims[b], ptrs[b]), CellsOf(input, n, b) - {cur});
  }

  lemma LimitsBounds(lims: seq<int>, vals: seq<int>, b: nat)
    requires Limits(lims, vals) && b < |lims|
    requires forall i :: 0 <= i < |vals| ==> -1 <= vals[i] < |lims| - 1
    ensures 0 <= lims[b] <= |vals|
  {
    CountsAddUp(vals, |vals|, |lims| - 1);
    assert vals[..|vals|] == vals;
    LimitsGrow(lims, vals, b, |lims| - 1);
  }

  /** The owner of every position. */
  lemma OwnersExist(lims: seq<int>, input: seq<int>) returns (own: seq<int>)
    requires Limits(lims, input) && |lims| > 0
    requires forall i :: 0 <= i < |input| ==> -1 <= input[i] < |lims| - 1
    ensures |own| == |input| && Owners(own, lims)
  {
    own := [];
    CountsAddUp(input, |input|, |lims| - 1);
    assert input[..|input|] == input;
    while |own| < |input|
      invariant |own| <= |input| && Owners(own, lims)
    {
      var p := |own|;
      if p < lims[0] {
        forall c | InBucket(lims, p, c)
          ensures false
        {
          LimitsGrow(lims, input, 0, c);
        }
        own := own + [-1];
      } else {
        var b := OwnerAt(lims, input, p);
        own := own + [b];
      }
    }
  }

  lemma OwnerAt(lims: seq<int>, input: seq<int>, p: nat) returns (b: nat)
    requires Limits(lims, input) && |lims| > 0 && lims[0] <= p < lims[|lims| - 1]
    ensures InBucket(lims, p, b) && forall c :: InBucket(lims, p, c) ==> c == b
  {
    b := 0;
    while lims[b + 1] <= p
      invariant b < |lims| - 1 && lims[b] <= p
      decreases |lims| - b
    {
      b := b + 1;
    }
    forall c | InBucket(lims, p, c)
      ensures c == b
    {
      SameBucket(lims, input, p, b, c);
    }
  }

  lemma KeysBound(from: map<int, int>, n: nat)
    requires forall p :: p in from ==> 0 <= p < n
    ensures |from| <= n
  {
    SubsetSize(from.Keys, Between(0, n));
  }

  /** How a sort ends: with sorted rows, with a failed check, outside one of its arrays, or never. */
  datatype Outcome = Sorted | Refused | Overrun | Endless

  /** The values are looked at in turn: one without a bucket is refused, one below -1 is counted before the
      start of the limits. Those of -1 are counted in the first limit. */
  predicate TooLarge(vals: seq<int>, i: int, nbucket: nat) {
    0 <= i < |vals| && vals[i] >= nbucket && forall j :: 0 <= j < i ==> vals[j] >= -1
  }

  function Screened(vals: seq<int>, nbucket: nat): (outcome: Outcome)
    ensures outcome != Endless
  {
    if exists i :: 0 <= i < |vals| && TooLarge(vals, i, nbucket) then Refused
    else if exists i :: 0 <= i < |vals| && vals[i] < -1 then Overrun
    else Sorted
  }

  lemma ScreenedAt(vals: seq<int>, i: nat, nbucket: nat)
    requires i < |vals| && forall j :: 0 <= j < i ==> -1 <= vals[j] < nbucket
    ensures vals[i] >= nbucket ==> Screened(vals, nbucket) == Refused
    ensures vals[i] < -1 ==> Screened(vals, nbucket) == Overrun
  {
    assert vals[i] >= nbucket ==> TooLarge(vals, i, nbucket);
  }

  lemma IsScreened(vals: seq<int>, nbucket: nat)
    ensures Screened(vals, nbucket) == Sorted <==> forall i :: 0 <= i < |vals| ==> -1 <= vals[i] < nbucket
  {
    if Screened(vals, nbucket) == Sorted {
      forall i | 0 <= i < |vals|
        ensures -1 <= vals[i] < nbucket
      {
        assert !TooLarge(vals, i, nbucket);
      }
    }
  }

  /** The histogram, one place up, in the buffer of the limits. */
  method Histogram(vals: array<int>, nbucket: nat, lims: array<int>) returns (outcome: Outcome)
    requires vals != lims && nbucket < lims.Length
    modifies lims
    ensures outcome == Screened(vals[..], nbucket)
    ensures outcome == Sorted <==> forall i :: 0 <= i < vals.Length ==> -1 <= vals[i] < nbucket
    ensures outcome == Sorted ==> forall b :: 0 <= b <= nbucket ==> lims[b] == CountOf(vals[..], vals.Length, b - 1)
  {
    forall b | 0 <= b < nbucket + 1 {
      lims[b] := 0;
    }
    for i := 0 to vals.Length
      invariant forall k :: 0 <= k < i ==> -1 <= vals[k] < nbucket
      invariant forall b :: 0 <= b <= nbucket ==> lims[b] == CountOf(vals[..], i, b - 1)
    {
      ScreenedAt(vals[..], i, nbucket);
      if vals[i] >= nbucket {
        return Refused;
      }
      if vals[i] < -1 {
        return Overrun;
      }
      lims[vals[i] + 1] := lims[vals[i] + 1] + 1;
    }
    outcome := Sorted;
  }

  lemma BelowStep(vals: seq<int>)
    ensures CountBelow(vals, 0) == CountOf(vals, |vals|, -1)
    ensures forall b: nat :: CountBelow(vals, b + 1) == CountBelow(vals, b) + CountOf(vals, |vals|, b)
  {
  }

  /** The limits of the buckets, in their buffer. */
  method ComputeLimits(vals: array<int>, nbucket: nat, lims: array<int>) returns (outcome: Outcome)
    requires vals != lims && nbucket < lims.Length
    modifies lims
    ensures outcome == Screened(vals[..], nbucket)
    ensures outcome == Sorted ==> forall i :: 0 <= i < vals.Length ==> -1 <= vals[i] < nbucket
    ensures outcome == Sorted ==> Limits(lims[..nbucket + 1], vals[..])
  {
    hide CountBelow, CountOf, Screened;
    outcome := Histogram(vals, nbucket, lims);
    if outcome == Sorted {
      BelowStep(vals[..]);
      ghost var counts := lims[..];
      for i := 0 to nbucket
        invariant forall b :: 0 <= b <= i ==> lims[b] == CountBelow(vals[..], b)
        invariant forall b :: i < b <= nbucket ==> lims[b] == counts[b]
      {
        assert counts[i + 1] == CountOf(vals[..], vals.Length, i);
        lims[i + 1] := lims[i + 1] + lims[i];
      }
    }
  }

  // Those of -1.

  /** No -1 comes after a bucket number. */
  predicate BlanksLead(vals: seq<int>) {
    forall i, j :: 0 <= i < j < |vals| && vals[j] == -1 ==> vals[i] == -1
  }

  /** Cells n, ..., m - 1. */
  ghost function Between(n: nat, m: nat): (r: set<int>)
    requires n <= m
    ensures |r| == m - n && forall p :: p in r <==> n <= p < m
    decreases m
  {
    if m == n then {} else Between(n, m - 1) + {m - 1}
  }

  lemma {:induction false} SameSize(a: set<int>, b: set<int>)
    requires a <= b && |b| <= |a|
    ensures a == b
  {
    assert b == a + (b - a);
  }

  /** m values of -1: they lead exactly when none is behind the first m cells. */
  lemma BlanksLeadIff(input: seq<int>, m: nat)
    requires m == CountOf(input, |input|, -1) && forall i :: 0 <= i < |input| ==> -1 <= input[i]
    ensures BlanksLead(input) <==> forall p :: m <= p < |input| ==> input[p] != -1
    ensures BlanksLead(input) ==> forall p :: 0 <= p < m ==> input[p] == -1
  {
    var blanks := CellsOf(input, |input|, -1);
    CellsOfSize(input, |input|, -1);
    hide CountOf;
    if BlanksLead(input) {
      forall p | m <= p < |input|
        ensures input[p] != -1
      {
        if input[p] == -1 {
          SubsetSize(Between(0, p + 1), blanks);
        }
      }
    }
    if forall p :: m <= p < |input| ==> input[p] != -1 {
      assert blanks <= Between(0, m);
      SameSize(blanks, Between(0, m));
      forall p | 0 <= p < m
        ensures input[p] == -1
      {
        assert p in blanks;
      }
    }
  }

  /** If not, a bucket number stands among the first m cells. */
  lemma SomeValueInFront(input: seq<int>, m: nat) returns (c: nat)
    requires m == CountOf(input, |input|, -1) && forall i :: 0 <= i < |input| ==> -1 <= input[i]
    requires !BlanksLead(input)
    ensures c < m && c < |input| && input[c] >= 0
  {
    BlanksLeadIff(input, m);
    var blanks := CellsOf(input, |input|, -1);
    CellsOfSize(input, |input|, -1);
    hide CountOf, BlanksLead;
    var p :| m <= p < |input| && input[p] == -1;
    if forall i :: 0 <= i < m ==> input[i] == -1 {
      SubsetSize(Between(0, m), blanks - {p});
      assert false;
    }
    c :| 0 <= c < m && input[c] != -1;
  }

  /** The whole state of the sort: the cells, the write pointers, who has which place, the row in hand. */
  datatype State = State(cells: seq<int>, ptrs: seq<int>, from: map<int, int>, to: map<int, int>, cur: int)

  /** What does not change: the input, the limits, the owners of the positions, the row length. */
  datatype Problem = Problem(input: seq<int>, lims: seq<int>, own: seq<int>, ncol: nat)

  ghost predicate Posed(x: Problem) {
    && x.ncol > 0 && |x.lims| >= 2 && |x.own| == |x.input| > 0
    && (forall i :: 0 <= i < |x.input| ==> -1 <= x.input[i] < |x.lims| - 1)
    && Limits(x.lims, x.input) && Owners(x.own, x.lims)
  }

  /** The cells in front of the first bucket are never touched. */
  ghost predicate FrontKept(cells: seq<int>, input: seq<int>, lims: seq<int>) {
    |lims| > 0 && |cells| == |input| && forall p :: 0 <= p < lims[0] && p < |input| ==> cells[p] == input[p]
  }

  ghost predicate Sorting(x: Problem, s: State) {
    && Posed(x)
    && Cycling(s.cells, x.input, x.own, s.from, s.to, x.ncol, s.cur)
    && Pointers(s.ptrs, x.lims, x.own, s.from) && FrontKept(s.cells, x.input, x.lims)
  }

  function StartAt(s: State, idx: nat): State
    requires idx < |s.cells|
  {
    s.(cells := s.cells[idx := -1], cur := idx)
  }

  lemma Start(x: Problem, s: State, idx: nat)
    requires Sorting(x, s) && s.cur == -1 && idx < |s.cells| == |x.input| && x.lims[0] <= idx && idx !in s.from
    requires s.cells[idx] != -1
    ensures s.cells[idx] == x.input[idx] && 0 <= x.input[idx] < |x.lims| - 1
    ensures Sorting(x, StartAt(s, idx))
  {
    hide Limits, Owners, Pointers;
    StartCycle(s.cells, x.input, x.own, s.from, s.to, x.ncol, idx);
    hide Cycling;
  }

  function PlaceAt(s: State, b: nat, ncol: nat): State
    requires ncol > 0 && b < |s.ptrs| && 0 <= s.ptrs[b] < |s.cells|
  {
    var idx := s.ptrs[b];
    State(s.cells[idx := RowOf(s.cur, ncol)], s.ptrs[b := idx + 1], s.from[idx := s.cur], s.to[s.cur := idx],
          if s.cells[idx] == -1 then -1 else idx)
  }

  lemma Shape(x: Problem, s: State)
    requires Sorting(x, s)
    ensures x.ncol > 0 && |x.own| == |x.input| == |s.cells| && |s.ptrs| == |x.lims| - 1 && |x.lims| >= 2
    ensures forall p :: p in s.from ==> 0 <= p < |x.input|
    ensures s.cur == -1 || (0 <= s.cur < |x.input| && 0 <= x.input[s.cur] < |s.ptrs|)
    ensures Limits(x.lims, x.input) && Pointers(s.ptrs, x.lims, x.own, s.from) && Owners(x.own, x.lims)
    ensures forall i :: 0 <= i < |x.input| ==> -1 <= x.input[i] < |x.lims| - 1
  {
    hide Limits, Owners;
  }

  lemma PointerAt(ptrs: seq<int>, lims: seq<int>, own: seq<int>, from: map<int, int>, b: nat)
    requires Pointers(ptrs, lims, own, from) && b < |ptrs|
    ensures b + 1 < |lims| && lims[b] <= ptrs[b] <= lims[b + 1]
  {
  }

  lemma Facts(x: Problem, s: State)
    requires Sorting(x, s)
    ensures |s.cells| == |x.input| && |s.ptrs| == |x.lims| - 1 && |s.from| <= |x.input| && |x.lims| >= 2
    ensures s.cur == -1 || (0 <= s.cur < |x.input| && 0 <= x.input[s.cur] < |s.ptrs|)
    ensures forall b :: 0 <= b < |s.ptrs| ==> 0 <= x.lims[0] <= s.ptrs[b] <= x.lims[b + 1] <= |x.input|
    ensures forall b :: 0 <= b < |s.ptrs| && s.ptrs[b] < x.lims[b + 1] ==> s.ptrs[b] !in s.from
  {
    hide *;
    Shape(x, s);
    KeysBound(s.from, |x.input|);
    LimitsBounds(x.lims, x.input, 0);
    forall b | 0 <= b < |s.ptrs|
      ensures x.lims[0] <= s.ptrs[b] <= x.lims[b + 1] <= |x.input|
      ensures s.ptrs[b] < x.lims[b + 1] ==> s.ptrs[b] !in s.from
    {
      PointerAt(s.ptrs, x.lims, x.own, s.from, b);
      LimitsGrow(x.lims, x.input, 0, b);
      LimitsBounds(x.lims, x.input, b + 1);
      if s.ptrs[b] < x.lims[b + 1] {
        AdvancePointer(s.ptrs, x.lims, x.own, s.from, b, 0);
      }
    }
  }

  lemma PlaceFits(x: Problem, s: State, b: nat)
    requires Sorting(x, s) && 0 <= s.cur < |x.input| && b == x.input[s.cur]
    ensures b < |s.ptrs| && 0 <= x.lims[0] <= s.ptrs[b] < |s.cells| && s.ptrs[b] < x.lims[b + 1]
    ensures -1 <= x.input[s.ptrs[b]] < |x.lims| - 1
  {
    Facts(x, s);
    hide Cycling, Pointers, Limits, Owners, FrontKept;
    RoomForRow(s.cells, x.input, s.ptrs, x.lims, x.own, s.from, s.to, x.ncol, s.cur);
  }

  lemma Place(x: Problem, s: State, b: nat)
    requires Sorting(x, s) && 0 <= s.cur < |x.input| && b == x.input[s.cur]
    requires b < |s.ptrs| && 0 <= x.lims[0] <= s.ptrs[b] < |s.cells| == |x.input| && s.ptrs[b] < x.lims[b + 1]
    requires -1 <= x.input[s.ptrs[b]]
    ensures s.cells[s.ptrs[b]] != -1 ==> s.cells[s.ptrs[b]] == x.input[s.ptrs[b]]
    ensures Sorting(x, PlaceAt(s, b, x.ncol))
    ensures |PlaceAt(s, b, x.ncol).from| == |s.from| + 1
  {
    hide RowOf, Cycling, Pointers, Limits, Owners;
    AdvancePointer(s.ptrs, x.lims, x.own, s.from, b, s.cur);
    PlaceRow(s.cells, x.input, x.own, s.from, s.to, x.ncol, s.cur, s.ptrs[b]);
    MapGrows(s.from, s.ptrs[b], s.cur);
  }

  lemma MapGrows(m: map<int, int>, k: int, v: int)
    requires k !in m
    ensures |m[k := v]| == |m| + 1
  {
    assert m[k := v].Keys == m.Keys + {k};
  }

  function Init(x: Problem): State
    requires |x.lims| > 0
  {
    State(x.input, x.lims[..|x.lims| - 1], map[], map[], -1)
  }

  lemma InitSorting(x: Problem)
    requires Posed(x)
    ensures Sorting(x, Init(x))
  {
    var ptrs := Init(x).ptrs;
    forall b | 0 <= b < |ptrs|
      ensures x.lims[b] <= ptrs[b] <= x.lims[b + 1]
    {
      LimitsGrow(x.lims, x.input, b, b + 1);
    }
    assert forall p :: 0 <= p < |x.own| && x.lims[0] <= p ==> InBucket(x.lims, p, x.own[p]);
  }

  /** The first `init` buckets have all their rows. */
  ghost predicate Full(ptrs: seq<int>, lims: seq<int>, init: int) {
    0 <= init <= |ptrs| == |lims| - 1 && forall b :: 0 <= b < init ==> ptrs[b] >= lims[b + 1]
  }

  lemma FullStays(ptrs: seq<int>, lims: seq<int>, init: int, b: int)
    requires Full(ptrs, lims, init) && 0 <= b < |ptrs|
    ensures Full(ptrs[b := ptrs[b] + 1], lims, init)
  {
  }

  lemma OwnerOf(own: seq<int>, lims: seq<int>, p: int)
    requires Owners(own, lims) && 0 <= p < |own|
    ensures |lims| > 0 && if p < lims[0] then own[p] == -1 else InBucket(lims, p, own[p])
  {
  }

  lemma CellPlaced(ptrs: seq<int>, lims: seq<int>, own: seq<int>, from: map<int, int>, p: int)
    requires Pointers(ptrs, lims, own, from) && Full(ptrs, lims, |lims| - 1) && 0 <= p < |own|
    ensures |lims| > 0 && (p in from <==> p >= lims[0])
  {
    OwnerOf(own, lims, p);
    hide Owners;
  }

  /** Rows with a place are as many as places with a row. */
  lemma MapsAgree(vals: seq<int>, input: seq<int>, own: seq<int>, from: map<int, int>, to: map<int, int>, ncol: nat, cur: int)
    requires ncol > 0 && Cycling(vals, input, own, from, to, ncol, cur)
    ensures |from.Keys| == |to.Keys|
    ensures forall p :: p in from ==> 0 <= p < |input| && 0 <= from[p] < |input| && from[p] in to && to[from[p]] == p
    ensures forall p :: p in from ==> vals[p] == RowOf(from[p], ncol) && p < |own| && input[from[p]] == own[p]
    ensures forall c :: c in to ==> to[c] in from && from[to[c]] == c
  {
    hide RowOf, Unread, Kept, Hand;
    InjectionSize(from.Keys, to.Keys, from, to);
    InjectionSize(to.Keys, from.Keys, to, from);
  }

  /** Between two cycles the input cells whose rows have no place are cells without a row, and hold their value. */
  lemma WithoutPlace(vals: seq<int>, input: seq<int>, own: seq<int>, from: map<int, int>, to: map<int, int>, ncol: nat)
    requires ncol > 0 && Cycling(vals, input, own, from, to, ncol, -1)
    ensures forall c :: 0 <= c < |input| && input[c] >= 0 && c !in to ==> c !in from && vals[c] == input[c]
    ensures forall p :: 0 <= p < |input| && p !in from && vals[p] != -1 ==> p !in to
  {
    hide RowOf, Placed, Inverse, Hand;
  }

  /** Two sets of cells behind the first m that are equally large and whose rests are nested are the same. */
  lemma SameRest(a: set<int>, b: set<int>, m: nat, n: nat)
    requires m <= n && |a| == |b|
    requires forall p :: p in a || p in b ==> m <= p < n
    requires forall p :: m <= p < n && p !in b ==> p !in a
    ensures a == b
  {
    forall p | p in a
      ensures p in b
    {
      assert m <= p < n;
    }
    SameSize(a, b);
  }

  /** Everything the sort knows about places, and who has none. */
  lemma Places(x: Problem, s: State)
    requires Sorting(x, s) && s.cur == -1
    ensures |s.from.Keys| == |s.to.Keys| && |x.input| == |s.cells| && |x.lims| > 0
    ensures 0 <= x.lims[0] == CountOf(x.input, |x.input|, -1) <= |x.input|
    ensures forall i :: 0 <= i < |x.input| ==> -1 <= x.input[i]
    ensures forall p :: p in s.from ==> x.lims[0] <= p < |x.input| && 0 <= s.from[p] < |x.input| && x.input[s.from[p]] >= 0
    ensures forall p :: p in s.from ==> s.from[p] in s.to && s.to[s.from[p]] == p
    ensures forall c :: c in s.to ==> s.to[c] in s.from && s.from[s.to[c]] == c && 0 <= c < |x.input| && x.input[c] >= 0
    ensures forall c :: 0 <= c < |x.input| && x.input[c] >= 0 && c !in s.to ==> c !in s.from && s.cells[c] == x.input[c]
  {
    hide *;
    Shape(x, s);
    FrontIsCount(x.lims, x.input);
    LimitsBounds(x.lims, x.input, 0);
    FromBehind(x, s);
    Opened(x, s);
    MapsAgree(s.cells, x.input, x.own, s.from, s.to, x.ncol, -1);
    WithoutPlace(s.cells, x.input, x.own, s.from, s.to, x.ncol);
  }

  /** When those of -1 lead, the cells in the buckets without a row are the input cells without a place. */
  lemma SamePlaces(x: Problem, s: State)
    requires Sorting(x, s) && s.cur == -1 && BlanksLead(x.input)
    ensures |x.lims| > 0 && |s.cells| == |x.input| && s.from.Keys == s.to.Keys
    ensures forall p :: 0 <= p < |x.input| ==> (x.lims[0] <= p <==> x.input[p] >= 0)
  {
    hide *;
    Places(x, s);
    NumbersBehind(x.input, x.lims[0]);
    SameKeys(s.from.Keys, s.to.Keys, x.input, x.lims[0]);
  }

  lemma SameKeys(full: set<int>, rows: set<int>, input: seq<int>, m: nat)
    requires |full| == |rows| && m <= |input|
    requires forall p :: p in full ==> m <= p < |input|
    requires forall c :: c in rows ==> 0 <= c < |input| && input[c] >= 0
    requires forall c :: 0 <= c < |input| && input[c] >= 0 && c !in rows ==> c !in full
    requires forall p :: 0 <= p < |input| ==> (m <= p <==> input[p] >= 0)
    ensures full == rows
  {
    SameRest(full, rows, m, |input|);
  }

  lemma NumbersBehind(input: seq<int>, m: nat)
    requires m == CountOf(input, |input|, -1) && forall i :: 0 <= i < |input| ==> -1 <= input[i]
    requires BlanksLead(input)
    ensures forall p :: 0 <= p < |input| ==> (m <= p <==> input[p] >= 0)
  {
    BlanksLeadIff(input, m);
    hide BlanksLead, CountOf;
  }

  lemma NoBlankLeft(x: Problem, s: State, idx: nat)
    requires Sorting(x, s) && s.cur == -1 && BlanksLead(x.input)
    requires |x.lims| > 0 && x.lims[0] <= idx < |s.cells| == |x.input|
    ensures idx !in s.from ==> s.cells[idx] == x.input[idx] >= 0
    ensures idx in s.from <==> idx in s.to
    ensures idx in s.to ==> x.lims[0] <= s.to[idx] < |x.input|
    ensures idx in s.from ==> x.lims[0] <= s.from[idx] < |x.input|
  {
    hide *;
    SamePlaces(x, s);
    assert idx in s.from.Keys <==> idx in s.to.Keys;
    Places(x, s);
  }

  lemma Opened(x: Problem, s: State)
    requires Sorting(x, s)
    ensures x.ncol > 0 && Cycling(s.cells, x.input, x.own, s.from, s.to, x.ncol, s.cur)
  {
  }

  lemma FrontIsCount(lims: seq<int>, input: seq<int>)
    requires Limits(lims, input) && |lims| > 0
    ensures lims[0] == CountOf(input, |input|, -1) >= 0
  {
  }

  /** Rows are placed into buckets, and come from cells that name one. */
  lemma FromBehind(x: Problem, s: State)
    requires Sorting(x, s)
    ensures |x.lims| > 0 && forall p :: p in s.from ==>
      x.lims[0] <= p < |x.input| && 0 <= s.from[p] < |x.input| && x.input[s.from[p]] >= 0
    ensures forall c :: c in s.to ==> s.to[c] in s.from && 0 <= c < |x.input| && x.input[c] >= 0
  {
    hide RowOf, Limits, Unread, Kept, Hand;
    forall p | p in s.from
      ensures x.lims[0] <= p < |x.input| && x.input[s.from[p]] >= 0
    {
      OwnerOf(x.own, x.lims, p);
    }
  }

  /** All buckets are full only when those of -1 lead: otherwise a row in front of them was never read. */
  lemma FullMeansLead(x: Problem, s: State)
    requires Sorting(x, s) && s.cur == -1 && Full(s.ptrs, x.lims, |x.lims| - 1)
    ensures BlanksLead(x.input)
  {
    hide *;
    if !BlanksLead(x.input) {
      Places(x, s);
      AllPlaced(x, s);
      var n, m := |x.input|, x.lims[0];
      var c := SomeValueInFront(x.input, m);
      FrontUnread(x, s, c);
      TooFewRows(x.input, m, s.from.Keys, s.to.Keys, c);
      assert false;
    }
  }

  lemma AllPlaced(x: Problem, s: State)
    requires Sorting(x, s) && Full(s.ptrs, x.lims, |x.lims| - 1)
    ensures |x.lims| > 0 && forall p :: x.lims[0] <= p < |x.input| && 0 <= p ==> p in s.from
  {
    hide *;
    Shape(x, s);
    forall p | x.lims[0] <= p < |x.input| && 0 <= p
      ensures p in s.from
    {
      CellPlaced(s.ptrs, x.lims, x.own, s.from, p);
    }
  }

  lemma TooFewRows(input: seq<int>, m: nat, full: set<int>, rows: set<int>, c: nat)
    requires m == CountOf(input, |input|, -1) <= |input| && c < |input| && input[c] >= 0 && c !in rows
    requires forall p :: m <= p < |input| ==> p in full
    requires forall r :: r in rows ==> 0 <= r < |input| && input[r] >= 0
    ensures |full| > |rows|
  {
    var blanks := CellsOf(input, |input|, -1);
    CellsOfSize(input, |input|, -1);
    hide CountOf;
    SubsetSize(Between(m, |input|), full);
    SubsetSize(blanks + rows, Between(0, |input|) - {c});
    assert blanks !! rows;
  }

  /** A row in front of the buckets is never read. */
  lemma FrontUnread(x: Problem, s: State, c: nat)
    requires Sorting(x, s) && c < |x.input| && |x.lims| > 0 && c < x.lims[0] && x.input[c] >= 0
    ensures c !in s.to
  {
    FromBehind(x, s);
    hide RowOf, Limits, Placed, Inverse, Kept, Hand, Owners, Pointers;
  }

  lemma Done(x: Problem, s: State)
    requires Sorting(x, s) && s.cur == -1
    requires Full(s.ptrs, x.lims, |x.lims| - 1)
    ensures x.ncol > 0 && Grouped(s.cells, x.input, x.lims, x.ncol, s.from, s.to)
    ensures BlanksLead(x.input)
  {
    hide *;
    FullMeansLead(x, s);
    Opened(x, s);
    Shape(x, s);
    FrontIsBlank(x, s);
    forall p | x.lims[0] <= p < |x.input|
      ensures p in s.from && p in s.to
      ensures x.lims[0] <= s.from[p] < |x.input| && s.from[p] in s.to && s.to[s.from[p]] == p
      ensures s.cells[p] == RowOf(s.from[p], x.ncol)
      ensures x.lims[0] <= s.to[p] < |x.input| && s.to[p] in s.from && s.from[s.to[p]] == p
      ensures InBucket(x.lims, p, x.input[s.from[p]])
    {
      CellGrouped(x, s, p);
    }
    GroupedFrom(s.cells, x.input, x.lims, x.ncol, s.from, s.to);
  }

  lemma GroupedFrom(vals: seq<int>, input: seq<int>, lims: seq<int>, ncol: nat, from: map<int, int>, to: map<int, int>)
    requires ncol > 0 && |vals| == |input| && |lims| > 0 && 0 <= lims[0] <= |input|
    requires forall p :: 0 <= p < lims[0] ==> vals[p] == input[p] == -1
    requires forall p :: lims[0] <= p < |input| ==> p in from && p in to
    requires forall p :: lims[0] <= p < |input| ==> lims[0] <= from[p] < |input| && from[p] in to && to[from[p]] == p
    requires forall p :: lims[0] <= p < |input| ==> lims[0] <= to[p] < |input| && to[p] in from && from[to[p]] == p
    requires forall p :: lims[0] <= p < |input| ==> vals[p] == RowOf(from[p], ncol) && InBucket(lims, p, input[from[p]])
    ensures Grouped(vals, input, lims, ncol, from, to)
  {
    hide RowOf, InBucket;
  }

  /** After the last cycle a cell behind the front is grouped. */
  lemma CellGrouped(x: Problem, s: State, p: nat)
    requires Sorting(x, s) && s.cur == -1 && Full(s.ptrs, x.lims, |x.lims| - 1) && BlanksLead(x.input)
    requires x.ncol > 0 && |x.lims| > 0 && 0 <= x.lims[0] <= p < |x.input| == |s.cells|
    ensures p in s.from && p in s.to
    ensures x.lims[0] <= s.from[p] < |x.input| && s.from[p] in s.to && s.to[s.from[p]] == p
    ensures s.cells[p] == RowOf(s.from[p], x.ncol)
    ensures x.lims[0] <= s.to[p] < |x.input| && s.to[p] in s.from && s.from[s.to[p]] == p
    ensures InBucket(x.lims, p, x.input[s.from[p]])
  {
    hide *;
    Opened(x, s);
    Shape(x, s);
    MapsAgree(s.cells, x.input, x.own, s.from, s.to, x.ncol, -1);
    CellPlaced(s.ptrs, x.lims, x.own, s.from, p);
    NoBlankLeft(x, s, p);
    OwnerOf(x.own, x.lims, p);
  }

  lemma FrontIsBlank(x: Problem, s: State)
    requires Sorting(x, s) && BlanksLead(x.input)
    ensures |x.lims| > 0 && 0 <= x.lims[0] <= |x.input| == |s.cells|
    ensures forall p :: 0 <= p < x.lims[0] ==> s.cells[p] == x.input[p] == -1
  {
    Shape(x, s);
    FrontIsCount(x.lims, x.input);
    BlanksLeadIff(x.input, x.lims[0]);
    LimitsBounds(x.lims, x.input, 0);
    FrontIsKept(x, s);
    hide Sorting, Cycling, Pointers, Limits, Owners, BlanksLead;
  }

  lemma FrontIsKept(x: Problem, s: State)
    requires Sorting(x, s)
    ensures FrontKept(s.cells, x.input, x.lims)
  {
  }

  /** At the end every write pointer is at the end of its bucket. */
  lemma PointersAtEnd(x: Problem, s: State)
    requires Sorting(x, s) && Full(s.ptrs, x.lims, |x.lims| - 1)
    ensures |s.ptrs| == |x.lims| - 1 && forall b :: 0 <= b < |s.ptrs| ==> s.ptrs[b] == x.lims[b + 1]
  {
    Shape(x, s);
    hide Sorting, Limits, Owners;
    forall b | 0 <= b < |s.ptrs|
      ensures s.ptrs[b] == x.lims[b + 1]
    {
      PointerAt(s.ptrs, x.lims, x.own, s.from, b);
    }
  }

  // The loop.

  /** The variables of the loop that follows the cycles, and what a pass through its body leads to: the next
      pass, the end, or an index outside an array. */
  datatype Pass = Pass(vals: seq<int>, ptrs: seq<int>, row: int, init: nat, bucket: nat)
  datatype Move = Next(pass: Pass) | End | Outside

  /** The next bucket that is not full. */
  function FirstOpen(ptrs: seq<int>, lims: seq<int>, init: nat): (b: nat)
    requires init <= |ptrs| < |lims|
    ensures init <= b <= |ptrs|
    decreases |ptrs| - init
  {
    if init == |ptrs| || ptrs[init] < lims[init + 1] then init else FirstOpen(ptrs, lims, init + 1)
  }

  function OnePass(lims: seq<int>, ncol: nat, p: Pass): Move
    requires ncol > 0
  {
    if |lims| != |p.ptrs| + 1 || p.init > |p.ptrs| || p.bucket >= |p.ptrs| then Outside
    else
      var idx := p.ptrs[p.bucket];
      if !(0 <= idx < |p.vals|) then Outside
      else
        var ptrs := if p.row >= 0 then p.ptrs[p.bucket := idx + 1] else p.ptrs;
        var next, vals := p.vals[idx], p.vals[idx := p.row];
        if next < -1 then Outside
        else if next != -1 then Next(Pass(vals, ptrs, RowOf(idx, ncol), p.init, next))
        else
          var init := FirstOpen(ptrs, lims, p.init);
          if init == |ptrs| then End else Next(Pass(vals, ptrs, -1, init, init))
  }

  /** Where n passes lead. */
  function After(lims: seq<int>, ncol: nat, start: Pass, n: nat): Move
    requires ncol > 0
  {
    if n == 0 then Next(start)
    else
      var m := After(lims, ncol, start, n - 1);
      if m.Next? then OnePass(lims, ncol, m.pass) else m
  }

  ghost predicate Ends(lims: seq<int>, ncol: nat, start: Pass)
    requires ncol > 0
  {
    exists n: nat :: After(lims, ncol, start, n).End?
  }

  lemma NoPass(lims: seq<int>, ncol: nat, start: Pass)
    requires ncol > 0
    ensures After(lims, ncol, start, 0) == Next(start)
  {
  }

  /** Where the loop has come to is not lost. */
  lemma {:induction false} EndStays(lims: seq<int>, ncol: nat, start: Pass, k: nat, n: nat)
    requires ncol > 0 && k <= n && After(lims, ncol, start, k).End?
    ensures After(lims, ncol, start, n).End?
    decreases n
  {
    hide OnePass;
    if k < n {
      EndStays(lims, ncol, start, k, n - 1);
    }
  }

  lemma {:induction false} PassRepeats(lims: seq<int>, ncol: nat, start: Pass, n: nat, q: Pass, k: nat)
    requires ncol > 0 && After(lims, ncol, start, n) == Next(q) && OnePass(lims, ncol, q) == Next(q) && n <= k
    ensures After(lims, ncol, start, k) == Next(q)
    decreases k
  {
    hide OnePass;
    if n < k {
      PassRepeats(lims, ncol, start, n, q, k - 1);
    }
  }

  /** A pass that changes nothing comes again and again. */
  lemma Stuck(lims: seq<int>, ncol: nat, start: Pass, n: nat, q: Pass)
    requires ncol > 0 && After(lims, ncol, start, n) == Next(q) && OnePass(lims, ncol, q) == Next(q)
    ensures !Ends(lims, ncol, start)
  {
    hide OnePass, After;
    forall k: nat
      ensures !After(lims, ncol, start, k).End?
    {
      if After(lims, ncol, start, k).End? {
        if k <= n {
          EndStays(lims, ncol, start, k, n);
        } else {
          PassRepeats(lims, ncol, start, n, q, k);
        }
      }
    }
  }

  /** The program variables of the loop against the state: the row in hand and its bucket, or no row
      and a bucket whose next cell may start a cycle. */
  ghost predicate Aligned(x: Problem, s: State, cells: seq<int>, ptrs: seq<int>, row: int, bucket: int) {
    && Sorting(x, s) && cells == s.cells && ptrs == s.ptrs && 0 <= bucket < |ptrs|
    && |cells| == |x.input| && |ptrs| == |x.lims| - 1
    && if s.cur < 0 then row == -1 && 0 <= x.lims[0] <= ptrs[bucket] < |cells| && ptrs[bucket] !in s.from
       else 0 <= s.cur < |x.input| && row == RowOf(s.cur, x.ncol) && row >= 0 && bucket == x.input[s.cur]
  }

  /** One write. A -1 in the cell closes the cycle; if no row was in hand, the write changes nothing. */
  method Turn(vals: array<int>, ptrs: seq<int>, row: int, bucket: nat, ghost x: Problem, ghost s: State)
    returns (idx: nat, next: int, ptrs': seq<int>, ghost s': State)
    requires x.ncol > 0 && |x.lims| >= 2 && Aligned(x, s, vals[..], ptrs, row, bucket)
    modifies vals
    ensures idx == ptrs[bucket] < vals.Length && |ptrs'| == |ptrs|
    ensures ptrs' == if row >= 0 then ptrs[bucket := ptrs[bucket] + 1] else ptrs
    ensures next == old(vals[idx]) >= -1 && vals[..] == old(vals[..])[idx := row]
    ensures Sorting(x, s') && vals[..] == s'.cells && ptrs' == s'.ptrs && s'.cur >= -1
    ensures |s'.from| <= |x.input| && |s'.from| == (if row >= 0 then |s.from| + 1 else |s.from|)
    ensures row >= 0 ==> idx < x.lims[bucket + 1]
    ensures row < 0 && next == -1 ==> s' == s
    ensures if next == -1 then s'.cur == -1
      else 0 <= next < |ptrs| && Aligned(x, s', vals[..], ptrs', RowOf(idx, x.ncol), next)
  {
    hide Sorting, Posed, Cycling, Pointers, RowOf;
    Facts(x, s);
    idx := ptrs[bucket];
    ptrs' := ptrs;
    if row >= 0 {
      PlaceFits(x, s, bucket);
    }
    next := vals[idx];
    if row >= 0 {
      Place(x, s, bucket);
      ptrs' := ptrs[bucket := ptrs[bucket] + 1];
      s' := PlaceAt(s, bucket, x.ncol);
      Facts(x, s');
    } else if next == -1 {
      s' := s;
    } else {
      Start(x, s, idx);
      s' := StartAt(s, idx);
      Facts(x, s');
    }
    vals[idx] := row;
    assert vals[..] == s'.cells;
  }

  /** The next bucket that is not full. */
  method NextBucket(ptrs: seq<int>, lims: seq<int>, from: nat) returns (init: nat)
    requires Full(ptrs, lims, from)
    ensures Full(ptrs, lims, init) && init == FirstOpen(ptrs, lims, from)
    ensures init <= |ptrs| && (init < |ptrs| ==> ptrs[init] < lims[init + 1])
  {
    init := from;
    while init < |ptrs| && ptrs[init] >= lims[init + 1]
      invariant Full(ptrs, lims, init) && FirstOpen(ptrs, lims, from) == FirstOpen(ptrs, lims, init)
    {
      init := init + 1;
    }
  }

  lemma BucketStarts(x: Problem, s: State, bucket: nat)
    requires Sorting(x, s) && s.cur == -1 && bucket < |s.ptrs| == |x.lims| - 1 && s.ptrs[bucket] < x.lims[bucket + 1]
    ensures Aligned(x, s, s.cells, s.ptrs, -1, bucket)
  {
    Facts(x, s);
    hide Sorting;
  }

  lemma Setup(input: seq<int>, lims: seq<int>, ncol: nat) returns (x: Problem, s: State)
    requires ncol > 0 && |lims| >= 2 && Limits(lims, input) && lims[0] < |input|
    requires forall i :: 0 <= i < |input| ==> -1 <= input[i] < |lims| - 1
    ensures x.input == input && x.lims == lims && x.ncol == ncol
    ensures Aligned(x, s, input, lims[..|lims| - 1], -1, 0) && Full(lims[..|lims| - 1], lims, 0)
    ensures |s.from| <= |input| && s.cur == -1
  {
    var own := OwnersExist(lims, input);
    x := Problem(input, lims, own, ncol);
    s := Init(x);
    InitSorting(x);
    Facts(x, s);
  }

  function FirstPass(input: seq<int>, lims: seq<int>): Pass
    requires |lims| > 0
  {
    Pass(input, lims[..|lims| - 1], -1, 0, 0)
  }

  lemma PassIs(lims: seq<int>, ncol: nat, p: Pass)
    requires ncol > 0 && |lims| == |p.ptrs| + 1 && p.init <= |p.ptrs| && p.bucket < |p.ptrs|
    requires 0 <= p.ptrs[p.bucket] < |p.vals| && p.vals[p.ptrs[p.bucket]] >= -1
    ensures
      var idx := p.ptrs[p.bucket];
      var ptrs := if p.row >= 0 then p.ptrs[p.bucket := idx + 1] else p.ptrs;
      var vals, init := p.vals[idx := p.row], FirstOpen(ptrs, lims, p.init);
      OnePass(lims, ncol, p) ==
        if p.vals[idx] != -1 then Next(Pass(vals, ptrs, RowOf(idx, ncol), p.init, p.vals[idx]))
        else if init == |ptrs| then End else Next(Pass(vals, ptrs, -1, init, init))
  {
    hide RowOf, FirstOpen;
  }

  lemma OneMorePass(lims: seq<int>, ncol: nat, start: Pass, n: nat, p: Pass)
    requires ncol > 0 && After(lims, ncol, start, n) == Next(p)
    ensures After(lims, ncol, start, n + 1) == OnePass(lims, ncol, p)
    ensures OnePass(lims, ncol, p).End? ==> Ends(lims, ncol, start)
  {
    hide OnePass;
  }

  /** A cycle that starts on a -1 starts there again. The -1 shows that those of the input do not lead. */
  lemma StartsOnBlank(x: Problem, s: State, lims: seq<int>, start: Pass, n: nat, p: Pass)
    requires x.ncol > 0 && Aligned(x, s, p.vals, p.ptrs, p.row, p.bucket) && p.row < 0 && lims == x.lims
    requires After(lims, x.ncol, start, n) == Next(p) && p.vals[p.ptrs[p.bucket]] == -1
    requires p.init == p.bucket == FirstOpen(p.ptrs, lims, p.init)
    ensures !Ends(lims, x.ncol, start) && !BlanksLead(x.input)
  {
    hide Sorting, RowOf, After, OnePass, FirstOpen, BlanksLead, Ends;
    Facts(x, s);
    PassIs(lims, x.ncol, p);
    assert p.vals[p.ptrs[p.bucket] := p.row] == p.vals;
    Stuck(lims, x.ncol, start, n, p);
    if BlanksLead(x.input) {
      NoBlankLeft(x, s, p.ptrs[p.bucket]);
    }
  }

  /** The cycle phase, unless all values are -1. `checks` says whether every assertion on the way holds,
      `closing` whether those after the last cycle do. It ends exactly when the values of -1 lead. */
  method FollowCycles(vals: array<int>, ncol: nat, lims: seq<int>)
    returns (ended: bool, checks: bool, closing: bool, ghost from: map<int, int>, ghost to: map<int, int>)
    requires ncol > 0 && |lims| >= 2 && Limits(lims, vals[..]) && lims[0] < vals.Length
    requires forall i :: 0 <= i < vals.Length ==> -1 <= vals[i] < |lims| - 1
    modifies vals
    ensures ended <==> BlanksLead(old(vals[..]))
    ensures ended <==> Ends(lims, ncol, FirstPass(old(vals[..]), lims))
    ensures ended ==> Grouped(vals[..], old(vals[..]), lims, ncol, from, to) && closing
    ensures checks <==> lims[0] < lims[1]
  {
    hide Aligned, Sorting, Posed, Limits, Owners, Grouped, RowOf, Init, Full, BlanksLead, Ends, OnePass, After, FirstOpen;
    var ptrs := lims[..|lims| - 1];
    var row := -1;
    var init: nat, bucket: nat := 0, 0;
    ghost var x, s := Setup(vals[..], lims, ncol);
    ghost var start, n: nat := FirstPass(vals[..], lims), 0;
    NoPass(lims, ncol, start);
    checks, closing, ended, from, to := true, true, false, map[], map[];
    ghost var first := true;
    while true
      invariant Aligned(x, s, vals[..], ptrs, row, bucket)
      invariant After(lims, ncol, start, n) == Next(Pass(vals[..], ptrs, row, init, bucket))
      invariant |ptrs| == |lims| - 1 && 0 <= bucket < |ptrs| && 0 <= init < |ptrs| && |s.from| <= |x.input|
      invariant Full(ptrs, lims, init) && (row < 0 ==> bucket == init)
      invariant if first then checks && row < 0 && bucket == 0 && ptrs == lims[..|lims| - 1] else checks == (lims[0] < lims[1])
      invariant !first && row < 0 ==> ptrs[bucket] < lims[bucket + 1]
      decreases |x.input| - |s.from|, if row < 0 then 1 else 0, |ptrs| - init
    {
      FullStays(ptrs, lims, init, bucket);
      ghost var pass, s0 := Pass(vals[..], ptrs, row, init, bucket), s;
      var idx, next, ptrs';
      idx, next, ptrs', s := Turn(vals, ptrs, row, bucket, x, s);
      PassIs(lims, ncol, pass);
      OneMorePass(lims, ncol, start, n, pass);
      checks := checks && idx < lims[bucket + 1];
      ptrs, first := ptrs', false;
      if next != -1 {
        row := RowOf(idx, ncol);
        bucket := next;
      } else {
        init := NextBucket(ptrs, lims, init);
        if init == |lims| - 1 {
          Done(x, s);
          PointersAtEnd(x, s);
          ended := true;
          break;
        }
        if row < 0 && init == bucket {
          StartsOnBlank(x, s0, lims, start, n, pass);
          return;
        }
        bucket := init;
        row := -1;
        BucketStarts(x, s, bucket);
      }
      n := n + 1;
    }
    for i := 0 to |lims| - 1
      invariant closing
    {
      closing := closing && ptrs[i] == lims[i + 1];
    }
    from, to := s.from, s.to;
  }

  predicate AllBelow(vals: seq<int>, n: nat) {
    forall i :: 0 <= i < |vals| ==> vals[i] < n
  }

  predicate AllBlank(vals: seq<int>) {
    forall i :: 0 <= i < |vals| ==> vals[i] == -1
  }

  /** The checks of the sort in their order. The limits are cleared before the values are looked at. When all
      values are -1, the first bucket starts past the last cell. */
  function SortOutcome(vals: seq<int>, nbucket: nat, room: nat): Outcome {
    if nbucket >= |vals| then Refused
    else if room <= nbucket then Overrun
    else if Screened(vals, nbucket) != Sorted then Screened(vals, nbucket)
    else if AllBlank(vals) then Overrun
    else if BlanksLead(vals) then Sorted
    else Endless
  }

  lemma SortedIsScreened(vals: seq<int>, nbucket: nat, room: nat)
    requires SortOutcome(vals, nbucket, room) == Sorted
    ensures forall i :: 0 <= i < |vals| ==> -1 <= vals[i] < nbucket
  {
    IsScreened(vals, nbucket);
  }

  /** bucket_sort_inplace_ref on an nrow x ncol matrix. It refuses to run unless there are more values
      than buckets, and then writes one limit more than there are buckets. With room for them it sorts, or
      refuses when a value has no bucket. A -1 passes all checks, but the sort takes it for a hole; it ends
      exactly when those of -1 lead. The assertions inside hold exactly when bucket 0 is not empty; the
      sort is right either way. */
  method SortInPlace(vals: array<int>, nrow: nat, ncol: nat, nbucket: nat, lims: array<int>)
    returns (outcome: Outcome, checks: bool, ghost from: map<int, int>, ghost to: map<int, int>)
    requires IsMatrix(vals.Length, nrow, ncol) && vals != lims
    modifies vals, lims
    ensures outcome == SortOutcome(old(vals[..]), nbucket, lims.Length)
    ensures outcome == Refused || outcome == Overrun ==> vals[..] == old(vals[..])
    ensures outcome == Sorted || outcome == Endless ==> ncol > 0 && 0 < nbucket < lims.Length
    ensures outcome == Sorted || outcome == Endless ==> Limits(lims[..nbucket + 1], old(vals[..]))
    ensures outcome == Sorted || outcome == Endless ==> (checks <==> 0 in old(vals[..]))
    ensures outcome == Sorted || outcome == Endless ==>
      (outcome == Sorted <==> Ends(lims[..nbucket + 1], ncol, FirstPass(old(vals[..]), lims[..nbucket + 1])))
    ensures outcome == Sorted ==> Grouped(vals[..], old(vals[..]), lims[..nbucket + 1], ncol, from, to)
  {
    hide IsMatrix, Limits, Grouped, CountOf, Screened, BlanksLead, AllBlank, Ends;
    MatrixShape(vals.Length, nrow, ncol);
    from, to, checks := map[], map[], true;
    if nbucket >= vals.Length {
      return Refused, checks, from, to;
    }
    if lims.Length <= nbucket {
      return Overrun, checks, from, to;
    }
    ghost var input := vals[..];
    outcome := ComputeLimits(vals, nbucket, lims);
    if outcome != Sorted {
      return;
    }
    FirstLimits(lims[..nbucket + 1], input);
    if lims[0] == vals.Length {
      return Overrun, checks, from, to;
    }
    SomeBucketNumber(input, nbucket);
    SecondLimit(lims[..nbucket + 1], input);
    var ended, closing;
    ended, checks, closing, from, to := FollowCycles(vals, ncol, lims[..nbucket + 1]);
    checks := checks && (closing || !ended);
    outcome := if ended then Sorted else Endless;
  }

  ghost predicate IsMatrix(size: nat, nrow: nat, ncol: nat) {
    size == nrow * ncol
  }

  lemma MatrixShape(size: nat, nrow: nat, ncol: nat)
    requires IsMatrix(size, nrow, ncol)
    ensures size > 0 ==> nrow > 0 && ncol > 0
  {
  }

  /** How many have a value, from the histogram: none, or all. */
  lemma {:induction false} NoneOrAll(input: seq<int>, n: nat, b: int)
    requires n <= |input|
    ensures CountOf(input, n, b) > 0 <==> exists i :: 0 <= i < n && input[i] == b
    ensures CountOf(input, n, b) == n <==> forall i :: 0 <= i < n ==> input[i] == b
  {
    if n > 0 {
      NoneOrAll(input, n - 1, b);
    }
  }

  lemma FirstLimits(lims: seq<int>, vals: seq<int>)
    requires Limits(lims, vals) && |lims| > 0
    ensures 0 <= lims[0] <= |vals| && (lims[0] == |vals| <==> AllBlank(vals))
  {
    NoneOrAll(vals, |vals|, -1);
  }

  lemma SecondLimit(lims: seq<int>, vals: seq<int>)
    requires Limits(lims, vals) && |lims| > 1
    ensures lims[0] < lims[1] <==> 0 in vals
  {
    NoneOrAll(vals, |vals|, 0);
    BelowStep(vals);
    assert CountBelow(vals, 0 + 1) == CountBelow(vals, 0) + CountOf(vals, |vals|, 0);
  }

  lemma SomeBucketNumber(vals: seq<int>, nbucket: nat)
    requires !AllBlank(vals) && forall i :: 0 <= i < |vals| ==> -1 <= vals[i] < nbucket
    ensures nbucket > 0
  {
  }

  /** Row r of the matrix has b in one of its columns. */
  ghost predicate RowHas(input: seq<int>, ncol: nat, r: int, b: int) {
    exists c :: 0 <= c < |input| && ncol > 0 && RowOf(c, ncol) == r && input[c] == b
  }

  /** No row names the same bucket twice. */
  ghost predicate DistinctInRows(input: seq<int>, ncol: nat)
    requires ncol > 0
  {
    forall c, d :: 0 <= c < d < |input| && RowOf(c, ncol) == RowOf(d, ncol) && input[c] >= 0 ==> input[c] != input[d]
  }

  /** Where the row of a cell went, and where the row in a place comes from. */
  lemma CellIsPlace(vals: seq<int>, input: seq<int>, lims: seq<int>, ncol: nat, from: map<int, int>,
                    to: map<int, int>, b: nat, r: int, c: int)
    requires ncol > 0 && Grouped(vals, input, lims, ncol, from, to)
    requires 0 <= c < |input| && RowOf(c, ncol) == r && input[c] == b
    ensures c in to && to[c] in from && from[to[c]] == c
    ensures 0 <= to[c] < |vals| && InBucket(lims, to[c], b) && vals[to[c]] == r
  {
    hide RowOf;
    assert c >= lims[0];
    assert InBucket(lims, to[c], input[from[to[c]]]);
  }

  lemma BucketOf(vals: seq<int>, input: seq<int>, lims: seq<int>, ncol: nat, from: map<int, int>, to: map<int, int>,
                 p: int, b: nat)
    requires ncol > 0 && Grouped(vals, input, lims, ncol, from, to) && Limits(lims, input)
    requires 0 <= p < |input| && InBucket(lims, p, b)
    ensures p in from && 0 <= from[p] < |input| == |vals| && input[from[p]] == b
    ensures from[p] in to && to[from[p]] == p && vals[p] == RowOf(from[p], ncol)
  {
    BehindFront(lims, input, p, b);
    hide Limits, RowOf;
    assert p in from;
    assert lims[0] <= from[p] < |input|;
    assert InBucket(lims, p, input[from[p]]);
    SameBucket(lims, input, p, input[from[p]], b);
  }

  /** The slice of a bucket holds exactly the rows that name the bucket; when no row names it twice,
      it holds each of them once. */
  lemma BucketRows(vals: seq<int>, input: seq<int>, lims: seq<int>, ncol: nat, from: map<int, int>, to: map<int, int>,
                   b: nat, slice: seq<int>)
    requires ncol > 0 && Grouped(vals, input, lims, ncol, from, to) && Limits(lims, input)
    requires b < |lims| - 1 && |vals| == |input|
    requires 0 <= lims[b] <= lims[b + 1] <= |vals| && slice == vals[lims[b]..lims[b + 1]]
    ensures forall r :: r in slice <==> RowHas(input, ncol, r, b)
    ensures DistinctInRows(input, ncol) ==> forall i, j :: 0 <= i < j < |slice| ==> slice[i] != slice[j]
  {
    hide RowOf, Grouped, Limits, DistinctInRows;
    forall i | 0 <= i < |slice|
      ensures lims[b] + i in from
      ensures var c := from[lims[b] + i];
        0 <= c < |input| && RowOf(c, ncol) == slice[i] && input[c] == b && c in to && to[c] == lims[b] + i
    {
      BucketOf(vals, input, lims, ncol, from, to, lims[b] + i, b);
    }
    forall r | RowHas(input, ncol, r, b)
      ensures r in slice
    {
      var c :| 0 <= c < |input| && RowOf(c, ncol) == r && input[c] == b;
      CellIsPlace(vals, input, lims, ncol, from, to, b, r, c);
      assert slice[to[c] - lims[b]] == r;
    }
    if DistinctInRows(input, ncol) {
      forall i, j | 0 <= i < j < |slice|
        ensures slice[i] != slice[j]
      {
        BucketOf(vals, input, lims, ncol, from, to, lims[b] + i, b);
        BucketOf(vals, input, lims, ncol, from, to, lims[b] + j, b);
        CellsDiffer(input, ncol, from[lims[b] + i], from[lims[b] + j]);
      }
    }
  }

  lemma CellsDiffer(input: seq<int>, ncol: nat, c: int, d: int)
    requires ncol > 0 && DistinctInRows(input, ncol) && 0 <= c < |input| && 0 <= d < |input| && c != d
    requires input[c] == input[d] >= 0
    ensures RowOf(c, ncol) != RowOf(d, ncol)
  {
    hide RowOf;
    assert c < d || d < c;
  }

  lemma BehindFront(lims: seq<int>, vals: seq<int>, p: int, b: int)
    requires Limits(lims, vals) && InBucket(lims, p, b)
    ensures lims[0] <= p
  {
    LimitsGrow(lims, vals, 0, b);
  }

  lemma SameBucket(lims: seq<int>, input: seq<int>, p: int, a: int, b: int)
    requires Limits(lims, input) && InBucket(lims, p, a) && InBucket(lims, p, b)
    ensures a == b
  {
    if a < b {
      LimitsGrow(lims, input, a + 1, b);
    } else if b < a {
      LimitsGrow(lims, input, b + 1, a);
    }
  }
}
