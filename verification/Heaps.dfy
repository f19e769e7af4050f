/**
 Max-heaps of (distance, id) entries that live in rows of one array (faiss/utils/Heap.h, with the
 comparison CMax of faiss/utils/ordered_key_value.h). The two parallel arrays of values and ids are
 one array of pairs here. A row is a[o..o+k].
 */
module Heaps {

  datatype Entry = Entry(dis: int, id: int)

  /** numeric_limits<int32_t>::max() */
  const MAX_DIS: int := 0x7fff_ffff
  const NEUTRAL := Entry(MAX_DIS, -1)

  /** CMax::cmp2: by distance, ties by id. */
  predicate Gt(a: Entry, b: Entry) {
    a.dis > b.dis || (a.dis == b.dis && a.id > b.id)
  }

  /** Positions count from 1, as in the source: node i has the children 2i and 2i+1. */
  function At(row: seq<Entry>, i: int): Entry
    requires 1 <= i <= |row|
  {
    row[i - 1]
  }

  /** Node c is a child of node i. */
  predicate Child(i: int, c: int) {
    c == 2 * i || c == 2 * i + 1
  }

  ghost predicate IsHeap(row: seq<Entry>) {
    forall i, c :: 1 <= i && Child(i, c) && c <= |row| ==> !Gt(At(row, c), At(row, i))
  }

  /** The heap order everywhere but around position h, where e is waiting to be placed. */
  ghost predicate HeapWithHole(row: seq<Entry>, h: int, e: Entry) {
    && 1 <= h <= |row|
    && (forall i, c :: 1 <= i && Child(i, c) && c <= |row| && i != h && c != h ==> !Gt(At(row, c), At(row, i)))
    && (forall i :: 1 <= i && Child(i, h) ==> !Gt(e, At(row, i)))
    && (forall i, c :: 1 <= i && Child(i, h) && Child(h, c) && c <= |row| ==> !Gt(At(row, c), At(row, i)))
  }

  lemma {:induction false} TopIsLargest(row: seq<Entry>, j: int)
    requires IsHeap(row) && 1 <= j <= |row|
    ensures !Gt(At(row, j), row[0])
    decreases j
  {
    if j > 1 {
      assert Child(j / 2, j);
      TopIsLargest(row, j / 2);
    }
  }

  function LargerChild(row: seq<Entry>, i: int): (c: int)
    requires 1 <= i && 2 * i <= |row|
    ensures Child(i, c) && c <= |row|
    ensures forall d :: Child(i, d) && d <= |row| ==> !Gt(At(row, d), At(row, c))
  {
    if 2 * i + 1 == |row| + 1 || Gt(At(row, 2 * i), At(row, 2 * i + 1)) then 2 * i else 2 * i + 1
  }

  lemma PickChild(row: seq<Entry>, i: int, c: int)
    requires 1 <= i && 2 * i <= |row|
    requires c == if 2 * i + 1 == |row| + 1 || Gt(row[2 * i - 1], row[2 * i + 1 - 1]) then 2 * i else 2 * i + 1
    ensures c == LargerChild(row, i) && 1 <= i < c <= |row| && At(row, c) == row[c - 1]
  {
  }

  /** Moving the larger child c up into the hole h moves the hole to c. */
  lemma HoleMovesDown(row: seq<Entry>, h: int, e: Entry)
    requires HeapWithHole(row, h, e) && 2 * h <= |row|
    requires !Gt(e, At(row, LargerChild(row, h)))
    ensures var c := LargerChild(row, h);
      HeapWithHole(row[h - 1 := At(row, c)], c, e)
  {
  }

  lemma HoleAtTop(row: seq<Entry>, e: Entry)
    requires IsHeap(row) && row != []
    ensures HeapWithHole(row, 1, e)
  {
  }

  lemma FillHole(row: seq<Entry>, h: int, e: Entry)
    requires HeapWithHole(row, h, e)
    requires 2 * h > |row| || Gt(e, At(row, LargerChild(row, h)))
    ensures IsHeap(row[h - 1 := e])
  {
  }

  /** A write at i and one at c, once the value at c has been copied to i, is an exchange. */
  lemma HoleKeepsElements(row: seq<Entry>, i: int, c: int, e: Entry)
    requires 1 <= i <= |row| && 1 <= c <= |row| && i != c
    ensures multiset(row[i - 1 := At(row, c)][c - 1 := e]) == multiset(row[i - 1 := e])
  {
  }

  /** Writes entry p (from 1) of a row. */
  method SetAt(a: array<Entry>, o: nat, k: nat, p: nat, e: Entry)
    requires 1 <= p <= k && o + k <= a.Length
    modifies a
    ensures a[o..o + k] == old(a[o..o + k])[p - 1 := e]
    ensures forall q :: 0 <= q < a.Length && !(o <= q < o + k) ==> a[q] == old(a[q])
  {
    a[o + p - 1] := e;
  }

  /** Replaces the largest entry of the row by e (heap_replace_top). */
  method ReplaceTop(a: array<Entry>, o: nat, k: nat, e: Entry)
    requires 1 <= k && o + k <= a.Length
    requires IsHeap(a[o..o + k])
    modifies a
    ensures IsHeap(a[o..o + k])
    ensures multiset(a[o..o + k]) == multiset(old(a[o..o + k])[0 := e])
    ensures a[o..o + k][k - 1] == e || a[o..o + k][k - 1] == old(a[o..o + k][k - 1])
    ensures forall p :: 0 <= p < a.Length && !(o <= p < o + k) ==> a[p] == old(a[p])
  {
    hide *;
    ghost var was := a[o..o + k];
    ghost var row := was;
    HoleAtTop(row, e);
    var i := 1;
    while true
      invariant 1 <= i <= k
      invariant forall p :: 0 <= p < a.Length && !(o <= p < o + k) ==> a[p] == old(a[p])
      invariant a[o..o + k] == row && |row| == k
      invariant HeapWithHole(row, i, e)
      invariant multiset(row[i - 1 := e]) == multiset(was[0 := e])
      invariant row[k - 1] == was[k - 1]
      decreases k - i
    {
      var i1 := 2 * i;
      var i2 := i1 + 1;
      if i1 > k {
        break;
      }
      var c;
      if i2 == k + 1 || Gt(a[o..o + k][i1 - 1], a[o..o + k][i2 - 1]) {
        c := i1;
      } else {
        c := i2;
      }
      PickChild(row, i, c);
      if Gt(e, a[o..o + k][c - 1]) {
        break;
      }
      HoleMovesDown(row, i, e);
      HoleKeepsElements(row, i, c, e);
      SetAt(a, o, k, i, a[o..o + k][c - 1]);
      row := row[i - 1 := At(row, c)];
      i := c;
    }
    FillHole(row, i, e);
    SetAt(a, o, k, i, e);
  }

  lemma ReplaceThenDrop(was: seq<Entry>, row: seq<Entry>)
    requires was != [] && |row| == |was|
    requires multiset(row) == multiset(was[0 := was[|was| - 1]])
    requires row[|row| - 1] == was[|was| - 1]
    ensures multiset(row[..|row| - 1]) == multiset(was) - multiset{was[0]}
  {
    var last, front, rest := was[|was| - 1], row[..|row| - 1], was[1..];
    assert row == front + [last] && was == [was[0]] + rest && was[0 := last] == [last] + rest;
    assert multiset(row) == multiset(front) + multiset{last};
    assert multiset(was[0 := last]) == multiset{last} + multiset(rest);
    assert multiset(was) == multiset{was[0]} + multiset(rest);
    hide *;
    TakeOne(multiset(front), multiset(rest), last, was[0]);
  }

  lemma TakeOne(a: multiset<Entry>, b: multiset<Entry>, x: Entry, y: Entry)
    requires a + multiset{x} == multiset{x} + b
    ensures a == b == (multiset{y} + b) - multiset{y}
  {
    assert a == (a + multiset{x}) - multiset{x};
  }

  /** Removes the largest entry (heap_pop): afterwards the heap is the row without its last cell. */
  method Pop(a: array<Entry>, o: nat, k: nat)
    requires 1 <= k && o + k <= a.Length
    requires IsHeap(a[o..o + k])
    modifies a
    ensures IsHeap(a[o..o + k][..k - 1])
    ensures multiset(a[o..o + k][..k - 1]) == multiset(old(a[o..o + k])) - multiset{old(a[o..o + k][0])}
    ensures forall p :: 0 <= p < a.Length && !(o <= p < o + k) ==> a[p] == old(a[p])
  {
    hide IsHeap;
    ghost var was := a[o..o + k];
    ReplaceTop(a, o, k, a[o..o + k][k - 1]);
    ghost var row := a[o..o + k];
    ReplaceThenDrop(was, row);
    PrefixIsHeap(row, k - 1);
  }

  lemma PrefixIsHeap(row: seq<Entry>, n: nat)
    requires IsHeap(row) && n <= |row|
    ensures IsHeap(row[..n])
  {
    forall i, c | 1 <= i && Child(i, c) && c <= n
      ensures !Gt(At(row[..n], c), At(row[..n], i))
    {
      assert !Gt(At(row, c), At(row, i));
    }
  }

  /** Fills the row with neutral entries (heap_heapify without initial values). */
  method Heapify(a: array<Entry>, o: nat, k: nat)
    requires o + k <= a.Length
    modifies a
    ensures forall j :: o <= j < o + k ==> a[j] == NEUTRAL
    ensures forall p :: 0 <= p < a.Length && !(o <= p < o + k) ==> a[p] == old(a[p])
  {
    for i := 0 to k
      invariant forall j :: o <= j < o + i ==> a[j] == NEUTRAL
      invariant forall p :: 0 <= p < a.Length && !(o <= p < o + k) ==> a[p] == old(a[p])
    {
      a[o + i] := NEUTRAL;
    }
  }

  ghost predicate Sorted(s: seq<Entry>) {
    forall i, j :: 0 <= i < j < |s| ==> !Gt(s[i], s[j])
  }

  /** Every entry of the sequence has a real id. */
  ghost predicate AllReal(s: seq<Entry>) {
    forall i :: 0 <= i < |s| ==> s[i].id != -1
  }

  ghost predicate SameReals(m: multiset<Entry>, n: multiset<Entry>) {
    forall e: Entry :: e.id != -1 ==> m[e] == n[e]
  }

  /** No entry of m is above an entry of n. */
  ghost predicate AllBelow(m: multiset<Entry>, n: multiset<Entry>) {
    forall x, y :: x in m && y in n ==> !Gt(x, y)
  }

  /** What the loop of Reorder has: the heap still to pop and, sorted, the real entries popped. */
  ghost predicate Popped(heap: multiset<Entry>, tail: seq<Entry>, was: multiset<Entry>) {
    && Sorted(tail) && AllReal(tail)
    && SameReals(heap + multiset(tail), was)
    && AllBelow(heap, multiset(tail))
  }

  lemma LargestOnTop(heap: seq<Entry>)
    requires IsHeap(heap) && heap != []
    ensures forall x :: x in multiset(heap) ==> !Gt(x, heap[0])
  {
    forall x | x in multiset(heap)
      ensures !Gt(x, heap[0])
    {
      var j :| 0 <= j < |heap| && heap[j] == x;
      TopIsLargest(heap, j + 1);
    }
  }

  lemma PopPad(heap: multiset<Entry>, rest: multiset<Entry>, top: Entry, tail: seq<Entry>, was: multiset<Entry>)
    requires Popped(heap, tail, was) && heap == rest + multiset{top}
    requires top.id == -1
    ensures Popped(rest, tail, was)
  {
    forall x | x in rest
      ensures x in heap
    {
    }
  }

  lemma PopReal(heap: multiset<Entry>, rest: multiset<Entry>, top: Entry, tail: seq<Entry>, was: multiset<Entry>)
    requires Popped(heap, tail, was) && heap == rest + multiset{top}
    requires top.id != -1 && forall x :: x in heap ==> !Gt(x, top)
    ensures Popped(rest, [top] + tail, was)
  {
    var next := [top] + tail;
    assert multiset(next) == multiset{top} + multiset(tail);
    assert top in heap;
    forall i, j | 0 <= i < j < |next|
      ensures !Gt(next[i], next[j])
    {
      assert next[j] == tail[j - 1] && next[j] in multiset(tail);
      assert i > 0 ==> next[i] == tail[i - 1];
    }
    forall x, y | x in rest && y in multiset(next)
      ensures !Gt(x, y)
    {
      assert x in heap;
      assert y == top || y in multiset(tail);
    }
  }

  /** The memmove that ends heap_reorder: the last n cells of the row go to its front. */
  method MoveToFront(a: array<Entry>, o: nat, k: nat, n: nat)
    requires n <= k && o + k <= a.Length
    modifies a
    ensures a[o..o + n] == old(a[o + (k - n)..o + k])
    ensures forall p :: 0 <= p < a.Length && !(o <= p < o + k) ==> a[p] == old(a[p])
  {
    ghost var cells, src := a[..], a[o + (k - n)..o + k];
    for j := 0 to n
      invariant forall p :: 0 <= p < a.Length && !(o <= p < o + j) ==> a[p] == cells[p]
      invariant forall p :: 0 <= p < j ==> a[o + p] == src[p]
    {
      a[o + j] := a[o + j + (k - n)];
    }
  }

  /** The row after i pops, ii of them of real entries: heap in front, sorted entries at the back. */
  ghost predicate Stage(row: seq<Entry>, i: nat, ii: nat, was: multiset<Entry>) {
    && ii <= i <= |row|
    && IsHeap(row[..|row| - i])
    && Popped(multiset(row[..|row| - i]), row[|row| - ii..], was)
  }

  lemma NextStage(row: seq<Entry>, next: seq<Entry>, i: nat, ii: nat, was: multiset<Entry>)
    requires Stage(row, i, ii, was) && i < |row| == |next|
    requires IsHeap(next[..|row| - i - 1])
    requires multiset(next[..|row| - i - 1]) == multiset(row[..|row| - i]) - multiset{row[0]}
    requires next[|row| - ii - 1..] == [row[0]] + row[|row| - ii..]
    ensures Stage(next, i + 1, if row[0].id != -1 then ii + 1 else ii, was)
  {
    hide IsHeap, Popped;
    var heap, rest, tail := row[..|row| - i], next[..|row| - i - 1], row[|row| - ii..];
    var top := row[0];
    LargestOnTop(heap);
    assert top == heap[0] && top in multiset(heap);
    if top.id != -1 {
      PopReal(multiset(heap), multiset(rest), top, tail, was);
    } else {
      PopPad(multiset(heap), multiset(rest), top, tail, was);
      assert next[|row| - ii..] == next[|row| - ii - 1..][1..] == tail;
    }
  }

  lemma WriteBehindHeap(row: seq<Entry>, popped: seq<Entry>, i: nat, ii: nat)
    requires ii <= i < |row| == |popped|
    requires popped[|row| - i..] == row[|row| - i..]
    ensures var next := popped[|row| - ii - 1 := row[0]];
      next[..|row| - i - 1] == popped[..|row| - i - 1] && next[|row| - ii - 1..] == [row[0]] + row[|row| - ii..]
  {
    assert popped[|row| - ii..] == popped[|row| - i..][i - ii..] == row[|row| - i..][i - ii..] == row[|row| - ii..];
  }

  /** One turn of the loop of heap_reorder: the top of the heap leaves it and is written in front
      of the ii entries already at the back of the row. */
  method PopAndKeep(a: array<Entry>, o: nat, k: nat, i: nat, ii: nat)
    requires ii <= i < k && o + k <= a.Length
    requires IsHeap(a[o..o + k][..k - i])
    modifies a
    ensures IsHeap(a[o..o + k][..k - i - 1])
    ensures multiset(a[o..o + k][..k - i - 1]) == multiset(old(a[o..o + k])[..k - i]) - multiset{old(a[o..o + k])[0]}
    ensures a[o..o + k][k - ii - 1..] == [old(a[o..o + k])[0]] + old(a[o..o + k])[k - ii..]
    ensures forall p :: 0 <= p < a.Length && !(o <= p < o + k) ==> a[p] == old(a[p])
  {
    hide *;
    ghost var was, row := a[..], a[o..o + k];
    var top := a[o];
    assert row[0] == top;
    RowParts(was, was, o, k, k - i);
    Pop(a, o, k - i);
    ghost var popped := a[o..o + k];
    RowParts(was, a[..], o, k, k - i);
    SetAt(a, o, k, k - ii, top);
    assert a[o..o + k] == popped[k - ii - 1 := top];
    WriteBehindHeap(row, popped, i, ii);
  }

  /** The front of a row, and its back when only the front changes. */
  lemma RowParts(was: seq<Entry>, now: seq<Entry>, o: nat, k: nat, n: nat)
    requires |was| == |now| && 0 < n <= k && o + k <= |was|
    requires forall p :: 0 <= p < |was| && !(o <= p < o + n) ==> now[p] == was[p]
    ensures was[o..o + n] == was[o..o + k][..n]
    ensures now[o..o + k][..n - 1] == now[o..o + n][..n - 1]
    ensures now[o..o + k][n..] == was[o..o + k][n..]
  {
  }

  /** The popping loop of heap_reorder. */
  method PopAll(a: array<Entry>, o: nat, k: nat) returns (n: nat)
    requires o + k <= a.Length
    requires IsHeap(a[o..o + k])
    modifies a
    ensures Stage(a[o..o + k], k, n, multiset(old(a[o..o + k])))
    ensures forall p :: 0 <= p < a.Length && !(o <= p < o + k) ==> a[p] == old(a[p])
  {
    hide Stage, IsHeap;
    ghost var row := a[o..o + k];
    ghost var was := multiset(row);
    var i, ii := 0, 0;
    FirstStage(row);
    while i < k
      invariant ii <= i <= k
      invariant a[o..o + k] == row && |row| == k
      invariant Stage(row, i, ii, was)
      invariant forall p :: 0 <= p < a.Length && !(o <= p < o + k) ==> a[p] == old(a[p])
    {
      var top := a[o];
      assert row[0] == top;
      StageBounds(row, i, ii, was);
      PopAndKeep(a, o, k, i, ii);
      NextStage(row, a[o..o + k], i, ii, was);
      row := a[o..o + k];
      i := i + 1;
      if top.id != -1 {
        ii := ii + 1;
      }
    }
    n := ii;
  }

  lemma StageBounds(row: seq<Entry>, i: nat, ii: nat, was: multiset<Entry>)
    requires Stage(row, i, ii, was)
    ensures ii <= i <= |row| && IsHeap(row[..|row| - i])
  {
  }

  lemma FirstStage(row: seq<Entry>)
    requires IsHeap(row)
    ensures Stage(row, 0, 0, multiset(row))
  {
    assert row[..|row|] == row && row[|row|..] == [];
  }

  lemma LastStage(row: seq<Entry>, n: nat, was: multiset<Entry>)
    requires Stage(row, |row|, n, was)
    ensures var tail := row[|row| - n..];
      Sorted(tail) && AllReal(tail) && SameReals(multiset(tail), was)
  {
  }

  /** Turns the heap of the row into a sorted row, real entries first (heap_reorder). */
  method Reorder(a: array<Entry>, o: nat, k: nat) returns (n: nat)
    requires o + k <= a.Length
    requires IsHeap(a[o..o + k])
    modifies a
    ensures n <= k
    ensures Sorted(a[o..o + n]) && AllReal(a[o..o + n])
    ensures SameReals(multiset(a[o..o + n]), multiset(old(a[o..o + k])))
    ensures forall j :: o + n <= j < o + k ==> a[j] == NEUTRAL
    ensures forall p :: 0 <= p < a.Length && !(o <= p < o + k) ==> a[p] == old(a[p])
  {
    hide *;
    ghost var was := multiset(a[o..o + k]);
    n := PopAll(a, o, k);
    ghost var popped := a[o..o + k];
    StageBounds(popped, k, n, was);
    LastStage(popped, n, was);
    ghost var tail := popped[k - n..];
    assert a[o + (k - n)..o + k] == tail;
    MoveToFront(a, o, k, n);
    ghost var front := a[o..o + n];
    assert front == tail;
    Heapify(a, o + n, k - n);
    assert a[o..o + n] == front;
  }
}
