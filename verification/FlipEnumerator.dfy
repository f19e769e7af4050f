/**
 Enumeration of the bit masks with few ones, by popcount and then by decreasing value
 (faiss/IndexBinaryHash.cpp, FlipEnumerator).
 */
module FlipEnumeration {
  import opened Words

  /** The masks to enumerate: nbit-bit words with at most maxflip ones. */
  ghost predicate Candidate(w: Word, nbit: nat, maxflip: nat) {
    Fits(w, nbit) && Popcount(w) <= maxflip
  }

  /** The order of the enumeration. */
  ghost predicate Before(a: Word, b: Word) {
    Popcount(a) < Popcount(b) || (Popcount(a) == Popcount(b) && Value(a) > Value(b))
  }

  ghost predicate Ordered(s: seq<Word>) {
    forall i, j :: 0 <= i < j < |s| ==> Before(s[i], s[j])
  }

  /** s lists every candidate up to and including x, and nothing else. */
  ghost predicate ListsUpTo(s: seq<Word>, x: Word, nbit: nat, maxflip: nat) {
    forall w :: w in s <==> Candidate(w, nbit, maxflip) && !Before(x, w)
  }

  lemma ZeroAbove(w: Word, n: nat)
    requires Fits(w, n) && n <= 64
    ensures Value(w) == Low(w, n) && Popcount(w) == Count(w, n)
  {
    SplitAt(w, ZERO, n, 64);
    LowOfZeros(ZERO, n);
    LowOfZeros(ZERO, 64);
  }

  /** The first word with n ones among nbit bits, and the last one. */
  lemma TopBlock(nbit: nat, n: nat, top: Word)
    requires n <= nbit <= 63
    requires top == Shl(Ones(n), nbit - n)
    ensures Fits(top, nbit) && Popcount(top) == n
    ensures forall w :: Fits(w, nbit) && Popcount(w) == n ==> Value(w) <= Value(top)
  {
    LowOfBlock(top, nbit - n, nbit);
    ZeroAbove(top, nbit);
    forall w | Fits(w, nbit) && Popcount(w) == n
      ensures Value(w) <= Value(top)
    {
      ZeroAbove(w, nbit);
      PackedIsLargest(w, nbit);
    }
  }

  lemma BottomBlock(n: nat, w: Word)
    requires n <= 63 && Popcount(w) == n
    ensures Popcount(Ones(n)) == n && Value(Ones(n)) <= Value(w)
  {
    OnesValue(n);
    LowOfBlock(Ones(n), 0, n);
    SplitAt(Ones(n), ZERO, n, 64);
    LowOfZeros(ZERO, 64);
    LowOfZeros(ZERO, n);
    SpreadIsLargest(w, 64);
  }

  /** A word with c ones is at least 2^c - 1. */
  lemma {:induction false} SpreadIsLargest(w: Word, m: nat)
    requires m <= 64
    ensures Low(w, m) >= Pow2(Count(w, m)) - 1
  {
    if m > 0 {
      SpreadIsLargest(w, m - 1);
      Pow2Monotone(Count(w, m - 1), m - 1);
    }
  }

  /** y follows x directly: x is n1 low ones, zeros up to its next one at q, and y pulls that
      one down on top of the n1 others, just below q. */
  ghost predicate Carries(x: Word, y: Word, n1: nat, q: nat) {
    && n1 < q < 64
    && x[q] && !y[q]
    && (forall i :: 0 <= i < q ==> x[i] == (i < n1))
    && (forall i :: 0 <= i < q ==> y[i] == (q - n1 - 1 <= i))
    && (forall i :: q < i < 64 ==> y[i] == x[i])
  }

  lemma CarryKeepsPopcount(x: Word, y: Word, n1: nat, q: nat)
    requires Carries(x, y, n1, q)
    ensures Popcount(y) == Popcount(x) && Value(y) < Value(x)
  {
    LowOfBlock(y, q - n1 - 1, q);
    CountRange(x, 0, n1, true);
    CountRange(x, n1, q, false);
    SplitAt(x, y, q + 1, 64);
    HigherBitWins(y, x, q);
  }

  /** No word of the same popcount lies strictly between x and its successor. */
  lemma NothingBetween(x: Word, y: Word, n1: nat, q: nat, w: Word)
    requires Carries(x, y, n1, q)
    requires Popcount(w) == Popcount(x) && Value(w) < Value(x)
    ensures Value(w) <= Value(y)
  {
    var p := HighestDifference(w, x);
    if w[p] {
      HigherBitWins(x, w, p);
      assert false;
    }
    SplitAt(w, x, p + 1, 64);
    if p > q {
      HigherBitWins(w, y, p);
    } else if p == q {
      LowOfBlock(y, q - n1 - 1, q);
      CountRange(x, 0, n1, true);
      CountRange(x, n1, q, false);
      PackedIsLargest(w, q);
      SplitAt(w, y, q, 64);
    } else {
      // the ones of x below n1 have no room to move down
      CountRange(x, 0, p, true);
    }
  }

  /** y is the candidate that comes right after x. */
  ghost predicate Successor(x: Word, y: Word, nbit: nat, maxflip: nat) {
    && Candidate(y, nbit, maxflip) && Before(x, y)
    && forall w :: Candidate(w, nbit, maxflip) && Before(x, w) ==> w == y || Before(y, w)
  }

  lemma CarryIsSuccessor(x: Word, y: Word, n1: nat, q: nat, nbit: nat, maxflip: nat)
    requires Carries(x, y, n1, q) && Candidate(x, nbit, maxflip) && nbit <= 64
    ensures Successor(x, y, nbit, maxflip) && Popcount(y) == Popcount(x) && Value(y) < Value(x)
  {
    CarryKeepsPopcount(x, y, n1, q);
    forall w | Candidate(w, nbit, maxflip) && Before(x, w)
      ensures w == y || Before(y, w)
    {
      if Popcount(w) == Popcount(x) {
        NothingBetween(x, y, n1, q, w);
        if Value(w) == Value(y) {
          ValueInjective(w, y);
        }
      }
    }
  }

  /** After the last mask of n ones comes the first mask of n + 1 ones. */
  lemma NextRadiusIsSuccessor(n: nat, top: Word, nbit: nat, maxflip: nat)
    requires n < maxflip <= nbit <= 63
    requires top == Shl(Ones(n + 1), nbit - (n + 1))
    ensures Popcount(Ones(n)) == n && Popcount(top) == n + 1
    ensures Successor(Ones(n), top, nbit, maxflip)
  {
    TopBlock(nbit, n + 1, top);
    OnesPopcount(n);
    forall w | Candidate(w, nbit, maxflip) && Before(Ones(n), w)
      ensures w == top || Before(top, w)
    {
      if Popcount(w) == n {
        BottomBlock(n, w);
      } else if Popcount(w) == n + 1 && Value(w) == Value(top) {
        ValueInjective(w, top);
      }
    }
  }

  lemma OnesPopcount(n: nat)
    requires n <= 64
    ensures Popcount(Ones(n)) == n
  {
    CountRange(Ones(n), 0, n, true);
    CountRange(Ones(n), n, 64, false);
  }

  lemma Extend(s: seq<Word>, x: Word, y: Word, nbit: nat, maxflip: nat)
    requires Ordered(s) && ListsUpTo(s, x, nbit, maxflip) && Successor(x, y, nbit, maxflip)
    ensures Ordered(s + [y]) && ListsUpTo(s + [y], y, nbit, maxflip)
  {
    forall i | 0 <= i < |s|
      ensures Before(s[i], y)
    {
      assert s[i] in s;
    }
    forall w
      ensures w in s + [y] <==> Candidate(w, nbit, maxflip) && !Before(y, w)
    {
      if Candidate(w, nbit, maxflip) && !Before(x, w) && Before(y, w) {
        assert false;
      }
    }
  }

  /** The low end of a word that is not a block of low ones: n ones, then zeros, then a one at q. */
  lemma LowOnes(x: Word, c: nat) returns (n: nat, q: nat)
    requires Popcount(x) == c && c < 64 && x != Ones(c)
    ensures n < q < 64 && x[q]
    ensures forall i :: 0 <= i < q ==> x[i] == (i < n)
  {
    n := 0;
    while n < 64 && x[n]
      invariant n <= 64 && forall i :: 0 <= i < n ==> x[i]
    {
      n := n + 1;
    }
    OnesPopcount(n);
    assert x != Ones(n);
    var k :| 0 <= k < 64 && x[k] != Ones(n)[k];
    q := n;
    while !x[q]
      invariant n <= q <= k && forall i :: n <= i < q ==> !x[i]
      decreases 64 - q
    {
      q := q + 1;
    }
  }

  /** The bit expressions of the enumerator compute the successor, whichever branch runs. */
  lemma FlipsCarry(x: Word, n: nat, q: nat)
    requires n < q < 63 && x[q] && forall i :: 0 <= i < q ==> x[i] == (i < n)
    ensures x != ZERO && Not(x) != ZERO && Ctz(Not(x)) == n
    ensures Ctz(x) > 0 ==> n == 0 && Carries(x, Xor(x, Shl(Ones(2), Ctz(x) - 1)), n, q)
    ensures Ctz(x) == 0 ==>
      var cleared := And(x, Shl(Ones(64), n));
      cleared != ZERO && Ctz(cleared) == q && Carries(x, Xor(cleared, Shl(Ones(n + 2), q - n - 1)), n, q)
  {
    assert Not(x)[n] && x[q];
    assert Not(x)[Ctz(Not(x))] == !x[Ctz(Not(x))];
    if Ctz(x) == 0 {
      var cleared := And(x, Shl(Ones(64), n));
      assert cleared[q];
      assert Ctz(cleared) == q;
    }
  }

  /** The two branches of the enumerator for a mask that is not the last of its radius. */
  method FlipBits(px: Word, ghost n: nat, ghost q: nat) returns (x: Word)
    requires n < q < 63 && px[q] && forall i :: 0 <= i < q ==> px[i] == (i < n)
    ensures Carries(px, x, n, q)
  {
    FlipsCarry(px, n, q);
    hide Carries;
    x := px;
    var i := Ctz(x);
    if i > 0 {
      x := Xor(x, Shl(Ones(2), i - 1));
    } else {
      var n1 := Ctz(Not(x));
      x := And(x, Shl(Ones(64), n1));
      var n2 := Ctz(x);
      x := Xor(x, Shl(Ones(n1 + 2), n2 - n1 - 1));
    }
  }

  lemma MaskIsCandidate(x: Word, nbit: nat, maxflip: nat)
    requires Fits(x, nbit) && Popcount(x) <= maxflip
    ensures Candidate(x, nbit, maxflip)
  {
    hide Fits, Popcount;
  }

  lemma BitFits(x: Word, nbit: nat, q: nat)
    requires Fits(x, nbit) && q < 64 && x[q]
    ensures q < nbit
  {
  }

  lemma SuccessorFits(x: Word, y: Word, nbit: nat, maxflip: nat)
    requires Successor(x, y, nbit, maxflip)
    ensures Fits(y, nbit)
  {
    hide Fits, Popcount, Before;
  }

  /** The last mask is the block of low ones of the largest radius. */
  lemma NothingAfter(visited: seq<Word>, n: nat, nbit: nat)
    requires n <= nbit <= 63 && ListsUpTo(visited, Ones(n), nbit, n)
    ensures forall w :: w in visited <==> Candidate(w, nbit, n)
  {
    OnesPopcount(n);
    hide Value, Popcount, Fits;
    forall w | Candidate(w, nbit, n)
      ensures !Before(Ones(n), w)
    {
      if Popcount(w) == n {
        BottomBlock(n, w);
      }
    }
  }

  class FlipEnumerator {
    const nbit: nat
    const maxflip: nat
    var nflip: nat
    var mask: Word
    var x: Word
    ghost var visited: seq<Word>

    ghost predicate Valid()
      reads this
    {
      && nflip <= maxflip <= nbit <= 63
      && mask == Ones(nflip)
      && Fits(x, nbit) && Popcount(x) == nflip
      && Ordered(visited) && visited != [] && visited[|visited| - 1] == x
      && ListsUpTo(visited, x, nbit, maxflip)
    }

    constructor (nbit: nat, maxflip: nat)
      requires maxflip <= nbit <= 63
      ensures Valid() && visited == [x] && x == ZERO && nflip == 0
      ensures this.nbit == nbit && this.maxflip == maxflip
    {
      this.nbit := nbit;
      this.maxflip := maxflip;
      nflip := 0;
      mask := ZERO;
      x := ZERO;
      visited := [ZERO];
      new;
      assert ZERO == Ones(0);
      LowOfZeros(ZERO, 64);
      forall w
        ensures w in visited <==> Candidate(w, nbit, maxflip) && !Before(ZERO, w)
      {
        if Popcount(w) == 0 {
          OnlyZero(w);
        }
      }
    }

    lemma ValidIsOrdered()
      requires Valid()
      ensures Ordered(visited)
    {
      hide Ordered, ListsUpTo;
    }

    /** Moves to the next mask. When there is none, the masks visited are all the candidates. */
    method Next() returns (more: bool)
      requires Valid()
      modifies this
      ensures Valid() && nflip <= maxflip
      ensures more ==> visited == old(visited) + [x]
      ensures more ==> nflip > old(nflip) || (nflip == old(nflip) && Value(x) < Value(old(x)))
      ensures !more ==> visited == old(visited) && x == old(x) && nflip == old(nflip)
      ensures !more ==> forall w :: w in visited <==> Candidate(w, nbit, maxflip)
    {
      hide Ordered, ListsUpTo, Candidate, Before, Successor, Popcount, Value, Carries, Fits, Ones, Shl;
      ghost var px := x;
      MaskIsCandidate(x, nbit, maxflip);
      if x == mask {
        if nflip == maxflip {
          NothingAfter(visited, nflip, nbit);
          return false;
        }
        nflip := nflip + 1;
        mask := Ones(nflip);
        x := Shl(mask, nbit - nflip);
        NextRadiusIsSuccessor(nflip - 1, x, nbit, maxflip);
      } else {
        ghost var n, q := LowOnes(x, nflip);
        BitFits(x, nbit, q);
        x := FlipBits(x, n, q);
        CarryIsSuccessor(px, x, n, q, nbit, maxflip);
      }
      SuccessorFits(px, x, nbit, maxflip);
      Extend(visited, px, x, nbit, maxflip);
      visited := visited + [x];
      more := true;
    }
  }

  /** Binomial coefficient, by Pascal's rule. */
  function Binomial(n: nat, c: nat): nat {
    if c == 0 then 1
    else if n == 0 then 0
    else Binomial(n - 1, c) + Binomial(n - 1, c - 1)
  }

  function BinomialSum(n: nat, m: nat): nat {
    if m == 0 then 1 else Binomial(n, m) + BinomialSum(n, m - 1)
  }

  /** The n-bit words with exactly c ones. */
  ghost function Exactly(n: nat, c: nat): set<Word>
    requires n <= 64
  {
    if n == 0 then (if c == 0 then {ZERO} else {})
    else if c == 0 then Exactly(n - 1, 0)
    else Exactly(n - 1, c) + WithTopBit(n, Exactly(n - 1, c - 1))
  }

  ghost function SetBit(w: Word, p: nat): Word
    requires p < 64
  {
    SetBitTo(w, p, true)
  }

  ghost function SetBitTo(w: Word, p: nat, b: bool): Word
    requires p < 64
  {
    w[p := b]
  }

  ghost function WithTopBit(n: nat, ws: set<Word>): set<Word>
    requires 0 < n <= 64
  {
    set w | w in ws :: SetBit(w, n - 1)
  }

  lemma NoBits(c: nat, w: Word)
    ensures w in Exactly(0, c) <==> Fits(w, 0) && Popcount(w) == c
  {
    LowOfZeros(ZERO, 64);
    hide Popcount;
    if Fits(w, 0) {
      assert w == ZERO;
    }
  }

  /** Only zero has no ones. */
  lemma NoOnes(n: nat, w: Word)
    requires 0 < n <= 64 && (w in Exactly(n - 1, 0) <==> Fits(w, n - 1) && Popcount(w) == 0)
    ensures w in Exactly(n, 0) <==> Fits(w, n) && Popcount(w) == 0
  {
    assert Exactly(n, 0) == Exactly(n - 1, 0);
    hide Exactly, Popcount;
    if Popcount(w) == 0 {
      OnlyZero(w);
    }
  }

  lemma OnlyZero(w: Word)
    requires Popcount(w) == 0
    ensures w == ZERO
  {
    PackedIsLargest(w, 64);
    LowOfZeros(ZERO, 64);
    ValueInjective(w, ZERO);
  }

  lemma TopBitOrNot(n: nat, c: nat, w: Word)
    requires 0 < n <= 64 && c > 0
    requires w in Exactly(n - 1, c) <==> Fits(w, n - 1) && Popcount(w) == c
    requires w in WithTopBit(n, Exactly(n - 1, c - 1)) <==> w[n - 1] && Fits(w, n) && Popcount(w) == c
    ensures w in Exactly(n, c) <==> Fits(w, n) && Popcount(w) == c
  {
    assert Exactly(n, c) == Exactly(n - 1, c) + WithTopBit(n, Exactly(n - 1, c - 1));
    hide Exactly, WithTopBit, Popcount;
    assert Fits(w, n - 1) <==> Fits(w, n) && !w[n - 1];
  }

  lemma {:induction false} ExactlyMembers(n: nat, c: nat, w: Word)
    requires n <= 64
    ensures w in Exactly(n, c) <==> Fits(w, n) && Popcount(w) == c
    decreases n
  {
    hide *;
    if n == 0 {
      NoBits(c, w);
    } else if c == 0 {
      ExactlyMembers(n - 1, 0, w);
      NoOnes(n, w);
    } else {
      ExactlyMembers(n - 1, c, w);
      WithTopBitMembers(n, c, w);
      TopBitOrNot(n, c, w);
    }
  }

  lemma {:induction false} WithTopBitMembers(n: nat, c: nat, w: Word)
    requires 0 < n <= 64 && c > 0
    ensures w in WithTopBit(n, Exactly(n - 1, c - 1)) <==> w[n - 1] && Fits(w, n) && Popcount(w) == c
    decreases n, 0
  {
    var v := SetBitTo(w, n - 1, false);
    ExactlyMembers(n - 1, c - 1, v);
    hide Exactly;
    if w[n - 1] {
      assert w == SetBit(v, n - 1);
      SetBitCounts(v, w, n - 1);
    }
    if w in WithTopBit(n, Exactly(n - 1, c - 1)) {
      var u :| u in Exactly(n - 1, c - 1) && w == SetBit(u, n - 1);
      ExactlyMembers(n - 1, c - 1, u);
      assert v == u;
    }
  }

  lemma SetBitCounts(v: Word, w: Word, p: nat)
    requires p < 64 && !v[p] && w == v[p := true]
    ensures Popcount(w) == Popcount(v) + 1
  {
    SplitAt(w, v, p + 1, 64);
    CountAgree(w, v, p);
  }

  ghost predicate Clear(w: Word, p: nat)
    requires p < 64
  {
    !w[p]
  }

  lemma ExactlyClears(n: nat, c: nat, ws: set<Word>)
    requires n < 64 && ws == Exactly(n, c)
    ensures forall w :: w in ws ==> Clear(w, n)
  {
    forall w | w in ws
      ensures Clear(w, n)
    {
      ExactlyMembers(n, c, w);
    }
  }

  lemma DisjointUnionSize(a: set<Word>, b: set<Word>)
    requires a !! b
    ensures |a + b| == |a| + |b|
  {
  }

  /** Words with the top bit clear and words with it set are apart. */
  lemma TopBitSplits(n: nat, low: set<Word>, high: set<Word>)
    requires 0 < n <= 64
    requires forall w :: w in low ==> Clear(w, n - 1)
    requires forall w :: w in high ==> Clear(w, n - 1)
    ensures |low + WithTopBit(n, high)| == |low| + |high|
  {
    WithTopBitSize(n, high);
    var lifted := WithTopBit(n, high);
    forall w | w in lifted
      ensures !Clear(w, n - 1)
    {
    }
    DisjointUnionSize(low, lifted);
  }

  lemma {:induction false} ExactlySize(n: nat, c: nat)
    requires n <= 64
    ensures |Exactly(n, c)| == Binomial(n, c)
    decreases n
  {
    if n > 0 {
      ExactlySize(n - 1, c);
      if c > 0 {
        ExactlySize(n - 1, c - 1);
        var low, high := Exactly(n - 1, c), Exactly(n - 1, c - 1);
        ExactlyClears(n - 1, c, low);
        ExactlyClears(n - 1, c - 1, high);
        assert Exactly(n, c) == low + WithTopBit(n, high);
        hide Exactly, WithTopBit;
        TopBitSplits(n, low, high);
      }
    }
  }

  lemma SetBitBack(w: Word, p: nat)
    requires p < 64 && Clear(w, p)
    ensures SetBit(w, p)[p := false] == w
  {
  }

  lemma {:induction false} WithTopBitSize(n: nat, ws: set<Word>)
    requires 0 < n <= 64 && forall w :: w in ws ==> Clear(w, n - 1)
    ensures |WithTopBit(n, ws)| == |ws|
    decreases |ws|
  {
    if ws != {} {
      var w :| w in ws;
      var rest := ws - {w};
      WithTopBitSize(n, rest);
      var up := SetBit(w, n - 1);
      forall v | v in rest
        ensures SetBit(v, n - 1) != up
      {
        SetBitBack(v, n - 1);
        SetBitBack(w, n - 1);
      }
      hide SetBit, Clear;
      assert forall v :: v in ws <==> v in rest || v == w;
      assert WithTopBit(n, ws) == WithTopBit(n, rest) + {up};
    }
  }

  ghost function AtMost(n: nat, m: nat): set<Word>
    requires n <= 64
  {
    if m == 0 then Exactly(n, 0) else Exactly(n, m) + AtMost(n, m - 1)
  }

  lemma OneMoreRadius(n: nat, m: nat)
    requires n <= 64 && m > 0
    ensures AtMost(n, m) == Exactly(n, m) + AtMost(n, m - 1) && AtMost(n, 0) == Exactly(n, 0)
    ensures BinomialSum(n, m) == Binomial(n, m) + BinomialSum(n, m - 1)
  {
    hide Exactly, Binomial;
  }

  lemma RadiusZero(n: nat)
    requires n <= 64
    ensures AtMost(n, 0) == Exactly(n, 0) && BinomialSum(n, 0) == Binomial(n, 0)
  {
  }

  lemma CandidateIs(w: Word, n: nat, m: nat)
    ensures Candidate(w, n, m) <==> Fits(w, n) && Popcount(w) <= m
  {
    hide Fits, Popcount;
  }

  lemma {:induction false} AtMostSize(n: nat, m: nat)
    requires n <= 64
    ensures |AtMost(n, m)| == BinomialSum(n, m)
    ensures forall w :: w in AtMost(n, m) <==> Candidate(w, n, m)
  {
    hide *;
    ExactlySize(n, m);
    forall w
      ensures w in Exactly(n, m) <==> Fits(w, n) && Popcount(w) == m
      ensures Candidate(w, n, m) <==> Fits(w, n) && Popcount(w) <= m
    {
      ExactlyMembers(n, m, w);
      CandidateIs(w, n, m);
    }
    if m == 0 {
      RadiusZero(n);
    } else {
      AtMostSize(n, m - 1);
      OneMoreRadius(n, m);
      forall w
        ensures Candidate(w, n, m - 1) <==> Fits(w, n) && Popcount(w) <= m - 1
      {
        CandidateIs(w, n, m - 1);
      }
      DisjointUnionSize(Exactly(n, m), AtMost(n, m - 1));
    }
  }

  lemma {:induction false} OrderedSize(s: seq<Word>, all: set<Word>)
    requires Ordered(s) && forall w :: w in s <==> w in all
    ensures |s| == |all|
  {
    if s == [] {
      assert all == {};
    } else {
      var n := |s| - 1;
      forall w
        ensures w in s[..n] <==> w in all - {s[n]}
      {
        if w in s && w != s[n] {
          var i :| 0 <= i < |s| && s[i] == w;
          assert s[..n][i] == w;
        }
      }
      OrderedSize(s[..n], all - {s[n]});
    }
  }

  /** The whole enumeration: every mask with at most maxflip ones exactly once, few ones first,
      large values first among equals, and as many masks as the binomial coefficients say. */
  method Enumerate(nbit: nat, maxflip: nat) returns (masks: seq<Word>)
    requires maxflip <= nbit <= 63
    ensures forall w :: w in masks <==> Candidate(w, nbit, maxflip)
    ensures Ordered(masks)
    ensures |masks| == BinomialSum(nbit, maxflip)
  {
    var fe := new FlipEnumerator(nbit, maxflip);
    masks := [fe.x];
    var more := fe.Next();
    while more
      invariant fe.Valid() && fe.nbit == nbit && fe.maxflip == maxflip && fresh(fe)
      invariant more ==> fe.visited == masks + [fe.x]
      invariant !more ==> fe.visited == masks && forall w :: w in masks <==> Candidate(w, nbit, maxflip)
      decreases more, maxflip - fe.nflip, Value(fe.x)
    {
      masks := masks + [fe.x];
      more := fe.Next();
    }
    AtMostSize(nbit, maxflip);
    OrderedSize(masks, AtMost(nbit, maxflip));
  }
}
