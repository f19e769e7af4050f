/**
 Unsigned 64-bit machine words, bit by bit: index i of a Word is the bit of weight 2^i.
 Every operator drops what leaves the word, as the C++ operators on uint64_t do.
 */
module Words {

  type Word = w: seq<bool> | |w| == 64 witness seq(64, _ => false)

  const ZERO: Word := Ones(0)

  /** (1 << n) - 1 */
  function Ones(n: nat): Word
    requires n <= 64
  {
    seq(64, i => i < n)
  }

  function Shl(w: Word, n: nat): Word
    requires n < 64
  {
    seq(64, i requires 0 <= i < 64 => n <= i && w[i - n])
  }

  function Shr(w: Word, n: nat): Word
    requires n < 64
  {
    seq(64, i requires 0 <= i < 64 => i + n < 64 && w[i + n])
  }

  function And(a: Word, b: Word): Word {
    seq(64, i requires 0 <= i < 64 => a[i] && b[i])
  }

  function Xor(a: Word, b: Word): Word {
    seq(64, i requires 0 <= i < 64 => a[i] != b[i])
  }

  function Not(a: Word): Word {
    seq(64, i requires 0 <= i < 64 => !a[i])
  }

  /** Number of trailing zeros; like the builtin it models, it has no value on the zero word. */
  function Ctz(w: Word): (n: nat)
    requires w != ZERO
    ensures n < 64 && w[n] && forall i :: 0 <= i < n ==> !w[i]
  {
    assert exists i :: 0 <= i < 64 && w[i] != ZERO[i];
    CtzFrom(w, 0)
  }

  function CtzFrom(w: Word, k: nat): (n: nat)
    requires k < 64
    requires forall i :: 0 <= i < k ==> !w[i]
    requires exists i :: 0 <= i < 64 && w[i]
    ensures n < 64 && w[n] && forall i :: 0 <= i < n ==> !w[i]
    decreases 64 - k
  {
    if w[k] then k else CtzFrom(w, k + 1)
  }

  function Pow2(n: nat): (p: nat)
    ensures p >= 1
  {
    if n == 0 then 1 else 2 * Pow2(n - 1)
  }

  /** Number of ones among the n lowest bits. */
  function Count(w: seq<bool>, n: nat): (c: nat)
    requires n <= |w|
    ensures c <= n
  {
    if n == 0 then 0 else Count(w, n - 1) + (if w[n - 1] then 1 else 0)
  }

  /** The number written by the n lowest bits. */
  function Low(w: Word, n: nat): nat
    requires n <= 64
  {
    if n == 0 then 0 else Low(w, n - 1) + (if w[n - 1] then Pow2(n - 1) else 0)
  }

  function Popcount(w: Word): nat { Count(w, 64) }

  function Value(w: Word): nat { Low(w, 64) }

  /** No bit at or above position n is set. */
  predicate Fits(w: Word, n: nat)
  {
    forall i :: n <= i < 64 ==> !w[i]
  }

  lemma {:induction false} CountAgree(a: seq<bool>, b: seq<bool>, n: nat)
    requires n <= |a| && n <= |b|
    requires forall i :: 0 <= i < n ==> a[i] == b[i]
    ensures Count(a, n) == Count(b, n)
  {
    if n > 0 {
      CountAgree(a, b, n - 1);
    }
  }

  lemma {:induction false} CountRange(a: seq<bool>, lo: nat, hi: nat, set_: bool)
    requires lo <= hi <= |a|
    requires forall i :: lo <= i < hi ==> a[i] == set_
    ensures Count(a, hi) == Count(a, lo) + (if set_ then hi - lo else 0)
    decreases hi
  {
    if lo < hi {
      CountRange(a, lo, hi - 1, set_);
    }
  }

  /** Words that agree from bit p upwards differ in value and in popcount by their low parts only. */
  lemma {:induction false} SplitAt(a: Word, b: Word, p: nat, n: nat)
    requires p <= n <= 64
    requires forall i :: p <= i < n ==> a[i] == b[i]
    ensures Low(a, n) - Low(b, n) == Low(a, p) - Low(b, p)
    ensures Count(a, n) - Count(b, n) == Count(a, p) - Count(b, p)
    decreases n
  {
    if p < n {
      SplitAt(a, b, p, n - 1);
    }
  }

  /** The value of a block of ones [lo, hi) above zeros. */
  lemma {:induction false} LowOfBlock(w: Word, lo: nat, hi: nat)
    requires lo <= hi <= 64
    requires forall i :: 0 <= i < hi ==> w[i] == (lo <= i)
    ensures Low(w, hi) == Pow2(hi) - Pow2(lo)
    ensures Count(w, hi) == hi - lo
    decreases hi
  {
    if hi == lo {
      LowOfZeros(w, lo);
    } else {
      LowOfBlock(w, lo, hi - 1);
    }
  }

  lemma {:induction false} LowOfZeros(w: Word, n: nat)
    requires n <= 64
    requires forall i :: 0 <= i < n ==> !w[i]
    ensures Low(w, n) == 0 && Count(w, n) == 0
  {
    if n > 0 {
      LowOfZeros(w, n - 1);
    }
  }

  lemma {:induction false} Pow2Monotone(a: nat, b: nat)
    requires a <= b
    ensures Pow2(a) <= Pow2(b)
    decreases b
  {
    if a < b {
      Pow2Monotone(a, b - 1);
    }
  }

  /** Among the m-bit words with c ones, the one with its ones at the top is the largest. */
  lemma {:induction false} PackedIsLargest(w: Word, m: nat)
    requires m <= 64
    ensures Low(w, m) <= Pow2(m) - Pow2(m - Count(w, m))
  {
    if m > 0 {
      PackedIsLargest(w, m - 1);
      var c := Count(w, m - 1);
      if !w[m - 1] {
        Pow2Monotone(m - 1 - c, m - 1);
        assert Pow2(m - c) == 2 * Pow2(m - 1 - c);
      }
    }
  }

  /** The highest position where two different words differ. */
  lemma HighestDifference(a: Word, b: Word) returns (p: nat)
    requires a != b
    ensures p < 64 && a[p] != b[p] && forall i :: p < i < 64 ==> a[i] == b[i]
  {
    var k :| 0 <= k < 64 && a[k] != b[k];
    p := 63;
    while a[p] == b[p]
      invariant k <= p < 64 && forall i :: p < i < 64 ==> a[i] == b[i]
      decreases p
    {
      p := p - 1;
    }
  }

  lemma {:induction false} LowBound(w: Word, n: nat)
    requires n <= 64
    ensures Low(w, n) < Pow2(n)
  {
    if n > 0 {
      LowBound(w, n - 1);
    }
  }

  /** The order of the values is decided by the highest difference. */
  lemma HigherBitWins(a: Word, b: Word, p: nat)
    requires p < 64 && !a[p] && b[p]
    requires forall i :: p < i < 64 ==> a[i] == b[i]
    ensures Value(a) < Value(b)
  {
    SplitAt(a, b, p + 1, 64);
    LowBound(a, p);
  }

  lemma ValueInjective(a: Word, b: Word)
    requires Value(a) == Value(b)
    ensures a == b
  {
    if a != b {
      var p := HighestDifference(a, b);
      if a[p] {
        HigherBitWins(b, a, p);
      } else {
        HigherBitWins(a, b, p);
      }
    }
  }

  /** Xor with a fixed word is its own inverse. */
  lemma XorTwice(a: Word, b: Word)
    ensures Xor(a, Xor(a, b)) == b
  {
    assert forall i :: 0 <= i < 64 ==> Xor(a, Xor(a, b))[i] == b[i];
  }

  /** Ones(n) is the machine expression (1 << n) - 1. */
  lemma OnesValue(n: nat)
    requires n <= 64
    ensures Value(Ones(n)) == Pow2(n) - 1
  {
    LowOfBlock(Ones(n), 0, n);
    SplitAt(Ones(n), ZERO, n, 64);
    LowOfZeros(ZERO, 64);
    LowOfZeros(ZERO, n);
  }
}
