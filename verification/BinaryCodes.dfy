/**
 Binary vectors in memory, their hash chunks and their Hamming distance
 (faiss/IndexBinaryHash.cpp).
 */
module BinaryCodes {
  import opened Words

  /** The bits of memory from a pointer on, also past the end of what the pointer owns. */
  type Memory = nat -> bool

  type Code = seq<bool>

  /** The vector of d bits that starts at bit `at`. */
  function Vector(x: Memory, at: nat, d: nat): (v: Code)
    ensures |v| == d
  {
    seq(d, j requires 0 <= j < d => x(at + j))
  }

  /** Eight bytes read as one word. */
  function LoadWord(x: Memory, at: nat): Word {
    seq(64, i requires 0 <= i < 64 => x(at + i))
  }

  /** The b hash bits from bit `ho` of the vector at `at`: a word is read from the byte that holds
      bit ho, shifted down and masked. The word can reach past the end of the vector. */
  function HashAt(x: Memory, at: nat, ho: nat, b: nat): Word
    requires b <= 63
  {
    And(Shr(LoadWord(x, at + 8 * (ho / 8)), ho % 8), Ones(b))
  }

  /** The same bits, taken from the vector alone. A chunk that leaves its word loses its top bits. */
  function Chunk(v: Code, ho: nat, b: nat): Word
    requires ho + b <= |v| && b <= 63
  {
    seq(64, i requires 0 <= i < 64 => i < b && ho % 8 + i < 64 && v[ho + i])
  }

  /** The hash does not depend on the memory past the end of the vector. */
  lemma HashReadsVectorOnly(x: Memory, at: nat, d: nat, ho: nat, b: nat)
    requires ho + b <= d && b <= 63
    ensures HashAt(x, at, ho, b) == Chunk(Vector(x, at, d), ho, b)
  {
    var v := Vector(x, at, d);
    forall i | 0 <= i < 64
      ensures HashAt(x, at, ho, b)[i] == Chunk(v, ho, b)[i]
    {
      if i < b && ho % 8 + i < 64 {
        assert at + 8 * (ho / 8) + (ho % 8 + i) == at + (ho + i);
        assert v[ho + i] == x(at + (ho + i));
      }
    }
  }

  function Diff(a: Code, b: Code): (r: seq<bool>)
    requires |a| == |b|
    ensures |r| == |a|
  {
    seq(|a|, i requires 0 <= i < |a| => a[i] != b[i])
  }

  function Hamming(a: Code, b: Code): nat
    requires |a| == |b|
  {
    Count(Diff(a, b), |a|)
  }

  lemma {:induction false} CountMonotone(s: seq<bool>, lo: nat, hi: nat)
    requires lo <= hi <= |s|
    ensures Count(s, lo) <= Count(s, hi)
    decreases hi
  {
    if lo < hi {
      CountMonotone(s, lo, hi - 1);
    }
  }

  /** Number of hash bits of chunk ho that differ. */
  function HashDistance(q: Code, v: Code, ho: nat, b: nat): nat
    requires |q| == |v| && ho + b <= |q| && b <= 63
  {
    Popcount(Xor(Chunk(q, ho, b), Chunk(v, ho, b)))
  }

  /** Hash bits that differ are bits of the vectors that differ. */
  lemma HashDistanceBound(q: Code, v: Code, ho: nat, b: nat)
    requires |q| == |v| && ho + b <= |q| && b <= 63
    ensures Count(Diff(q, v), ho) + HashDistance(q, v, ho, b) <= Count(Diff(q, v), ho + b)
  {
    var x := Xor(Chunk(q, ho, b), Chunk(v, ho, b));
    PrefixBound(q, v, ho, b, b);
    CountRange(x, b, 64, false);
  }

  lemma {:induction false} PrefixBound(q: Code, v: Code, ho: nat, b: nat, n: nat)
    requires |q| == |v| && ho + b <= |q| && b <= 63 && n <= b
    ensures Count(Diff(q, v), ho) + Count(Xor(Chunk(q, ho, b), Chunk(v, ho, b)), n) <= Count(Diff(q, v), ho + n)
    decreases n
  {
    if n > 0 {
      PrefixBound(q, v, ho, b, n - 1);
    }
  }

  /** The whole distance is at least the distance of one chunk. */
  lemma HashDistanceBelowHamming(q: Code, v: Code, ho: nat, b: nat)
    requires |q| == |v| && ho + b <= |q| && b <= 63
    ensures HashDistance(q, v, ho, b) <= Hamming(q, v)
  {
    HashDistanceBound(q, v, ho, b);
    CountMonotone(Diff(q, v), ho + b, |q|);
  }

  /** The difference of two hashes is one of the b-bit masks. */
  lemma HashXorFits(q: Code, v: Code, ho: nat, b: nat)
    requires |q| == |v| && ho + b <= |q| && b <= 63
    ensures Fits(Xor(Chunk(q, ho, b), Chunk(v, ho, b)), b)
    ensures HashDistance(q, v, ho, b) <= b
  {
    CountRange(Xor(Chunk(q, ho, b), Chunk(v, ho, b)), b, 64, false);
  }
}
