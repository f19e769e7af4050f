/** Sequences with the same elements. */
module Rearrangements {

  /** Where the last element of x is in a rearrangement y of x. What is left is a rearrangement again. */
  lemma LastTakenOut<T>(x: seq<T>, y: seq<T>) returns (i: nat)
    requires x != [] && multiset(x) == multiset(y)
    ensures i < |y| && y == y[..i] + [x[|x| - 1]] + y[i + 1..]
    ensures multiset(x[..|x| - 1]) == multiset(y[..i] + y[i + 1..])
  {
    var n := |x| - 1;
    assert x == x[..n] + [x[n]];
    assert x[n] in multiset(y);
    i :| 0 <= i < |y| && y[i] == x[n];
    assert y == y[..i] + [x[n]] + y[i + 1..];
    assert multiset(x[..n]) == multiset(x) - multiset{x[n]};
    assert multiset(y[..i] + y[i + 1..]) == multiset(y) - multiset{x[n]};
  }

  /** The smaller one of two multisets of the same size is the same. */
  lemma SameSizeIncluded<T>(a: multiset<T>, b: multiset<T>)
    requires a <= b && |b| <= |a|
    ensures a == b
  {
    assert b == a + (b - a);
    assert |b - a| == 0;
  }

  lemma IncludedIsSmaller<T>(a: multiset<T>, b: multiset<T>)
    requires a <= b
    ensures |a| <= |b|
  {
    assert |a + (b - a)| == |a| + |b - a| && a + (b - a) == b;
  }
}
