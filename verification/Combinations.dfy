/** Parameter combinations as mixed-radix numbers, and their order (faiss/AutoTune.cpp, ParameterSpace). */
module Combinations {

  /** Number of combinations of parameters with these many values each. */
  function Product(sizes: seq<nat>): nat {
    if sizes == [] then 1 else sizes[0] * Product(sizes[1..])
  }

  /** The value index of each parameter in combination c, first parameter least significant. */
  function Digits(sizes: seq<nat>, c: nat): (ds: seq<nat>)
    requires Positive(sizes)
    ensures |ds| == |sizes|
  {
    if sizes == [] then [] else [c % sizes[0]] + Digits(sizes[1..], c / sizes[0])
  }

  /** The combination with these value indices. */
  function Number(sizes: seq<nat>, ds: seq<nat>): nat
    requires |ds| == |sizes|
  {
    if sizes == [] then 0 else ds[0] + sizes[0] * Number(sizes[1..], ds[1..])
  }

  predicate Positive(sizes: seq<nat>) {
    forall i :: 0 <= i < |sizes| ==> sizes[i] > 0
  }

  predicate InRange(sizes: seq<nat>, ds: seq<nat>) {
    |ds| == |sizes| && forall i :: 0 <= i < |ds| ==> ds[i] < sizes[i]
  }

  lemma MulMonotone(n: nat, a: nat, b: nat)
    ensures a < b ==> n * a + n <= n * b
  {
    if a < b {
      assert n * b == n * (b - 1) + n;
      if a < b - 1 {
        MulMonotone(n, a, b - 1);
      }
    }
  }

  lemma DivMod(c: nat, n: nat, m: nat)
    requires n > 0
    ensures c == c % n + n * (c / n)
    ensures c < n * m ==> c / n < m
  {
    MulMonotone(n, m, c / n);
  }

  lemma ModDiv(r: nat, n: nat, q: nat)
    requires r < n
    ensures (r + n * q) % n == r && (r + n * q) / n == q
  {
    var c := r + n * q;
    var s := c / n;
    assert c == c % n + n * s;
    assert 0 <= c % n < n;
    MulMonotone(n, s, q);
    MulMonotone(n, q, s);
  }

  /** Combinations and tuples of value indices are the same thing: one direction. */
  lemma {:induction false} NumberOfDigits(sizes: seq<nat>, c: nat)
    requires Positive(sizes) && c < Product(sizes)
    ensures InRange(sizes, Digits(sizes, c)) && Number(sizes, Digits(sizes, c)) == c
  {
    if sizes != [] {
      DivMod(c, sizes[0], Product(sizes[1..]));
      NumberOfDigits(sizes[1..], c / sizes[0]);
      var ds := Digits(sizes, c);
      assert ds[1..] == Digits(sizes[1..], c / sizes[0]);
      forall i | 0 <= i < |ds|
        ensures ds[i] < sizes[i]
      {
        if i > 0 {
          assert ds[i] == ds[1..][i - 1];
        }
      }
    }
  }

  /** And the other. */
  lemma {:induction false} DigitsOfNumber(sizes: seq<nat>, ds: seq<nat>)
    requires InRange(sizes, ds)
    ensures Positive(sizes) && Number(sizes, ds) < Product(sizes) && Digits(sizes, Number(sizes, ds)) == ds
  {
    if sizes != [] {
      var q, n := Number(sizes[1..], ds[1..]), sizes[0];
      assert InRange(sizes[1..], ds[1..]);
      DigitsOfNumber(sizes[1..], ds[1..]);
      ModDiv(ds[0], n, q);
      MulMonotone(n, q, Product(sizes[1..]));
      assert Number(sizes, ds) == ds[0] + n * q;
      assert Digits(sizes, ds[0] + n * q) == [ds[0]] + ds[1..];
      assert ds == [ds[0]] + ds[1..];
      forall i | 0 <= i < |sizes|
        ensures sizes[i] > 0
      {
        assert ds[i] < sizes[i];
      }
    }
  }

  /** Combination c uses at least the values of combination d for every parameter. */
  predicate Ge(sizes: seq<nat>, c: nat, d: nat)
    requires Positive(sizes)
  {
    var x, y := Digits(sizes, c), Digits(sizes, d);
    forall i :: 0 <= i < |sizes| ==> x[i] >= y[i]
  }

  lemma {:induction false} ZeroDigits(sizes: seq<nat>)
    requires Positive(sizes)
    ensures forall i :: 0 <= i < |sizes| ==> Digits(sizes, 0)[i] == 0
  {
    if sizes != [] {
      ZeroDigits(sizes[1..]);
      assert 0 / sizes[0] == 0;
      assert Digits(sizes, 0) == [0] + Digits(sizes[1..], 0);
    }
  }

  lemma {:induction false} ProductPositive(sizes: seq<nat>)
    ensures Product(sizes) > 0 <==> Positive(sizes)
  {
    if sizes != [] {
      ProductPositive(sizes[1..]);
      if Positive(sizes) {
        assert sizes[0] * Product(sizes[1..]) > 0;
      } else if sizes[0] > 0 {
        var i :| 0 <= i < |sizes| && sizes[i] == 0;
        assert sizes[1..][i - 1] == 0;
      }
    }
  }

  lemma {:induction false} LastDigits(sizes: seq<nat>)
    requires Positive(sizes)
    ensures Product(sizes) > 0
    ensures forall i :: 0 <= i < |sizes| ==> Digits(sizes, Product(sizes) - 1)[i] == sizes[i] - 1
  {
    ProductPositive(sizes);
    if sizes != [] {
      LastDigits(sizes[1..]);
      var n, m := sizes[0], Product(sizes[1..]);
      assert n * m - 1 == n - 1 + n * (m - 1);
      ModDiv(n - 1, n, m - 1);
      assert Digits(sizes, n * m - 1) == [n - 1] + Digits(sizes[1..], m - 1);
    }
  }

  /** A partial order on the combinations, with the first one at the bottom and the last one on top. */
  lemma GeIsPartialOrder(sizes: seq<nat>, c: nat, d: nat, e: nat)
    requires Positive(sizes) && c < Product(sizes) && d < Product(sizes)
    ensures Ge(sizes, c, c)
    ensures Ge(sizes, c, d) && Ge(sizes, d, c) ==> c == d
    ensures Ge(sizes, c, d) && Ge(sizes, d, e) ==> Ge(sizes, c, e)
    ensures Ge(sizes, c, 0) && Ge(sizes, Product(sizes) - 1, c)
  {
    NumberOfDigits(sizes, c);
    NumberOfDigits(sizes, d);
    if Ge(sizes, c, d) && Ge(sizes, d, c) {
      assert Digits(sizes, c) == Digits(sizes, d);
    }
    ZeroDigits(sizes);
    LastDigits(sizes);
  }

  method NCombinations(sizes: seq<nat>) returns (n: nat)
    ensures n == Product(sizes)
  {
    n := 1;
    assert sizes[0..] == sizes;
    for i := 0 to |sizes|
      invariant n * Product(sizes[i..]) == Product(sizes)
    {
      assert sizes[i..][1..] == sizes[i + 1..];
      Associative(n, sizes[i], Product(sizes[i + 1..]));
      n := n * sizes[i];
    }
  }

  lemma Associative(a: nat, b: nat, c: nat)
    ensures a * (b * c) == (a * b) * c
  {
  }

  /** Digit by digit, dividing both numbers down. */
  method CombinationGe(sizes: seq<nat>, a: nat, b: nat) returns (ge: bool)
    requires Positive(sizes)
    ensures ge == Ge(sizes, a, b)
  {
    var c, d := a, b;
    assert sizes[0..] == sizes;
    for i := 0 to |sizes|
      invariant Ge(sizes, a, b) == Ge(sizes[i..], c, d)
    {
      GeStep(sizes[i..], c, d);
      assert sizes[i..][1..] == sizes[i + 1..];
      var n := sizes[i];
      if c % n < d % n {
        return false;
      }
      c, d := c / n, d / n;
    }
    return true;
  }

  lemma GeStep(sizes: seq<nat>, c: nat, d: nat)
    requires Positive(sizes) && sizes != []
    ensures Ge(sizes, c, d) <==> c % sizes[0] >= d % sizes[0] && Ge(sizes[1..], c / sizes[0], d / sizes[0])
  {
    var x, y := Digits(sizes, c), Digits(sizes, d);
    var x1, y1 := Digits(sizes[1..], c / sizes[0]), Digits(sizes[1..], d / sizes[0]);
    assert x == [c % sizes[0]] + x1 && y == [d % sizes[0]] + y1;
    hide Digits;
    if Ge(sizes, c, d) {
      assert x[0] >= y[0];
      forall i | 0 <= i < |x1|
        ensures x1[i] >= y1[i]
      {
        assert x[i + 1] >= y[i + 1];
      }
    }
  }
}
