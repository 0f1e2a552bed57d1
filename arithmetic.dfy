/** `sum` and `product` as the left folds `reduce((a, b) => a + b, 0)` and `reduce((a, b) => a * b, 1)`. */
module Arithmetic {
  function Sum(values: seq<int>): int
  {
    if values == [] then 0 else Sum(values[..|values| - 1]) + values[|values| - 1]
  }

  function Product(values: seq<int>): int
  {
    if values == [] then 1 else Product(values[..|values| - 1]) * values[|values| - 1]
  }

  lemma EmptyFolds()
    ensures Sum([]) == 0 && Product([]) == 1
  {
  }

  lemma {:induction false} SumAppend(a: seq<int>, b: seq<int>)
    ensures Sum(a + b) == Sum(a) + Sum(b)
    decreases |b|
  {
    if b == [] {
      assert a + b == a;
    } else {
      assert (a + b)[..|a + b| - 1] == a + b[..|b| - 1];
      SumAppend(a, b[..|b| - 1]);
    }
  }

  lemma {:induction false} ProductAppend(a: seq<int>, b: seq<int>)
    ensures Product(a + b) == Product(a) * Product(b)
    decreases |b|
  {
    if b == [] {
      assert a + b == a;
    } else {
      assert (a + b)[..|a + b| - 1] == a + b[..|b| - 1];
      ProductAppend(a, b[..|b| - 1]);
    }
  }

  lemma {:induction false} ProductWithZero(values: seq<int>)
    requires 0 in values
    ensures Product(values) == 0
    decreases |values|
  {
    if values[|values| - 1] != 0 {
      assert 0 in values[..|values| - 1] by {
        var k :| 0 <= k < |values| && values[k] == 0;
        assert values[..|values| - 1][k] == 0;
      }
      ProductWithZero(values[..|values| - 1]);
    }
  }

  lemma {:induction false} SumNonNegative(values: seq<int>)
    requires forall i :: 0 <= i < |values| ==> values[i] >= 0
    ensures Sum(values) >= 0
    decreases |values|
  {
    if values != [] {
      SumNonNegative(values[..|values| - 1]);
    }
  }

  /**
   * The `mod` helper the puzzles import: a remainder that is never negative for a
   * positive modulus (wrapping coordinates onto a tile).
   */
  function Mod(a: int, n: int): (r: int)
    requires n > 0
    ensures 0 <= r < n
    ensures a == n * (a / n) + r
  {
    a % n
  }

  /** `Math.min(...values)` on a non-empty list: the least value, one of the values. */
  function Min(values: seq<int>): (r: int)
    requires |values| > 0
    ensures r in values && forall i :: 0 <= i < |values| ==> r <= values[i]
    decreases |values|
  {
    if |values| == 1 then values[0]
    else
      var m := Min(values[..|values| - 1]);
      assert forall i :: 0 <= i < |values| - 1 ==> values[..|values| - 1][i] == values[i];
      if values[|values| - 1] < m then values[|values| - 1] else m
  }

  /** `Math.max(...values)` on a non-empty list: the greatest value, one of the values. */
  function Max(values: seq<int>): (r: int)
    requires |values| > 0
    ensures r in values && forall i :: 0 <= i < |values| ==> values[i] <= r
    decreases |values|
  {
    if |values| == 1 then values[0]
    else
      var m := Max(values[..|values| - 1]);
      assert forall i :: 0 <= i < |values| - 1 ==> values[..|values| - 1][i] == values[i];
      if values[|values| - 1] > m then values[|values| - 1] else m
  }
}
