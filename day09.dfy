/**
 * Day 9: extrapolating histories of readings. Each history is differenced level by level; the
 * next value is the sum of the last element of every level, and the previous value folds the
 * first elements back with alternating signs.
 */
module Day09 {
  import opened Wrappers
  import Arithmetic

  /** `getDiffs`: the differences of neighbouring elements, empty for fewer than two. */
  function Diffs(s: seq<int>): (r: seq<int>)
    ensures |r| == if |s| < 2 then 0 else |s| - 1
    ensures forall i :: 0 <= i < |r| ==> r[i] == s[i + 1] - s[i]
    decreases |s|
  {
    if |s| < 2 then [] else [s[1] - s[0]] + Diffs(s[1..])
  }

  /** The loop of `getDiffs`, pushing one difference per element after the first. */
  method GetDiffs(sequence: seq<int>) returns (diffs: seq<int>)
    ensures diffs == Diffs(sequence)
  {
    diffs := [];
    if |sequence| < 2 {
      return;
    }
    var i := 1;
    while i < |sequence|
      invariant 1 <= i <= |sequence| && |diffs| == i - 1
      invariant forall k :: 0 <= k < i - 1 ==> diffs[k] == sequence[k + 1] - sequence[k]
      decreases |sequence| - i
    {
      diffs := diffs + [sequence[i] - sequence[i - 1]];
      i := i + 1;
    }
    var d := Diffs(sequence);
    assert |d| == |diffs|;
    forall k | 0 <= k < |diffs|
      ensures diffs[k] == d[k]
    {
      assert diffs[k] == sequence[k + 1] - sequence[k];
      assert d[k] == sequence[k + 1] - sequence[k];
    }
  }

  /** Appending a value appends its difference from the old last element. */
  lemma {:induction false} DiffsAppend(s: seq<int>, x: int)
    requires |s| >= 1
    ensures Diffs(s + [x]) == Diffs(s) + [x - s[|s| - 1]]
    decreases |s|
  {
    if |s| >= 2 {
      assert (s + [x])[1..] == s[1..] + [x];
      DiffsAppend(s[1..], x);
    }
  }

  /** Prepending a value prepends the old first element's difference from it. */
  lemma DiffsPrepend(x: int, s: seq<int>)
    requires |s| >= 1
    ensures Diffs([x] + s) == [s[0] - x] + Diffs(s)
  {
    var a, b := Diffs([x] + s), [s[0] - x] + Diffs(s);
    assert |a| == |b|;
    forall i | 0 <= i < |a|
      ensures a[i] == b[i]
    {
      if i > 0 {
        assert ([x] + s)[i + 1] == s[i] && ([x] + s)[i] == s[i - 1];
      }
    }
  }

  predicate AllZero(s: seq<int>)
  {
    forall i :: 0 <= i < |s| ==> s[i] == 0
  }

  /** A level of zeros sums to 0 and differences to zeros. */
  lemma AllZeroSum(s: seq<int>)
    requires AllZero(s)
    ensures Arithmetic.Sum(s) == 0 && AllZero(Diffs(s))
  {
    ZerosSumToZero(s);
    var d := Diffs(s);
    forall i | 0 <= i < |d|
      ensures d[i] == 0
    {
      assert d[i] == s[i + 1] - s[i];
    }
  }

  lemma {:induction false} ZerosSumToZero(s: seq<int>)
    requires AllZero(s)
    ensures Arithmetic.Sum(s) == 0
    decreases |s|
  {
    if s != [] {
      var init := s[..|s| - 1];
      assert forall i :: 0 <= i < |init| ==> init[i] == s[i];
      ZerosSumToZero(init);
    }
  }

  /** The `k`-th level of differences; level 0 is the history itself. */
  function Level(s: seq<int>, k: nat): (r: seq<int>)
    decreases k
  {
    if k == 0 then s else Level(Diffs(s), k - 1)
  }

  /** Every level below a level of zeros is zeros. */
  lemma {:induction false} AllZeroLevel(s: seq<int>, k: nat)
    requires AllZero(s)
    ensures AllZero(Level(s, k))
    decreases k
  {
    if k > 0 {
      AllZeroSum(s);
      AllZeroLevel(Diffs(s), k - 1);
    }
  }

  /** The last elements of every level from `d` on, one level per round of the `while` loop. */
  function Lasts(d: seq<int>): seq<int>
    decreases |d|
  {
    if Arithmetic.Sum(d) == 0 then []
    else
      assert d != [];
      [d[|d| - 1]] + Lasts(Diffs(d))
  }

  /** The first elements of every level from `d` on, as the backward loop collects them. */
  function Firsts(d: seq<int>): seq<int>
    decreases |d|
  {
    if Arithmetic.Sum(d) == 0 then []
    else
      assert d != [];
      [d[0]] + Firsts(Diffs(d))
  }

  /** `extrapolateForward` as written: stop at the first level whose sum is 0. */
  function Forward(s: seq<int>): int
    requires |s| >= 2
  {
    Arithmetic.Sum([s[|s| - 1]] + Lasts(Diffs(s)))
  }

  /** `extrapolateForward`, the throw included. */
  method ExtrapolateForward(sequence: seq<int>) returns (r: Result<int>)
    ensures |sequence| < 2 ==> r == Failure("Sequence must have at least 2 numbers")
    ensures |sequence| >= 2 ==> r == Success(Forward(sequence))
  {
    if |sequence| < 2 {
      return Failure("Sequence must have at least 2 numbers");
    }
    var lastNumbers := [sequence[|sequence| - 1]];
    var diffs := GetDiffs(sequence);
    while Arithmetic.Sum(diffs) != 0
      invariant lastNumbers + Lasts(diffs) == [sequence[|sequence| - 1]] + Lasts(Diffs(sequence))
      decreases |diffs|
    {
      assert diffs != [];
      assert Lasts(diffs) == [diffs[|diffs| - 1]] + Lasts(Diffs(diffs));
      assert lastNumbers + Lasts(diffs) == (lastNumbers + [diffs[|diffs| - 1]]) + Lasts(Diffs(diffs));
      lastNumbers := lastNumbers + [diffs[|diffs| - 1]];
      diffs := GetDiffs(diffs);
    }
    assert lastNumbers + [] == lastNumbers;
    return Success(Arithmetic.Sum(lastNumbers));
  }

  function Reverse(s: seq<int>): (r: seq<int>)
    ensures |r| == |s| && forall i :: 0 <= i < |s| ==> r[i] == s[|s| - 1 - i]
    decreases |s|
  {
    if s == [] then [] else Reverse(s[1..]) + [s[0]]
  }

  /** `reduce((delta, x) => x - delta, init)`. */
  function FoldSub(xs: seq<int>, delta: int): int
    decreases |xs|
  {
    if xs == [] then delta else FoldSub(xs[1..], xs[0] - delta)
  }

  /** The alternating sum `f0 - (f1 - (f2 - ...))`. */
  function Alternating(f: seq<int>): int
    decreases |f|
  {
    if f == [] then 0 else f[0] - Alternating(f[1..])
  }

  lemma {:induction false} FoldSubAppend(a: seq<int>, x: int, delta: int)
    ensures FoldSub(a + [x], delta) == x - FoldSub(a, delta)
    decreases |a|
  {
    if a != [] {
      assert (a + [x])[1..] == a[1..] + [x];
      FoldSubAppend(a[1..], x, a[0] - delta);
    }
  }

  /** Folding the reversed first elements from 0 yields their alternating sum. */
  lemma {:induction false} FoldSubReverse(f: seq<int>)
    ensures FoldSub(Reverse(f), 0) == Alternating(f)
    decreases |f|
  {
    if f != [] {
      FoldSubAppend(Reverse(f[1..]), f[0], 0);
      FoldSubReverse(f[1..]);
    }
  }

  /** `extrapolateBackward` as written: stop at the first level whose sum is 0. */
  function Backward(s: seq<int>): int
    requires |s| >= 2
  {
    FoldSub(Reverse([s[0]] + Firsts(Diffs(s))), 0)
  }

  /** `extrapolateBackward`, the throw included. */
  method ExtrapolateBackward(sequence: seq<int>) returns (r: Result<int>)
    ensures |sequence| < 2 ==> r == Failure("Sequence must have at least 2 numbers")
    ensures |sequence| >= 2 ==> r == Success(Backward(sequence))
  {
    if |sequence| < 2 {
      return Failure("Sequence must have at least 2 numbers");
    }
    var firstNumbers := [sequence[0]];
    var diffs := GetDiffs(sequence);
    while Arithmetic.Sum(diffs) != 0
      invariant firstNumbers + Firsts(diffs) == [sequence[0]] + Firsts(Diffs(sequence))
      decreases |diffs|
    {
      assert diffs != [];
      assert Firsts(diffs) == [diffs[0]] + Firsts(Diffs(diffs));
      assert firstNumbers + Firsts(diffs) == (firstNumbers + [diffs[0]]) + Firsts(Diffs(diffs));
      firstNumbers := firstNumbers + [diffs[0]];
      diffs := GetDiffs(diffs);
    }
    assert firstNumbers + [] == firstNumbers;
    return Success(FoldSub(Reverse(firstNumbers), 0));
  }

  /** The next value: zero once a level is all zeros, else the last element plus the next difference. */
  function Next(s: seq<int>): int
    decreases |s|
  {
    if AllZero(s) then 0 else s[|s| - 1] + Next(Diffs(s))
  }

  /** The previous value: the first element minus the previous difference. */
  function Prev(s: seq<int>): int
    decreases |s|
  {
    if AllZero(s) then 0 else s[0] - Prev(Diffs(s))
  }

  /**
   * Extending a history by its next value keeps its degree: whichever level of differences was
   * all zeros stays all zeros.
   */
  lemma {:induction false} NextKeepsDegree(s: seq<int>, k: nat)
    requires AllZero(Level(s, k))
    ensures AllZero(Level(s + [Next(s)], k))
    decreases k
  {
    if AllZero(s) {
      AllZeroLevel(s + [0], k);
    } else if k > 0 {
      DiffsAppend(s, Next(s));
      NextKeepsDegree(Diffs(s), k - 1);
    }
  }

  /** Extending a history in front by its previous value keeps its degree too. */
  lemma {:induction false} PrevKeepsDegree(s: seq<int>, k: nat)
    requires AllZero(Level(s, k))
    ensures AllZero(Level([Prev(s)] + s, k))
    decreases k
  {
    if AllZero(s) {
      AllZeroLevel([0] + s, k);
    } else if k > 0 {
      DiffsPrepend(Prev(s), s);
      PrevKeepsDegree(Diffs(s), k - 1);
    }
  }

  /** No level of differences sums to 0 unless it is all zeros. */
  ghost predicate HonestSums(d: seq<int>)
  {
    forall k: nat :: Arithmetic.Sum(Level(d, k)) == 0 ==> AllZero(Level(d, k))
  }

  lemma HonestBelow(d: seq<int>)
    requires HonestSums(d)
    ensures HonestSums(Diffs(d))
  {
    forall k: nat | Arithmetic.Sum(Level(Diffs(d), k)) == 0
      ensures AllZero(Level(Diffs(d), k))
    {
      assert Level(d, k + 1) == Level(Diffs(d), k);
    }
  }

  /** The next value of a history whose level sums are honest is the sum of the last elements. */
  lemma {:induction false} LastsAgree(d: seq<int>)
    requires HonestSums(d)
    ensures Arithmetic.Sum(Lasts(d)) == Next(d)
    decreases |d|
  {
    assert Level(d, 0) == d;
    if Arithmetic.Sum(d) == 0 {
    } else {
      HonestBelow(d);
      LastsAgree(Diffs(d));
      if AllZero(d) {
        AllZeroSum(d);
      }
      Arithmetic.SumAppend([d[|d| - 1]], Lasts(Diffs(d)));
      assert Arithmetic.Sum([d[|d| - 1]]) == d[|d| - 1];
    }
  }

  /** The previous value of such a history is the alternating sum of the first elements. */
  lemma {:induction false} FirstsAgree(d: seq<int>)
    requires HonestSums(d)
    ensures Alternating(Firsts(d)) == Prev(d)
    decreases |d|
  {
    assert Level(d, 0) == d;
    if Arithmetic.Sum(d) != 0 {
      HonestBelow(d);
      FirstsAgree(Diffs(d));
      if AllZero(d) {
        AllZeroSum(d);
      }
      assert ([d[0]] + Firsts(Diffs(d)))[1..] == Firsts(Diffs(d));
    }
  }

  /** A level of zeros, if it has a next value, has 0; its next value is the last element plus 0. */
  lemma NextStep(s: seq<int>)
    requires |s| >= 1
    ensures Next(s) == s[|s| - 1] + Next(Diffs(s)) && Prev(s) == s[0] - Prev(Diffs(s))
  {
    if AllZero(s) {
      AllZeroSum(s);
      assert Next(Diffs(s)) == 0 && Prev(Diffs(s)) == 0;
    }
  }

  /** Where the sums never stop the loops early, they compute the next and previous values. */
  lemma ExtrapolationsAgree(s: seq<int>)
    requires |s| >= 2 && HonestSums(Diffs(s))
    ensures Forward(s) == Next(s) && Backward(s) == Prev(s)
  {
    NextStep(s);
    LastsAgree(Diffs(s));
    Arithmetic.SumAppend([s[|s| - 1]], Lasts(Diffs(s)));
    assert Arithmetic.Sum([s[|s| - 1]]) == s[|s| - 1];
    FirstsAgree(Diffs(s));
    FoldSubReverse([s[0]] + Firsts(Diffs(s)));
    assert ([s[0]] + Firsts(Diffs(s)))[1..] == Firsts(Diffs(s));
  }

  /**
   * The loops stop on a level that sums to 0 without being zeros: for `0 1 0` the first
   * differences `1 -1` sum to 0, so both directions yield 0, and the history extended by that
   * 0 no longer has zero third differences.
   */
  lemma SumStopsEarly()
    ensures Forward([0, 1, 0]) == 0 && Backward([0, 1, 0]) == 0
    ensures AllZero(Level([0, 1, 0], 3)) && !AllZero(Level([0, 1, 0, 0], 3))
  {
    DiffsOfThree(0, 1, 0);
    assert [1, -1][..1] == [1];
    assert Arithmetic.Sum([1, -1]) == 0;
    assert Lasts([1, -1]) == [] && Firsts([1, -1]) == [];
    assert [0] + [] == [0] && [0][..0] == [];
    assert Reverse([0]) == [0];
    LevelsOfZeroOneZero();
  }

  lemma DiffsOfTwo(a: int, b: int)
    ensures Diffs([a, b]) == [b - a]
  {
  }

  lemma DiffsOfThree(a: int, b: int, c: int)
    ensures Diffs([a, b, c]) == [b - a, c - b]
  {
    assert [a, b, c][1..] == [b, c];
    DiffsOfTwo(b, c);
  }

  lemma DiffsOfFour(a: int, b: int, c: int, d: int)
    ensures Diffs([a, b, c, d]) == [b - a, c - b, d - c]
  {
    assert [a, b, c, d][1..] == [b, c, d];
    DiffsOfThree(b, c, d);
  }

  /** The third differences of `0 1 0` are empty and those of `0 1 0 0` are `3`. */
  lemma LevelsOfZeroOneZero()
    ensures AllZero(Level([0, 1, 0], 3)) && Level([0, 1, 0, 0], 3) == [3]
  {
    DiffsOfThree(0, 1, 0);
    assert Level([0, 1, 0], 3) == Level([1, -1], 2);
    DiffsOfTwo(1, -1);
    assert Level([1, -1], 2) == Level([-2], 1);
    assert Diffs([-2]) == [];
    assert Level([-2], 1) == [];
    DiffsOfFour(0, 1, 0, 0);
    assert Level([0, 1, 0, 0], 3) == Level([1, -1, 0], 2);
    DiffsOfThree(1, -1, 0);
    assert Level([1, -1, 0], 2) == Level([-2, 1], 1);
    DiffsOfTwo(-2, 1);
    assert Level([-2, 1], 1) == [3];
  }

  /** Extended by -3 on either side, `0 1 0` keeps zero third differences. */
  lemma ExtendedLevels()
    ensures Level([0, 1, 0, -3], 3) == [0] && Level([-3, 0, 1, 0], 3) == [0]
  {
    DiffsOfFour(0, 1, 0, -3);
    DiffsOfThree(1, -1, -3);
    DiffsOfTwo(-2, -2);
    DiffsOfFour(-3, 0, 1, 0);
    DiffsOfThree(3, 1, -1);
    assert Level([0, 1, 0, -3], 3) == Level([0], 0);
    assert Level([-3, 0, 1, 0], 3) == Level([0], 0);
  }

  /** With the corrected stop, `0 1 0` continues with -3 on both sides. */
  lemma NextOfZeroOneZero()
    ensures Next([0, 1, 0]) == -3 && Prev([0, 1, 0]) == -3
  {
    DiffsOfThree(0, 1, 0);
    DiffsOfTwo(1, -1);
    assert Diffs([-2]) == [];
    assert [0, 1, 0][1] != 0 && [1, -1][0] != 0 && [-2][0] != 0;
    assert Next([-2]) == -2 && Prev([-2]) == -2;
    assert Next([1, -1]) == -3 && Prev([1, -1]) == 3;
  }

  /** The extrapolation `part1` (`forward`) or `part2` takes of one history. */
  function Extrapolate(h: seq<int>, forward: bool): int
    requires |h| >= 2
  {
    if forward then Forward(h) else Backward(h)
  }

  /** Every history's extrapolation, in order. */
  function Values(histories: seq<seq<int>>, forward: bool, n: nat): (r: seq<int>)
    requires n <= |histories| && forall k :: 0 <= k < n ==> |histories[k]| >= 2
    ensures |r| == n
  {
    seq(n, k requires 0 <= k < n && |histories[k]| >= 2 => Extrapolate(histories[k], forward))
  }

  /**
   * `part1` (`forward`) and `part2`: the sum of every history's extrapolation, or the error
   * of the first history that is too short.
   */
  method Solve(histories: seq<seq<int>>, forward: bool) returns (r: Result<int>)
    ensures r.Success? <==> forall k :: 0 <= k < |histories| ==> |histories[k]| >= 2
    ensures r.Failure? ==> r.error == "Sequence must have at least 2 numbers"
    ensures r.Success? ==> r.value == Arithmetic.Sum(Values(histories, forward, |histories|))
  {
    var values: seq<int> := [];
    var i := 0;
    while i < |histories|
      invariant 0 <= i <= |histories| && forall k :: 0 <= k < i ==> |histories[k]| >= 2
      invariant values == Values(histories, forward, i)
      decreases |histories| - i
    {
      var e;
      if forward {
        e := ExtrapolateForward(histories[i]);
      } else {
        e := ExtrapolateBackward(histories[i]);
      }
      if e.Failure? {
        return Failure(e.error);
      }
      assert Values(histories, forward, i + 1) == values + [e.value];
      values := values + [e.value];
      i := i + 1;
    }
    return Success(Arithmetic.Sum(values));
  }

  /** Where no history's sums stop the loops early, the parts sum the true next or previous values. */
  lemma SolveAgrees(histories: seq<seq<int>>, forward: bool, k: nat)
    requires forall j :: 0 <= j < |histories| ==> |histories[j]| >= 2 && HonestSums(Diffs(histories[j]))
    requires k < |histories|
    ensures Values(histories, forward, |histories|)[k] == if forward then Next(histories[k]) else Prev(histories[k])
  {
    ExtrapolationsAgree(histories[k]);
  }
}
