/** `range(start, end)`: `Array.from({length: end - start}, (_, i) => i + start)`. */
module Ranges {
  function Range(start: int, end: int): (r: seq<int>)
    ensures |r| == if end > start then end - start else 0
    ensures forall i :: 0 <= i < |r| ==> r[i] == start + i
  {
    // a negative length is clamped to 0, as Array.from does
    seq(if end > start then end - start else 0, i => start + i)
  }

  /** The range holds exactly the integers of [start, end). */
  lemma RangeMembers(start: int, end: int, x: int)
    ensures x in Range(start, end) <==> start <= x < end
  {
    if start <= x < end {
      assert Range(start, end)[x - start] == x;
    }
  }

  lemma RangeIncreasing(start: int, end: int)
    ensures forall i, j :: 0 <= i < j < |Range(start, end)| ==> Range(start, end)[i] < Range(start, end)[j]
  {
  }

  lemma RangeEmpty(a: int)
    ensures Range(a, a) == []
  {
  }
}
