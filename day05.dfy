/**
 * Day 5: the almanac. Each level's map is a list of groups `(destination start, source start,
 * count)`; a number inside a group's source interval moves by `destination - source`, any other
 * number stays. Part 1 maps single seeds through every level; part 2 maps whole intervals,
 * splitting them at the group boundaries.
 */
module Day05 {
  import opened Wrappers
  import Arithmetic
  import Sorting

  datatype Group = Group(dst: int, src: int, count: int)

  /** A `Range`: `count` numbers from `start` on. */
  datatype Span = Span(start: int, count: int)

  function SourceStart(g: Group): int
  {
    g.src
  }

  /** The groups of a map string's numbers, three at a time, in the order written. */
  function Triples(numbers: seq<int>): (gs: seq<Group>)
    requires |numbers| % 3 == 0
    ensures |gs| == |numbers| / 3
    ensures forall k :: 0 <= k < |gs| ==> gs[k] == Group(numbers[3 * k], numbers[3 * k + 1], numbers[3 * k + 2])
  {
    seq(|numbers| / 3, k requires 0 <= k < |numbers| / 3 => Group(numbers[3 * k], numbers[3 * k + 1], numbers[3 * k + 2]))
  }

  /** `parseMapStrings` for one map: the numbers grouped in threes, then sorted by source start. */
  method ParseMapString(numbers: seq<int>) returns (groups: seq<Group>)
    requires |numbers| % 3 == 0
    ensures groups == Sorting.SortBy(Triples(numbers), SourceStart)
    ensures Sorting.SortedBy(groups, SourceStart) && multiset(groups) == multiset(Triples(numbers))
  {
    var gs: seq<Group> := [];
    var i := 0;
    while i < |numbers|
      invariant 0 <= i <= |numbers| && i % 3 == 0 && gs == Triples(numbers)[..i / 3]
      decreases |numbers| - i
    {
      gs := gs + [Group(numbers[i], numbers[i + 1], numbers[i + 2])];
      i := i + 3;
    }
    assert gs == Triples(numbers);
    groups := Sorting.SortBy(gs, SourceStart);
    Sorting.SortBySortsAndPermutes(gs, SourceStart);
  }

  predicate InGroup(g: Group, n: int)
  {
    g.src <= n < g.src + g.count
  }

  /** Part 1's mapping of one number: the groups in order, stopping at the first that starts after it. */
  function MapNumber(gs: seq<Group>, n: int): int
    decreases |gs|
  {
    if gs == [] then n
    else if n < gs[0].src then n
    else if InGroup(gs[0], n) then gs[0].dst + (n - gs[0].src)
    else MapNumber(gs[1..], n)
  }

  /**
   * With the groups sorted by source start, a number inside no group stays, and a number inside
   * a group moves by that group's (the first such group's) offset.
   */
  lemma {:induction false} MapNumberSpec(gs: seq<Group>, n: int)
    requires Sorting.SortedBy(gs, SourceStart)
    ensures (forall k :: 0 <= k < |gs| ==> !InGroup(gs[k], n)) ==> MapNumber(gs, n) == n
    ensures forall k :: 0 <= k < |gs| && InGroup(gs[k], n) && (forall j :: 0 <= j < k ==> !InGroup(gs[j], n)) ==>
      MapNumber(gs, n) == gs[k].dst + (n - gs[k].src)
    decreases |gs|
  {
    if gs != [] {
      assert forall k :: 1 <= k < |gs| ==> gs[k] == gs[1..][k - 1];
      if n < gs[0].src {
        assert forall k :: 0 <= k < |gs| ==> gs[0].src <= gs[k].src;
      } else if !InGroup(gs[0], n) {
        MapNumberSpec(gs[1..], n);
        forall k | 1 <= k < |gs| && InGroup(gs[k], n) && (forall j :: 0 <= j < k ==> !InGroup(gs[j], n))
          ensures MapNumber(gs, n) == gs[k].dst + (n - gs[k].src)
        {
          assert forall j :: 0 <= j < k - 1 ==> gs[1..][j] == gs[j + 1];
        }
      }
    }
  }

  /** A number through every level, in order. */
  function Locate(levels: seq<seq<Group>>, n: int): int
    decreases |levels|
  {
    if levels == [] then n else Locate(levels[1..], MapNumber(levels[0], n))
  }

  function Locations(levels: seq<seq<Group>>, seeds: seq<int>): (r: seq<int>)
    ensures |r| == |seeds| && forall i :: 0 <= i < |seeds| ==> r[i] == Locate(levels, seeds[i])
  {
    seq(|seeds|, i requires 0 <= i < |seeds| => Locate(levels, seeds[i]))
  }

  /** `part1`: the lowest location of any seed; `Math.min` of nothing is infinite. */
  function Part1(levels: seq<seq<Group>>, seeds: seq<int>): (r: Option<int>)
    ensures r.None? <==> seeds == []
    ensures r.Some? ==>
      (exists i :: 0 <= i < |seeds| && r.value == Locate(levels, seeds[i]))
      && forall i :: 0 <= i < |seeds| ==> r.value <= Locate(levels, seeds[i])
  {
    if seeds == [] then None
    else
      var m := Arithmetic.Min(Locations(levels, seeds));
      Some(m)
  }

  /** A piece of the input interval: `count` numbers from `from`, moved by `shift`. */
  datatype Piece = Piece(from: int, count: int, shift: int)

  predicate InPiece(p: Piece, n: int)
  {
    p.from <= n < p.from + p.count
  }

  /** `n` is one of the `rem` numbers from `first`. */
  predicate Within(first: int, rem: int, n: int)
  {
    first <= n < first + rem
  }

  /** The unmoved piece before a group starting at `src`, when the interval starts earlier. */
  function Before(first: int, src: int): seq<Piece>
  {
    if src - first > 0 then [Piece(first, src - first, 0)] else []
  }

  /**
   * `mapRange` on `rem` numbers from `first`: the pieces it cuts them into, group by group,
   * each with the offset it moves by.
   */
  function Cut(first: int, rem: int, gs: seq<Group>): seq<Piece>
    decreases |gs|, 1
  {
    if gs == [] then [Piece(first, rem, 0)]
    else if rem == 0 then []
    else if first + rem - 1 < gs[0].src then [Piece(first, rem, 0)]
    else if gs[0].src - first > 0 then Before(first, gs[0].src) + Inside(gs[0].src, rem - (gs[0].src - first), gs)
    else Inside(first, rem, gs)
  }

  /** The rest of one iteration, once the interval starts inside or past the first group. */
  function Inside(f: int, r: int, gs: seq<Group>): seq<Piece>
    requires gs != []
    decreases |gs|, 0
  {
    var g := gs[0];
    var lastIn, diff := g.src + g.count - 1, g.dst - g.src;
    if r == 0 then []
    else if f + r - 1 <= lastIn then [Piece(f, r, diff)]
    else if f <= lastIn then [Piece(f, lastIn + 1 - f, diff)] + Cut(lastIn + 1, f + r - (lastIn + 1), gs[1..])
    else Cut(f, r, gs[1..])
  }

  /** Each piece as the output range it becomes: its numbers moved by its offset. */
  function Spans(ps: seq<Piece>): seq<Span>
    decreases |ps|
  {
    if ps == [] then [] else [Span(ps[0].from + ps[0].shift, ps[0].count)] + Spans(ps[1..])
  }

  lemma {:induction false} SpansIndex(ps: seq<Piece>)
    ensures |Spans(ps)| == |ps|
    ensures forall i :: 0 <= i < |ps| ==> Spans(ps)[i] == Span(ps[i].from + ps[i].shift, ps[i].count)
    decreases |ps|
  {
    if ps != [] {
      SpansIndex(ps[1..]);
      assert forall i :: 1 <= i < |ps| ==> ps[i] == ps[1..][i - 1];
    }
  }

  lemma {:induction false} SpansAppend(a: seq<Piece>, b: seq<Piece>)
    ensures Spans(a + b) == Spans(a) + Spans(b)
    decreases |a|
  {
    if a == [] {
      assert a + b == b;
    } else {
      assert (a + b)[0] == a[0] && (a + b)[1..] == a[1..] + b;
      SpansAppend(a[1..], b);
    }
  }

  /** The pieces tile `rem` numbers from `first`: consecutive, in order, none negative. */
  predicate Tiles(ps: seq<Piece>, first: int, rem: int)
    decreases |ps|
  {
    if ps == [] then rem == 0
    else ps[0].from == first && 0 <= ps[0].count <= rem && Tiles(ps[1..], first + ps[0].count, rem - ps[0].count)
  }

  lemma {:induction false} TilesAppend(a: seq<Piece>, b: seq<Piece>, first: int, k: int, rem: int)
    requires Tiles(a, first, k) && Tiles(b, first + k, rem - k)
    ensures Tiles(a + b, first, rem)
    decreases |a|
  {
    if a == [] {
      assert a + b == b;
    } else {
      assert (a + b)[0] == a[0] && (a + b)[1..] == a[1..] + b;
      TilesAppend(a[1..], b, first + a[0].count, k - a[0].count, rem - a[0].count);
    }
  }

  function Counts(ps: seq<Piece>): (r: seq<int>)
    ensures |r| == |ps| && forall i :: 0 <= i < |ps| ==> r[i] == ps[i].count
  {
    seq(|ps|, i requires 0 <= i < |ps| => ps[i].count)
  }

  /** Tiling pieces hold as many numbers as the interval, every one of them inside it, and miss none. */
  lemma TilesExactly(ps: seq<Piece>, first: int, rem: int)
    requires Tiles(ps, first, rem)
    ensures Arithmetic.Sum(Counts(ps)) == rem
    ensures forall i :: 0 <= i < |ps| ==> ps[i].count >= 0
    ensures forall i, n :: 0 <= i < |ps| && InPiece(ps[i], n) ==> Within(first, rem, n)
    ensures forall n :: Within(first, rem, n) ==> exists i :: 0 <= i < |ps| && InPiece(ps[i], n)
  {
    TilesSum(ps, first, rem);
    TilesInside(ps, first, rem);
    forall n | Within(first, rem, n)
      ensures exists i :: 0 <= i < |ps| && InPiece(ps[i], n)
    {
      TilesCover(ps, first, rem, n);
    }
  }

  lemma {:induction false} TilesSum(ps: seq<Piece>, first: int, rem: int)
    requires Tiles(ps, first, rem)
    ensures Arithmetic.Sum(Counts(ps)) == rem
    decreases |ps|
  {
    if ps != [] {
      var rest := ps[1..];
      TilesSum(rest, first + ps[0].count, rem - ps[0].count);
      assert Counts(ps) == [ps[0].count] + Counts(rest);
      Arithmetic.SumAppend([ps[0].count], Counts(rest));
      assert Arithmetic.Sum([ps[0].count]) == ps[0].count by {
        assert [ps[0].count][..0] == [];
      }
    }
  }

  lemma {:induction false} TilesInside(ps: seq<Piece>, first: int, rem: int)
    requires Tiles(ps, first, rem)
    ensures forall i :: 0 <= i < |ps| ==> ps[i].count >= 0
    ensures forall i, n :: 0 <= i < |ps| && InPiece(ps[i], n) ==> Within(first, rem, n)
    decreases |ps|
  {
    if ps != [] {
      var rest := ps[1..];
      TilesInside(rest, first + ps[0].count, rem - ps[0].count);
      assert forall i :: 1 <= i < |ps| ==> ps[i] == rest[i - 1];
      forall i, n | 0 <= i < |ps| && InPiece(ps[i], n)
        ensures Within(first, rem, n)
      {
        if i > 0 {
          assert InPiece(rest[i - 1], n);
          assert Within(first + ps[0].count, rem - ps[0].count, n);
        } else {
          assert ps[0].count <= rem;
        }
      }
    }
  }

  lemma {:induction false} TilesCover(ps: seq<Piece>, first: int, rem: int, n: int)
    requires Tiles(ps, first, rem) && Within(first, rem, n)
    ensures exists i :: 0 <= i < |ps| && InPiece(ps[i], n)
    decreases |ps|
  {
    if n >= first + ps[0].count {
      var rest := ps[1..];
      TilesCover(rest, first + ps[0].count, rem - ps[0].count, n);
      var i :| 0 <= i < |rest| && InPiece(rest[i], n);
      assert ps[i + 1] == rest[i];
    } else {
      assert InPiece(ps[0], n);
    }
  }

  predicate NonNegativeCounts(gs: seq<Group>)
  {
    forall k :: 0 <= k < |gs| ==> gs[k].count >= 0
  }

  /** `mapRange` cuts the interval into pieces that tile it. */
  lemma {:induction false} CutTiles(first: int, rem: int, gs: seq<Group>)
    requires rem >= 0 && NonNegativeCounts(gs)
    ensures Tiles(Cut(first, rem, gs), first, rem)
    decreases |gs|, 1
  {
    if gs != [] && rem != 0 && first + rem - 1 >= gs[0].src {
      var src := gs[0].src;
      if src - first > 0 {
        InsideTiles(src, rem - (src - first), gs);
        TilesAppend(Before(first, src), Inside(src, rem - (src - first), gs), first, src - first, rem);
      } else {
        InsideTiles(first, rem, gs);
      }
    }
  }

  lemma {:induction false} InsideTiles(f: int, r: int, gs: seq<Group>)
    requires gs != [] && r >= 0 && NonNegativeCounts(gs)
    ensures Tiles(Inside(f, r, gs), f, r)
    decreases |gs|, 0
  {
    var g := gs[0];
    var lastIn, diff := g.src + g.count - 1, g.dst - g.src;
    assert NonNegativeCounts(gs[1..]);
    if r != 0 && f + r - 1 > lastIn {
      if f <= lastIn {
        var tail := Cut(lastIn + 1, f + r - (lastIn + 1), gs[1..]);
        CutTiles(lastIn + 1, f + r - (lastIn + 1), gs[1..]);
        TilesAppend([Piece(f, lastIn + 1 - f, diff)], tail, f, lastIn + 1 - f, r);
      } else {
        CutTiles(f, r, gs[1..]);
      }
    }
  }

  /** Every number of every piece is moved by the piece's offset exactly as part 1 moves it. */
  ghost predicate Agrees(gs: seq<Group>, ps: seq<Piece>)
  {
    forall i, n :: 0 <= i < |ps| && InPiece(ps[i], n) ==> MapNumber(gs, n) == n + ps[i].shift
  }

  lemma AgreesAppend(gs: seq<Group>, a: seq<Piece>, b: seq<Piece>)
    requires Agrees(gs, a) && Agrees(gs, b)
    ensures Agrees(gs, a + b)
  {
    forall i, n | 0 <= i < |a + b| && InPiece((a + b)[i], n)
      ensures MapNumber(gs, n) == n + (a + b)[i].shift
    {
      if i >= |a| {
        assert (a + b)[i] == b[i - |a|];
      } else {
        assert (a + b)[i] == a[i];
      }
    }
  }

  /** Pieces past the first group, agreeing with the remaining groups, agree with all of them. */
  lemma AgreesLater(gs: seq<Group>, ps: seq<Piece>, lo: int, rem: int)
    requires gs != [] && gs[0].count >= 0 && lo > gs[0].src + gs[0].count - 1
    requires Agrees(gs[1..], ps) && Tiles(ps, lo, rem)
    ensures Agrees(gs, ps)
  {
    TilesExactly(ps, lo, rem);
    forall i, n | 0 <= i < |ps| && InPiece(ps[i], n)
      ensures MapNumber(gs, n) == n + ps[i].shift
    {
      assert Within(lo, rem, n);
    }
  }

  /** `mapRange` moves every number of the interval as part 1 does, whatever the order of the groups. */
  lemma {:induction false} CutAgrees(first: int, rem: int, gs: seq<Group>)
    requires rem >= 0 && NonNegativeCounts(gs)
    ensures Agrees(gs, Cut(first, rem, gs))
    decreases |gs|, 2
  {
    if gs != [] && rem != 0 && first + rem - 1 >= gs[0].src {
      var src := gs[0].src;
      if src - first > 0 {
        InsideAgrees(src, rem - (src - first), gs);
        assert Agrees(gs, Before(first, src));
        AgreesAppend(gs, Before(first, src), Inside(src, rem - (src - first), gs));
      } else {
        InsideAgrees(first, rem, gs);
      }
    }
  }

  lemma {:induction false} InsideAgrees(f: int, r: int, gs: seq<Group>)
    requires gs != [] && r >= 0 && NonNegativeCounts(gs) && f >= gs[0].src
    ensures Agrees(gs, Inside(f, r, gs))
    decreases |gs|, 1
  {
    var lastIn := gs[0].src + gs[0].count - 1;
    if r != 0 && f + r - 1 > lastIn {
      if f <= lastIn {
        InsideAgreesAcross(f, r, gs);
      } else {
        InsideAgreesPast(f, r, gs);
      }
    }
  }

  lemma {:induction false} InsideAgreesAcross(f: int, r: int, gs: seq<Group>)
    requires gs != [] && r > 0 && NonNegativeCounts(gs) && f >= gs[0].src
    requires f <= gs[0].src + gs[0].count - 1 < f + r - 1
    ensures Agrees(gs, Inside(f, r, gs))
    decreases |gs|, 0
  {
    var g := gs[0];
    var lastIn, diff := g.src + g.count - 1, g.dst - g.src;
    assert NonNegativeCounts(gs[1..]);
    var tail := Cut(lastIn + 1, f + r - (lastIn + 1), gs[1..]);
    CutAgrees(lastIn + 1, f + r - (lastIn + 1), gs[1..]);
    CutTiles(lastIn + 1, f + r - (lastIn + 1), gs[1..]);
    AgreesLater(gs, tail, lastIn + 1, f + r - (lastIn + 1));
    assert Agrees(gs, [Piece(f, lastIn + 1 - f, diff)]);
    AgreesAppend(gs, [Piece(f, lastIn + 1 - f, diff)], tail);
  }

  lemma {:induction false} InsideAgreesPast(f: int, r: int, gs: seq<Group>)
    requires gs != [] && r > 0 && NonNegativeCounts(gs)
    requires gs[0].src + gs[0].count - 1 < f
    ensures Agrees(gs, Inside(f, r, gs))
    decreases |gs|, 0
  {
    assert NonNegativeCounts(gs[1..]);
    CutAgrees(f, r, gs[1..]);
    CutTiles(f, r, gs[1..]);
    AgreesLater(gs, Cut(f, r, gs[1..]), f, r);
  }

  predicate InSpan(s: Span, m: int)
  {
    s.start <= m < s.start + s.count
  }

  /** `mapRange`'s result: the pieces, each moved by its offset. */
  function MapRangeOf(input: Span, gs: seq<Group>): seq<Span>
  {
    Spans(Cut(input.start, input.count, gs))
  }

  /**
   * `mapRange` maps an interval to exactly the numbers part 1 maps its members to: every
   * member's image lies in an output interval, every output number is some member's image, no
   * output count is negative, and the output counts add up to the input count.
   */
  lemma MapRangeImage(input: Span, gs: seq<Group>)
    requires input.count >= 0 && NonNegativeCounts(gs)
    ensures var out := MapRangeOf(input, gs);
      (forall n :: InSpan(input, n) ==> exists j :: 0 <= j < |out| && InSpan(out[j], MapNumber(gs, n)))
      && (forall j, m :: 0 <= j < |out| && InSpan(out[j], m) ==> exists n :: InSpan(input, n) && MapNumber(gs, n) == m)
      && (forall j :: 0 <= j < |out| ==> out[j].count >= 0)
      && Arithmetic.Sum(Counts(Cut(input.start, input.count, gs))) == input.count
  {
    var ps := Cut(input.start, input.count, gs);
    var out := MapRangeOf(input, gs);
    CutTiles(input.start, input.count, gs);
    CutAgrees(input.start, input.count, gs);
    TilesExactly(ps, input.start, input.count);
    SpansIndex(ps);
    forall n | InSpan(input, n)
      ensures exists j :: 0 <= j < |out| && InSpan(out[j], MapNumber(gs, n))
    {
      assert Within(input.start, input.count, n);
      var i :| 0 <= i < |ps| && InPiece(ps[i], n);
      assert InSpan(out[i], MapNumber(gs, n));
    }
    forall j, m | 0 <= j < |out| && InSpan(out[j], m)
      ensures exists n :: InSpan(input, n) && MapNumber(gs, n) == m
    {
      var n := m - ps[j].shift;
      assert InPiece(ps[j], n);
      assert Within(input.start, input.count, n);
      assert InSpan(input, n) && MapNumber(gs, n) == m;
    }
  }

  // The outputs of one iteration of `mapRange`'s loop, case by case.

  lemma Associative(a: seq<Span>, b: seq<Span>, c: seq<Span>)
    ensures a + (b + c) == (a + b) + c
  {
  }

  lemma CutAllBefore(first: int, rem: int, gs: seq<Group>)
    requires gs != [] && rem != 0 && first + rem - 1 < gs[0].src
    ensures Spans(Cut(first, rem, gs)) == [Span(first, rem)]
  {
  }

  lemma CutBefore(first: int, rem: int, gs: seq<Group>)
    requires gs != [] && rem != 0 && first + rem - 1 >= gs[0].src && gs[0].src - first > 0
    ensures Spans(Cut(first, rem, gs)) == [Span(first, gs[0].src - first)] + Spans(Inside(gs[0].src, rem - (gs[0].src - first), gs))
  {
    SpansAppend(Before(first, gs[0].src), Inside(gs[0].src, rem - (gs[0].src - first), gs));
  }

  lemma CutAt(first: int, rem: int, gs: seq<Group>)
    requires gs != [] && rem != 0 && first + rem - 1 >= gs[0].src && gs[0].src - first <= 0
    ensures Spans(Cut(first, rem, gs)) == Spans(Inside(first, rem, gs))
  {
  }

  lemma InsideWithin(f: int, r: int, gs: seq<Group>)
    requires gs != [] && r != 0 && f + r - 1 <= gs[0].src + gs[0].count - 1
    ensures Spans(Inside(f, r, gs)) == [Span(f + (gs[0].dst - gs[0].src), r)]
  {
  }

  lemma InsideAcross(f: int, r: int, gs: seq<Group>)
    requires gs != [] && r != 0 && f + r - 1 > gs[0].src + gs[0].count - 1 && f <= gs[0].src + gs[0].count - 1
    ensures var lastIn := gs[0].src + gs[0].count - 1;
      Spans(Inside(f, r, gs)) == [Span(f + (gs[0].dst - gs[0].src), lastIn + 1 - f)] + Spans(Cut(lastIn + 1, f + r - (lastIn + 1), gs[1..]))
  {
    var lastIn, diff := gs[0].src + gs[0].count - 1, gs[0].dst - gs[0].src;
    SpansAppend([Piece(f, lastIn + 1 - f, diff)], Cut(lastIn + 1, f + r - (lastIn + 1), gs[1..]));
  }

  lemma InsidePast(f: int, r: int, gs: seq<Group>)
    requires gs != [] && r != 0 && f + r - 1 > gs[0].src + gs[0].count - 1 && f > gs[0].src + gs[0].count - 1
    ensures Spans(Inside(f, r, gs)) == Spans(Cut(f, r, gs[1..]))
  {
  }

  /**
   * One iteration of `mapRange`'s loop, at the group `groups[0]`: the ranges it pushes, whether
   * it returns, and otherwise the numbers left for the next group. The second
   * `nRemaining === 0` test, after the numbers before the group are cut off, is left out: the
   * interval reaches the group there, so some numbers always remain.
   */
  method MapRangeStep(firstNumber: int, nRemaining: int, groups: seq<Group>) returns (pushed: seq<Span>, done: bool, first': int, rem': int)
    requires groups != []
    ensures done ==> Spans(Cut(firstNumber, nRemaining, groups)) == pushed
    ensures !done ==> Spans(Cut(firstNumber, nRemaining, groups)) == pushed + Spans(Cut(first', rem', groups[1..]))
  {
    var g := groups[0];
    var lastInMapRange := g.src + g.count - 1;
    var lastNumber := firstNumber + nRemaining - 1;
    var rangeDiff := g.dst - g.src;
    first', rem' := firstNumber, nRemaining;
    if nRemaining == 0 {
      assert Cut(firstNumber, nRemaining, groups) == [];
      return [], true, first', rem';
    }
    if lastNumber < g.src {
      CutAllBefore(firstNumber, nRemaining, groups);
      return [Span(firstNumber, nRemaining)], true, first', rem';
    }
    var nBeforeMapRange := g.src - firstNumber;
    pushed := [];
    if nBeforeMapRange > 0 {
      CutBefore(firstNumber, nRemaining, groups);
      pushed := [Span(first', nBeforeMapRange)];
      first' := first' + nBeforeMapRange;
      rem' := rem' - nBeforeMapRange;
    } else {
      CutAt(firstNumber, nRemaining, groups);
    }
    ghost var before := pushed;
    assert Spans(Cut(firstNumber, nRemaining, groups)) == before + Spans(Inside(first', rem', groups));
    if lastNumber <= lastInMapRange {
      InsideWithin(first', rem', groups);
      pushed := pushed + [Span(first' + rangeDiff, rem')];
      return pushed, true, first', rem';
    }
    if first' <= lastInMapRange {
      InsideAcross(first', rem', groups);
      var nInThisRange := g.src + g.count - first';
      ghost var tail := Spans(Cut(first' + nInThisRange, rem' - nInThisRange, groups[1..]));
      Associative(before, [Span(first' + rangeDiff, nInThisRange)], tail);
      pushed := pushed + [Span(first' + rangeDiff, nInThisRange)];
      first' := first' + nInThisRange;
      rem' := rem' - nInThisRange;
    } else {
      InsidePast(first', rem', groups);
    }
    done := false;
  }

  /** `mapRange`: the input interval cut at the groups' boundaries, each piece moved by its group's offset. */
  method MapRange(input: Span, gs: seq<Group>) returns (newRanges: seq<Span>)
    ensures newRanges == MapRangeOf(input, gs)
  {
    var firstNumber, nRemaining := input.start, input.count;
    newRanges := [];
    var groups := gs;
    while groups != []
      invariant MapRangeOf(input, gs) == newRanges + Spans(Cut(firstNumber, nRemaining, groups))
      decreases |groups|
    {
      var pushed, done, f, r := MapRangeStep(firstNumber, nRemaining, groups);
      if done {
        newRanges := newRanges + pushed;
        return;
      }
      Associative(newRanges, pushed, Spans(Cut(f, r, groups[1..])));
      newRanges := newRanges + pushed;
      firstNumber, nRemaining := f, r;
      groups := groups[1..];
    }
    newRanges := newRanges + [Span(firstNumber, nRemaining)];
  }

  /** `m` lies in one of the ranges. */
  predicate Covered(spans: seq<Span>, m: int)
  {
    exists j :: 0 <= j < |spans| && InSpan(spans[j], m)
  }

  lemma CoveredAppend(a: seq<Span>, b: seq<Span>, m: int)
    ensures Covered(a + b, m) <==> Covered(a, m) || Covered(b, m)
  {
    if Covered(a + b, m) {
      var j :| 0 <= j < |a + b| && InSpan((a + b)[j], m);
      if j >= |a| {
        assert InSpan(b[j - |a|], m);
      } else {
        assert InSpan(a[j], m);
      }
    }
    if Covered(a, m) {
      var j :| 0 <= j < |a| && InSpan(a[j], m);
      assert (a + b)[j] == a[j];
    }
    if Covered(b, m) {
      var j :| 0 <= j < |b| && InSpan(b[j], m);
      assert (a + b)[|a| + j] == b[j];
    }
  }

  predicate NonNegativeSpans(spans: seq<Span>)
  {
    forall j :: 0 <= j < |spans| ==> spans[j].count >= 0
  }

  /** The seed numbers paired up as ranges `(start, count)`. */
  function Pairs(numbers: seq<int>): (r: seq<Span>)
    requires |numbers| % 2 == 0
    ensures |r| == |numbers| / 2 && forall k :: 0 <= k < |r| ==> r[k] == Span(numbers[2 * k], numbers[2 * k + 1])
  {
    seq(|numbers| / 2, k requires 0 <= k < |numbers| / 2 => Span(numbers[2 * k], numbers[2 * k + 1]))
  }

  /** `part2`'s grouping of the seed numbers into ranges, two at a time. */
  method PairUp(numbers: seq<int>) returns (ranges: seq<Span>)
    requires |numbers| % 2 == 0
    ensures ranges == Pairs(numbers)
  {
    ranges := [];
    var i := 0;
    while i < |numbers|
      invariant 0 <= i <= |numbers| && i % 2 == 0 && ranges == Pairs(numbers)[..i / 2]
      decreases |numbers| - i
    {
      ranges := ranges + [Span(numbers[i], numbers[i + 1])];
      i := i + 2;
    }
    assert ranges == Pairs(numbers);
  }

  /** One map level of `part2`: every range's `mapRange` output, in order. */
  function Level(ranges: seq<Span>, gs: seq<Group>): seq<Span>
    decreases |ranges|
  {
    if ranges == [] then [] else Level(ranges[..|ranges| - 1], gs) + MapRangeOf(ranges[|ranges| - 1], gs)
  }

  /**
   * A level maps the union of its ranges onto exactly the images of their numbers: the image of
   * any covered number is covered afterwards, and every number covered afterwards is an image.
   */
  lemma {:induction false} LevelImage(ranges: seq<Span>, gs: seq<Group>)
    requires NonNegativeSpans(ranges) && NonNegativeCounts(gs)
    ensures NonNegativeSpans(Level(ranges, gs))
    ensures forall n :: Covered(ranges, n) ==> Covered(Level(ranges, gs), MapNumber(gs, n))
    ensures forall m :: Covered(Level(ranges, gs), m) ==> exists n :: Covered(ranges, n) && MapNumber(gs, n) == m
    decreases |ranges|
  {
    if ranges != [] {
      var init, last := ranges[..|ranges| - 1], ranges[|ranges| - 1];
      var before, out := Level(init, gs), MapRangeOf(last, gs);
      assert NonNegativeSpans(init);
      LevelImage(init, gs);
      MapRangeImage(last, gs);
      forall n
        ensures Covered(ranges, n) <==> Covered(init, n) || InSpan(last, n)
      {
        assert ranges == init + [last];
        CoveredAppend(init, [last], n);
      }
      forall m
        ensures Covered(Level(ranges, gs), m) <==> Covered(before, m) || Covered(out, m)
      {
        CoveredAppend(before, out, m);
      }
      forall n | InSpan(last, n)
        ensures Covered(out, MapNumber(gs, n))
      {
        var j :| 0 <= j < |out| && InSpan(out[j], MapNumber(gs, n));
      }
      forall m | Covered(out, m)
        ensures exists n :: Covered(ranges, n) && MapNumber(gs, n) == m
      {
        var j :| 0 <= j < |out| && InSpan(out[j], m);
        var n :| InSpan(last, n) && MapNumber(gs, n) == m;
        assert Covered(ranges, n);
      }
      forall m | Covered(before, m)
        ensures exists n :: Covered(ranges, n) && MapNumber(gs, n) == m
      {
        var n :| Covered(init, n) && MapNumber(gs, n) == m;
        assert Covered(ranges, n);
      }
      assert NonNegativeSpans(Level(ranges, gs)) by {
        assert Level(ranges, gs) == before + out;
      }
    }
  }

  /** The ranges through every level, in order. */
  function Through(ranges: seq<Span>, levels: seq<seq<Group>>): seq<Span>
    decreases |levels|
  {
    if levels == [] then ranges else Through(Level(ranges, levels[0]), levels[1..])
  }

  predicate AllNonNegative(levels: seq<seq<Group>>)
  {
    forall k :: 0 <= k < |levels| ==> NonNegativeCounts(levels[k])
  }

  /**
   * Through all levels the ranges cover exactly the locations of the seeds they started from:
   * each seed's location is covered, and each covered number is some seed's location.
   */
  lemma {:induction false} ThroughImage(ranges: seq<Span>, levels: seq<seq<Group>>)
    requires NonNegativeSpans(ranges) && AllNonNegative(levels)
    ensures forall n :: Covered(ranges, n) ==> Covered(Through(ranges, levels), Locate(levels, n))
    ensures forall m :: Covered(Through(ranges, levels), m) ==> exists n :: Covered(ranges, n) && Locate(levels, n) == m
    decreases |levels|
  {
    if levels != [] {
      var next := Level(ranges, levels[0]);
      LevelImage(ranges, levels[0]);
      assert AllNonNegative(levels[1..]) by {
        assert forall k :: 1 <= k < |levels| ==> levels[1..][k - 1] == levels[k];
      }
      ThroughImage(next, levels[1..]);
      forall m | Covered(Through(ranges, levels), m)
        ensures exists n :: Covered(ranges, n) && Locate(levels, n) == m
      {
        var n' :| Covered(next, n') && Locate(levels[1..], n') == m;
        var n :| Covered(ranges, n) && MapNumber(levels[0], n) == n';
        assert Locate(levels, n) == m;
      }
    }
  }

  function Starts(spans: seq<Span>): (r: seq<int>)
    ensures |r| == |spans| && forall j :: 0 <= j < |spans| ==> r[j] == spans[j].start
  {
    seq(|spans|, j requires 0 <= j < |spans| => spans[j].start)
  }

  /** `part2`: the lowest start of the final ranges; `Math.min` of nothing is infinite. */
  function Part2(levels: seq<seq<Group>>, seedNumbers: seq<int>): Option<int>
    requires |seedNumbers| % 2 == 0
  {
    var out := Through(Pairs(seedNumbers), levels);
    if out == [] then None else Some(Arithmetic.Min(Starts(out)))
  }

  /** Part 2's answer is no greater than the location of any seed in the seed ranges. */
  lemma Part2Least(levels: seq<seq<Group>>, seedNumbers: seq<int>, n: int)
    requires |seedNumbers| % 2 == 0 && NonNegativeSpans(Pairs(seedNumbers)) && AllNonNegative(levels)
    requires Covered(Pairs(seedNumbers), n)
    ensures Part2(levels, seedNumbers).Some? && Part2(levels, seedNumbers).value <= Locate(levels, n)
  {
    ThroughImage(Pairs(seedNumbers), levels);
    var out := Through(Pairs(seedNumbers), levels);
    var j :| 0 <= j < |out| && InSpan(out[j], Locate(levels, n));
    assert Starts(out)[j] <= Locate(levels, n);
  }

  /** `part2`: the seed ranges mapped level by level, each level pushing every range's pieces. */
  method Part2Method(levels: seq<seq<Group>>, seedNumbers: seq<int>) returns (r: Option<int>)
    requires |seedNumbers| % 2 == 0
    ensures r == Part2(levels, seedNumbers)
  {
    var seedRanges := PairUp(seedNumbers);
    var currentRanges := seedRanges;
    var k := 0;
    while k < |levels|
      invariant 0 <= k <= |levels|
      invariant Through(currentRanges, levels[k..]) == Through(seedRanges, levels)
      decreases |levels| - k
    {
      assert levels[k..][0] == levels[k] && levels[k..][1..] == levels[k + 1..];
      var newRanges: seq<Span> := [];
      var j := 0;
      while j < |currentRanges|
        invariant 0 <= j <= |currentRanges| && newRanges == Level(currentRanges[..j], levels[k])
        decreases |currentRanges| - j
      {
        var pieces := MapRange(currentRanges[j], levels[k]);
        assert currentRanges[..j + 1][..j] == currentRanges[..j];
        newRanges := newRanges + pieces;
        j := j + 1;
      }
      assert currentRanges[..j] == currentRanges;
      currentRanges := newRanges;
      k := k + 1;
    }
    if currentRanges == [] {
      return None;
    }
    var starts := Starts(currentRanges);
    r := Some(Arithmetic.Min(starts));
  }
}
