/**
 * `Point`: an `(x, y)` position in a 2-D grid, with its string key and its neighbours.
 * Coordinates are integers; `PointSet` is a `CustomSet` keyed by `ToString`.
 */
module Point {
  import opened Wrappers
  import Decimal

  datatype Point = Point(x: int, y: int)
  {
    /** The column: the `x` coordinate. */
    function Col(): int { x }

    /** The row: the `y` coordinate. */
    function Row(): int { y }
  }

  /** `[x, y].toString()`: the two coordinates joined by a comma. */
  function ToString(p: Point): string
  {
    Decimal.IntToString(p.x) + [','] + Decimal.IntToString(p.y)
  }

  lemma NoCommaInInt(i: int)
    ensures ',' !in Decimal.IntToString(i)
  {
  }

  /** Equal strings mean equal points, so a `PointSet` identifies points by their coordinates. */
  lemma {:induction false} ToStringInjective(p: Point, q: Point)
    ensures ToString(p) == ToString(q) <==> p == q
  {
    if ToString(p) == ToString(q) {
      NoCommaInInt(p.x);
      NoCommaInInt(q.x);
      Decimal.JoinInjective(Decimal.IntToString(p.x), Decimal.IntToString(p.y), Decimal.IntToString(q.x), Decimal.IntToString(q.y), ',');
      Decimal.IntToStringInjective(p.x, q.x);
      Decimal.IntToStringInjective(p.y, q.y);
    }
  }

  /** The offsets of the two nested loops, `dx` outer and `dy` inner, without `(0, 0)`. */
  function Offsets(): (r: seq<(int, int)>)
    ensures |r| == 8
    ensures forall i, j :: 0 <= i < j < |r| ==> r[i] != r[j]
  {
    [(-1, -1), (-1, 0), (-1, 1), (0, -1), (0, 1), (1, -1), (1, 0), (1, 1)]
  }

  /** The offsets tried are exactly those within one step on both axes, other than none at all. */
  lemma OffsetsExactly(o: (int, int))
    ensures o in Offsets() <==> -1 <= o.0 <= 1 && -1 <= o.1 <= 1 && o != (0, 0)
  {
  }

  /** Non-negative, and below `maximumGridSize` on both axes when it is given. */
  predicate WithinBounds(q: Point, maximumGridSize: Option<Point>)
  {
    q.x >= 0 && q.y >= 0
    && (maximumGridSize.Some? ==> q.x < maximumGridSize.value.x && q.y < maximumGridSize.value.y)
  }

  predicate Admitted(q: Point, maximumGridSize: Option<Point>, ignorePoints: set<string>)
  {
    WithinBounds(q, maximumGridSize) && ToString(q) !in ignorePoints
  }

  /** The admitted points among `p` moved by each of `offsets`, in order. */
  function Select(p: Point, offsets: seq<(int, int)>, maximumGridSize: Option<Point>, ignorePoints: set<string>): (r: seq<Point>)
    ensures |r| <= |offsets|
  {
    if offsets == [] then []
    else
      var q := Point(p.x + offsets[0].0, p.y + offsets[0].1);
      (if Admitted(q, maximumGridSize, ignorePoints) then [q] else []) + Select(p, offsets[1..], maximumGridSize, ignorePoints)
  }

  /** A point is selected exactly when its offset from `p` is tried and it is admitted. */
  lemma {:induction false} SelectMembers(p: Point, offsets: seq<(int, int)>, maximumGridSize: Option<Point>, ignorePoints: set<string>, q: Point)
    ensures q in Select(p, offsets, maximumGridSize, ignorePoints) <==> (q.x - p.x, q.y - p.y) in offsets && Admitted(q, maximumGridSize, ignorePoints)
  {
    if offsets != [] {
      SelectMembers(p, offsets[1..], maximumGridSize, ignorePoints, q);
      var q0 := Point(p.x + offsets[0].0, p.y + offsets[0].1);
      assert (q.x - p.x, q.y - p.y) in offsets <==> (q.x - p.x, q.y - p.y) == offsets[0] || (q.x - p.x, q.y - p.y) in offsets[1..];
      assert (q.x - p.x, q.y - p.y) == offsets[0] <==> q == q0;
    }
  }

  lemma {:induction false} SelectDistinct(p: Point, offsets: seq<(int, int)>, maximumGridSize: Option<Point>, ignorePoints: set<string>)
    requires forall i, j :: 0 <= i < j < |offsets| ==> offsets[i] != offsets[j]
    ensures var r := Select(p, offsets, maximumGridSize, ignorePoints);
      forall i, j :: 0 <= i < j < |r| ==> r[i] != r[j]
  {
    if offsets != [] {
      SelectDistinct(p, offsets[1..], maximumGridSize, ignorePoints);
      var q := Point(p.x + offsets[0].0, p.y + offsets[0].1);
      assert (q.x - p.x, q.y - p.y) == offsets[0] && offsets[0] !in offsets[1..];
      SelectMembers(p, offsets[1..], maximumGridSize, ignorePoints, q);
    }
  }

  /** `q` differs from `p` and lies within one step of it on both axes. */
  predicate IsNeighbor(p: Point, q: Point)
  {
    q != p && -1 <= q.x - p.x <= 1 && -1 <= q.y - p.y <= 1
  }

  /** `neighbors({maximumGridSize, ignorePoints})`; an absent `ignorePoints` is the empty set. */
  function Neighbors(p: Point, maximumGridSize: Option<Point>, ignorePoints: set<string>): seq<Point>
  {
    Select(p, Offsets(), maximumGridSize, ignorePoints)
  }

  /**
   * The neighbours are exactly the points other than `p` within one step of it on both axes,
   * within bounds and not in `ignorePoints`; there are at most 8 and none repeats.
   */
  lemma {:induction false} NeighborsSpec(p: Point, maximumGridSize: Option<Point>, ignorePoints: set<string>)
    ensures var r := Neighbors(p, maximumGridSize, ignorePoints);
      |r| <= 8
      && (forall i, j :: 0 <= i < j < |r| ==> r[i] != r[j])
      && (forall q :: q in r <==> IsNeighbor(p, q) && Admitted(q, maximumGridSize, ignorePoints))
  {
    var r := Neighbors(p, maximumGridSize, ignorePoints);
    assert r == Select(p, Offsets(), maximumGridSize, ignorePoints);
    SelectDistinct(p, Offsets(), maximumGridSize, ignorePoints);
    forall q
      ensures q in Neighbors(p, maximumGridSize, ignorePoints) <==> IsNeighbor(p, q) && Admitted(q, maximumGridSize, ignorePoints)
    {
      OffsetsExactly((q.x - p.x, q.y - p.y));
      SelectMembers(p, Offsets(), maximumGridSize, ignorePoints, q);
    }
  }

  /** Being a neighbour is symmetric: without bounds or ignored points, `p` is among its neighbours' neighbours when it is in the quadrant. */
  lemma NeighborsSymmetric(p: Point, q: Point)
    requires q in Neighbors(p, None, {}) && p.x >= 0 && p.y >= 0
    ensures p in Neighbors(q, None, {})
  {
    NeighborsSpec(p, None, {});
    NeighborsSpec(q, None, {});
  }
}
