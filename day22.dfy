/**
 * Day 22: sand bricks are boxes of unit cubes. They fall until they rest on the ground
 * (z = 1) or on another brick; part 1 counts the bricks whose removal lets nothing fall,
 * part 2 sums, over every brick, how many bricks its removal brings down.
 */
module Day22 {
  import opened Wrappers
  import opened Worklist
  import opened Queue
  import Point3D

  type Point = Point3D.Point3D

  function Lower(p: Point): Point { Point3D.Point3D(p.x, p.y, p.z - 1) }

  function Raise(p: Point): Point { Point3D.Point3D(p.x, p.y, p.z + 1) }

  /** `minZ`: a brick's least z, or `Infinity` while it has no points. */
  datatype Bound = Finite(z: int) | Infinity

  /** `Math.min(bound, z)`. */
  function MinOf(b: Bound, z: int): Bound
  {
    match b
    case Infinity => Finite(z)
    case Finite(m) => Finite(if z < m then z else m)
  }

  /** `Bound` minus one, with `Infinity - 1 == Infinity`. */
  function Decrement(b: Bound): Bound
  {
    match b
    case Infinity => Infinity
    case Finite(m) => Finite(m - 1)
  }

  /** A brick: its index in the input (the `id`), its two corners, its cubes and its least z. */
  datatype Brick = Brick(id: nat, start: Point, end: Point, points: seq<Point>, minZ: Bound)

  // The cubes of a brick, in the order of the three nested loops (x outer, z inner).

  /** The cubes `(x, y, lo) .. (x, y, z - 1)`. */
  function ZRun(x: int, y: int, lo: int, z: int): seq<Point>
    decreases z - lo
  {
    if z <= lo then [] else ZRun(x, y, lo, z - 1) + [Point3D.Point3D(x, y, z - 1)]
  }

  /** The cubes of the columns `(x, start.y) .. (x, y - 1)`. */
  function YRun(x: int, start: Point, end: Point, y: int): seq<Point>
    decreases y - start.y
  {
    if y <= start.y then [] else YRun(x, start, end, y - 1) + ZRun(x, y - 1, start.z, end.z + 1)
  }

  /** The cubes of the slices `start.x .. x - 1`. */
  function XRun(start: Point, end: Point, x: int): seq<Point>
    decreases x - start.x
  {
    if x <= start.x then [] else XRun(start, end, x - 1) + YRun(x - 1, start, end, end.y + 1)
  }

  /** Every lattice point from `start` to `end` inclusive, in loop order. */
  function Box(start: Point, end: Point): seq<Point>
  {
    XRun(start, end, end.x + 1)
  }

  lemma {:induction false} ZRunHas(x: int, y: int, lo: int, z: int, p: Point)
    ensures p in ZRun(x, y, lo, z) <==> p.x == x && p.y == y && lo <= p.z < z
    decreases z - lo
  {
    if z > lo {
      ZRunHas(x, y, lo, z - 1, p);
    }
  }

  lemma {:induction false} YRunHas(x: int, start: Point, end: Point, y: int, p: Point)
    ensures p in YRun(x, start, end, y) <==> p.x == x && start.y <= p.y < y && start.z <= p.z <= end.z
    decreases y - start.y
  {
    if y > start.y {
      YRunHas(x, start, end, y - 1, p);
      ZRunHas(x, y - 1, start.z, end.z + 1, p);
    }
  }

  lemma {:induction false} XRunHas(start: Point, end: Point, x: int, p: Point)
    ensures p in XRun(start, end, x) <==> start.x <= p.x < x && start.y <= p.y <= end.y && start.z <= p.z <= end.z
    decreases x - start.x
  {
    if x <= start.x {
      assert XRun(start, end, x) == [];
    } else {
      var init, last := XRun(start, end, x - 1), YRun(x - 1, start, end, end.y + 1);
      assert XRun(start, end, x) == init + last;
      XRunHas(start, end, x - 1, p);
      YRunHas(x - 1, start, end, end.y + 1, p);
      var inSlice := start.y <= p.y <= end.y && start.z <= p.z <= end.z;
      assert p in init <==> start.x <= p.x < x - 1 && inSlice;
      assert p in last <==> p.x == x - 1 && inSlice;
      assert p in init + last <==> p in init || p in last;
    }
  }

  /** A brick's cubes are exactly the lattice points of the box between its corners. */
  lemma BoxHas(start: Point, end: Point, p: Point)
    ensures p in Box(start, end) <==> (start.x <= p.x <= end.x && start.y <= p.y <= end.y && start.z <= p.z <= end.z)
  {
    XRunHas(start, end, end.x + 1, p);
  }

  /** The running `Math.min` of the cubes' z, from `Infinity`. */
  function MinZ(points: seq<Point>): Bound
  {
    if points == [] then Infinity else MinOf(MinZ(points[..|points| - 1]), points[|points| - 1].z)
  }

  lemma {:induction false} MinZIsLeast(points: seq<Point>)
    ensures MinZ(points) == Infinity <==> points == []
    ensures MinZ(points).Finite? ==>
      (exists k :: 0 <= k < |points| && points[k].z == MinZ(points).z)
      && forall k :: 0 <= k < |points| ==> MinZ(points).z <= points[k].z
  {
    if points != [] {
      var init := points[..|points| - 1];
      MinZIsLeast(init);
      if MinZ(init).Finite? {
        var k :| 0 <= k < |init| && init[k].z == MinZ(init).z;
        assert points[k] == init[k];
        if points[|points| - 1].z < MinZ(init).z {
          assert points[|points| - 1].z == MinZ(points).z;
        }
      }
      forall k | 0 <= k < |points|
        ensures MinZ(points).z <= points[k].z
      {
        if k < |init| {
          assert points[k] == init[k];
        }
      }
    }
  }

  /** A brick's `minZ` is the z of its lower corner when the box has cubes, and `Infinity` when it has none. */
  lemma BoxMinZ(start: Point, end: Point)
    ensures MinZ(Box(start, end)) == if start.x <= end.x && start.y <= end.y && start.z <= end.z then Finite(start.z) else Infinity
  {
    var points := Box(start, end);
    MinZIsLeast(points);
    BoxHas(start, end, start);
    if MinZ(points).Finite? {
      var k :| 0 <= k < |points| && points[k].z == MinZ(points).z;
      BoxHas(start, end, points[k]);
      assert points[k] in points;
      var i :| 0 <= i < |points| && points[i] == start;
      assert MinZ(points).z <= start.z;
    }
  }

  lemma YRunStep(before: seq<Point>, x: int, start: Point, end: Point, y: int)
    requires start.y <= y
    ensures before + YRun(x, start, end, y + 1) == (before + YRun(x, start, end, y)) + ZRun(x, y, start.z, end.z + 1)
  {
    assert YRun(x, start, end, y + 1) == YRun(x, start, end, y) + ZRun(x, y, start.z, end.z + 1);
  }

  lemma XRunStep(start: Point, end: Point, x: int)
    requires start.x <= x
    ensures XRun(start, end, x + 1) == XRun(start, end, x) + YRun(x, start, end, end.y + 1)
  {
  }

  /** The `Brick` constructor: the three nested loops list the cubes and track their least z. */
  method NewBrick(id: nat, start: Point, end: Point) returns (brick: Brick)
    ensures brick == Brick(id, start, end, Box(start, end), MinZ(Box(start, end)))
  {
    var points: seq<Point> := [];
    var minZ := Infinity;
    var x := start.x;
    while x <= end.x
      invariant start.x <= x && (x <= end.x + 1 || x == start.x)
      invariant points == XRun(start, end, x) && minZ == MinZ(points)
      decreases end.x + 1 - x
    {
      points, minZ := AddSlice(points, minZ, x, start, end);
      XRunStep(start, end, x);
      x := x + 1;
    }
    assert XRun(start, end, x) == Box(start, end);
    brick := Brick(id, start, end, points, minZ);
  }

  /** The middle loop of the constructor: the columns of one x. */
  method AddSlice(before: seq<Point>, minBefore: Bound, x: int, start: Point, end: Point) returns (points: seq<Point>, minZ: Bound)
    requires minBefore == MinZ(before)
    ensures points == before + YRun(x, start, end, end.y + 1) && minZ == MinZ(points)
  {
    points, minZ := before, minBefore;
    var y := start.y;
    while y <= end.y
      invariant start.y <= y && (y <= end.y + 1 || y == start.y)
      invariant points == before + YRun(x, start, end, y) && minZ == MinZ(points)
      decreases end.y + 1 - y
    {
      points, minZ := AddColumn(points, minZ, x, y, start, end);
      YRunStep(before, x, start, end, y);
      y := y + 1;
    }
    assert YRun(x, start, end, y) == YRun(x, start, end, end.y + 1);
  }

  /** The inner loop of the constructor: the cubes of one column. */
  method AddColumn(before: seq<Point>, minBefore: Bound, x: int, y: int, start: Point, end: Point) returns (points: seq<Point>, minZ: Bound)
    requires minBefore == MinZ(before)
    ensures points == before + ZRun(x, y, start.z, end.z + 1) && minZ == MinZ(points)
  {
    points, minZ := before, minBefore;
    var z := start.z;
    while z <= end.z
      invariant start.z <= z && (z <= end.z + 1 || z == start.z)
      invariant points == before + ZRun(x, y, start.z, z) && minZ == MinZ(points)
      decreases end.z + 1 - z
    {
      var point := Point3D.Point3D(x, y, z);
      ghost var prefix := points;
      points := points + [point];
      assert points[..|points| - 1] == prefix;
      minZ := MinOf(minZ, point.z);
      z := z + 1;
    }
    assert ZRun(x, y, start.z, z) == ZRun(x, y, start.z, end.z + 1);
  }

  /** The bricks of the input, each built from its two corners, with its index as its id. */
  method ParseInput(corners: seq<(Point, Point)>) returns (bricks: seq<Brick>)
    ensures |bricks| == |corners|
    ensures forall i :: 0 <= i < |bricks| ==> bricks[i] == Brick(i, corners[i].0, corners[i].1, Box(corners[i].0, corners[i].1), MinZ(Box(corners[i].0, corners[i].1)))
  {
    bricks := [];
    for i := 0 to |corners|
      invariant |bricks| == i
      invariant forall k :: 0 <= k < i ==> bricks[k] == Brick(k, corners[k].0, corners[k].1, Box(corners[k].0, corners[k].1), MinZ(Box(corners[k].0, corners[k].1)))
    {
      var brick := NewBrick(i, corners[i].0, corners[i].1);
      bricks := bricks + [brick];
    }
  }

  /** `Brick.moveDown`: the corners, every cube and `minZ` go down by one. */
  function MoveDown(brick: Brick): (r: Brick)
    ensures r.id == brick.id && r.start == Lower(brick.start) && r.end == Lower(brick.end)
    ensures |r.points| == |brick.points| && (forall k :: 0 <= k < |r.points| ==> r.points[k] == Lower(brick.points[k]))
    ensures r.minZ == Decrement(brick.minZ)
  {
    Brick(brick.id, Lower(brick.start), Lower(brick.end), seq(|brick.points|, k requires 0 <= k < |brick.points| => Lower(brick.points[k])), Decrement(brick.minZ))
  }

  /** A cube of the lowered brick is exactly a cube of the brick, one lower. */
  lemma MoveDownHas(brick: Brick, p: Point)
    ensures p in MoveDown(brick).points <==> Raise(p) in brick.points
  {
    var r := MoveDown(brick);
    if p in r.points {
      var k :| 0 <= k < |r.points| && r.points[k] == p;
      assert brick.points[k] == Raise(p);
    }
    if Raise(p) in brick.points {
      var k :| 0 <= k < |brick.points| && brick.points[k] == Raise(p);
      assert r.points[k] == p;
    }
  }

  /** Lowering a brick built from its corners gives the brick built from the lowered corners. */
  lemma MoveDownKeepsBox(brick: Brick)
    requires brick.points == Box(brick.start, brick.end) && brick.minZ == MinZ(brick.points)
    ensures var r := MoveDown(brick);
      (forall p :: p in r.points <==> p in Box(r.start, r.end)) && r.minZ == MinZ(Box(r.start, r.end))
  {
    MoveDownBoxPoints(brick);
    MoveDownBoxMinZ(brick);
  }

  lemma MoveDownBoxPoints(brick: Brick)
    requires brick.points == Box(brick.start, brick.end)
    ensures var r := MoveDown(brick);
      forall p :: p in r.points <==> p in Box(r.start, r.end)
  {
    var r := MoveDown(brick);
    forall p
      ensures p in r.points <==> p in Box(r.start, r.end)
    {
      MoveDownHas(brick, p);
      BoxHas(brick.start, brick.end, Raise(p));
      BoxHas(r.start, r.end, p);
    }
  }

  lemma MoveDownBoxMinZ(brick: Brick)
    requires brick.minZ == MinZ(Box(brick.start, brick.end))
    ensures var r := MoveDown(brick);
      r.minZ == MinZ(Box(r.start, r.end))
  {
    BoxMinZ(brick.start, brick.end);
    BoxMinZ(MoveDown(brick).start, MoveDown(brick).end);
  }

  // Where the bricks are.

  /** `cacheBrickLocations` over `points`: each cube maps to brick `i`, later writes winning. */
  function Cached(locations: map<Point, nat>, points: seq<Point>, i: nat): map<Point, nat>
  {
    if points == [] then locations else Cached(locations, points[..|points| - 1], i)[points[|points| - 1] := i]
  }

  lemma {:induction false} CachedHas(locations: map<Point, nat>, points: seq<Point>, i: nat, p: Point)
    ensures p in Cached(locations, points, i) <==> p in locations || p in points
    ensures p in Cached(locations, points, i) ==> Cached(locations, points, i)[p] == if p in points then i else locations[p]
  {
    if points != [] {
      var init := points[..|points| - 1];
      CachedHas(locations, init, i, p);
      assert points == init + [points[|points| - 1]];
    }
  }

  /** The deletions of `moveDown`: every cube of the brick is removed, whoever it maps to. */
  function Uncached(locations: map<Point, nat>, points: seq<Point>): map<Point, nat>
  {
    if points == [] then locations else Uncached(locations, points[..|points| - 1]) - {points[|points| - 1]}
  }

  lemma {:induction false} UncachedHas(locations: map<Point, nat>, points: seq<Point>, p: Point)
    ensures p in Uncached(locations, points) <==> p in locations && p !in points
    ensures p in Uncached(locations, points) ==> Uncached(locations, points)[p] == locations[p]
  {
    if points != [] {
      var init := points[..|points| - 1];
      UncachedHas(locations, init, p);
      assert points == init + [points[|points| - 1]];
    }
  }

  /** The locations after the constructor's `forEach` over the first `n` bricks. */
  function CachedAll(bricks: seq<Brick>, n: nat): map<Point, nat>
    requires n <= |bricks|
  {
    if n == 0 then map[] else Cached(CachedAll(bricks, n - 1), bricks[n - 1].points, n - 1)
  }

  /** Every location names one of the `n` bricks. */
  predicate Indexed(locations: map<Point, nat>, n: nat)
  {
    forall p :: p in locations ==> locations[p] < n
  }

  lemma CachedIndexed(locations: map<Point, nat>, points: seq<Point>, i: nat, n: nat)
    requires Indexed(locations, n) && i < n
    ensures Indexed(Cached(locations, points, i), n)
  {
    forall p | p in Cached(locations, points, i)
      ensures Cached(locations, points, i)[p] < n
    {
      CachedHas(locations, points, i, p);
    }
  }

  lemma UncachedIndexed(locations: map<Point, nat>, points: seq<Point>, n: nat)
    requires Indexed(locations, n)
    ensures Indexed(Uncached(locations, points), n)
  {
    forall p | p in Uncached(locations, points)
      ensures Uncached(locations, points)[p] < n
    {
      UncachedHas(locations, points, p);
    }
  }

  lemma {:induction false} CachedAllIndexed(bricks: seq<Brick>, n: nat)
    requires n <= |bricks|
    ensures Indexed(CachedAll(bricks, n), n)
  {
    if n > 0 {
      CachedAllIndexed(bricks, n - 1);
      CachedIndexed(CachedAll(bricks, n - 1), bricks[n - 1].points, n - 1, n);
    }
  }

  /** No cube belongs to two bricks. */
  ghost predicate Disjoint(bricks: seq<Brick>)
  {
    forall i, j, p :: 0 <= i < j < |bricks| && p in bricks[i].points ==> p !in bricks[j].points
  }

  /** The locations map exactly the cubes of the first `n` bricks, each to its brick. */
  ghost predicate LocatedUpTo(bricks: seq<Brick>, locations: map<Point, nat>, n: nat)
    requires n <= |bricks|
  {
    (forall p :: p in locations ==> locations[p] < n && p in bricks[locations[p]].points)
    && forall i, p :: 0 <= i < n && p in bricks[i].points ==> p in locations && locations[p] == i
  }

  ghost predicate Located(bricks: seq<Brick>, locations: map<Point, nat>)
  {
    LocatedUpTo(bricks, locations, |bricks|)
  }

  /** With no shared cubes, caching every brick maps exactly the cubes of each brick to that brick. */
  lemma {:induction false} CachedAllLocated(bricks: seq<Brick>, n: nat)
    requires n <= |bricks| && Disjoint(bricks)
    ensures LocatedUpTo(bricks, CachedAll(bricks, n), n)
  {
    if n > 0 {
      CachedAllLocated(bricks, n - 1);
      var before := CachedAll(bricks, n - 1);
      var after := CachedAll(bricks, n);
      forall p | p in after
        ensures after[p] < n && p in bricks[after[p]].points
      {
        CachedHas(before, bricks[n - 1].points, n - 1, p);
      }
      forall i, p | 0 <= i < n && p in bricks[i].points
        ensures p in after && after[p] == i
      {
        CachedHas(before, bricks[n - 1].points, n - 1, p);
      }
    }
  }

  /** Every brick has at least one cube. */
  predicate Solid(bricks: seq<Brick>)
  {
    forall i :: 0 <= i < |bricks| ==> bricks[i].points != []
  }

  /**
   * `canFall`: no cube is at z = 1 or lower, and every cell under a cube is empty or the
   * brick's own.
   */
  predicate CanFall(bricks: seq<Brick>, locations: map<Point, nat>, i: nat)
    requires i < |bricks|
  {
    forall p :: p in bricks[i].points ==> p.z - 1 > 0 && (Lower(p) !in locations || locations[Lower(p)] == i)
  }

  /** No brick can fall. */
  ghost predicate Stable(bricks: seq<Brick>, locations: map<Point, nat>)
  {
    forall i :: 0 <= i < |bricks| ==> !CanFall(bricks, locations, i)
  }

  /** One cube's contribution to `getBricksAbove`: the other brick in the cell above it, if any. */
  function AboveOne(locations: map<Point, nat>, q: Point, i: nat): seq<nat>
  {
    var c := Raise(q);
    if c in locations && locations[c] != i then [locations[c]] else []
  }

  /** `getBricksAbove` over the cubes `points` of brick `i`, in order, with repeats. */
  function AboveFrom(locations: map<Point, nat>, points: seq<Point>, i: nat): seq<nat>
  {
    if points == [] then [] else AboveFrom(locations, points[..|points| - 1], i) + AboveOne(locations, points[|points| - 1], i)
  }

  /** A brick is listed above brick `i` exactly when it is another brick in a cell right above a cube of `i`. */
  lemma {:induction false} AboveFromHas(locations: map<Point, nat>, points: seq<Point>, i: nat, k: nat)
    ensures k in AboveFrom(locations, points, i) <==> k != i && exists q :: q in points && Raise(q) in locations && locations[Raise(q)] == k
  {
    if points != [] {
      var init, last := points[..|points| - 1], points[|points| - 1];
      AboveFromHas(locations, init, i, k);
      assert points == init + [last];
      if k != i && (exists q :: q in points && Raise(q) in locations && locations[Raise(q)] == k) {
        var q :| q in points && Raise(q) in locations && locations[Raise(q)] == k;
        if q != last {
          assert q in init;
        }
      }
    }
  }

  /** The bricks listed above are bricks of the map. */
  lemma {:induction false} AboveFromIndexed(locations: map<Point, nat>, points: seq<Point>, i: nat, n: nat)
    requires Indexed(locations, n)
    ensures InRange(AboveFrom(locations, points, i), n)
  {
    if points != [] {
      AboveFromIndexed(locations, points[..|points| - 1], i, n);
    }
  }

  /** The locations after `moveDown` of brick `i`: its old cubes deleted, its new ones cached. */
  function Moved(locations: map<Point, nat>, brick: Brick, i: nat): map<Point, nat>
  {
    Cached(Uncached(locations, brick.points), MoveDown(brick).points, i)
  }

  /** Moving a brick that can fall keeps every cube mapped to its own brick. */
  lemma MoveKeepsLocated(bricks: seq<Brick>, locations: map<Point, nat>, i: nat)
    requires i < |bricks| && Located(bricks, locations) && CanFall(bricks, locations, i)
    ensures Located(bricks[i := MoveDown(bricks[i])], Moved(locations, bricks[i], i))
  {
    var after, moved := bricks[i := MoveDown(bricks[i])], Moved(locations, bricks[i], i);
    var removed := Uncached(locations, bricks[i].points);
    forall p | p in moved
      ensures moved[p] < |after| && p in after[moved[p]].points
    {
      CachedHas(removed, MoveDown(bricks[i]).points, i, p);
      UncachedHas(locations, bricks[i].points, p);
    }
    forall j, p | 0 <= j < |after| && p in after[j].points
      ensures p in moved && moved[p] == j
    {
      if j == i {
        CachedHas(removed, MoveDown(bricks[i]).points, i, p);
      } else {
        OtherCubeStays(bricks, locations, i, j, p);
      }
    }
  }

  lemma OtherCubeStays(bricks: seq<Brick>, locations: map<Point, nat>, i: nat, j: nat, p: Point)
    requires i < |bricks| && j < |bricks| && i != j && p in bricks[j].points
    requires Located(bricks, locations) && CanFall(bricks, locations, i)
    ensures var moved := Moved(locations, bricks[i], i);
      p in moved && moved[p] == j
  {
    assert p in locations && locations[p] == j;
    var removed := Uncached(locations, bricks[i].points);
    UncachedHas(locations, bricks[i].points, p);
    MoveDownHas(bricks[i], p);
    if Raise(p) in bricks[i].points {
      assert false;
    }
    CachedHas(removed, MoveDown(bricks[i]).points, i, p);
  }

  /**
   * A brick that could not fall still cannot after another brick moves, unless it sat on
   * the brick that moved, which lists it among the bricks above.
   */
  lemma MoveKeepsStuck(bricks: seq<Brick>, locations: map<Point, nat>, i: nat, j: nat)
    requires i < |bricks| && j < |bricks| && i != j
    requires Located(bricks, locations) && CanFall(bricks, locations, i) && !CanFall(bricks, locations, j)
    requires j !in AboveFrom(locations, bricks[i].points, i)
    ensures !CanFall(bricks[i := MoveDown(bricks[i])], Moved(locations, bricks[i], i), j)
  {
    var after, moved := bricks[i := MoveDown(bricks[i])], Moved(locations, bricks[i], i);
    MoveKeepsLocated(bricks, locations, i);
    var p :| p in bricks[j].points && !(p.z - 1 > 0 && (Lower(p) !in locations || locations[Lower(p)] == j));
    assert p in after[j].points;
    var c := Lower(p);
    if p.z - 1 > 0 {
      assert c in locations && locations[c] != j;
      if c !in moved || moved[c] == j {
        CachedHas(Uncached(locations, bricks[i].points), MoveDown(bricks[i]).points, i, c);
        UncachedHas(locations, bricks[i].points, c);
        if c in moved {
          assert false;
        }
        assert c in bricks[i].points && Raise(c) == p;
        AboveFromHas(locations, bricks[i].points, i, j);
        assert false;
      }
    }
  }

  // Termination of `settle`: moving a brick lowers the sum of the heights of all cubes.

  /** The sum of the heights of the cubes above the ground. */
  function Weight(points: seq<Point>): nat
  {
    if points == [] then 0 else (if points[0].z > 0 then points[0].z else 0) + Weight(points[1..])
  }

  function Height(bricks: seq<Brick>): nat
  {
    if bricks == [] then 0 else Weight(bricks[0].points) + Height(bricks[1..])
  }

  lemma {:induction false} WeightLowered(points: seq<Point>, lowered: seq<Point>)
    requires |lowered| == |points|
    requires forall k :: 0 <= k < |points| ==> lowered[k] == Lower(points[k]) && points[k].z > 1
    ensures Weight(lowered) + |points| == Weight(points)
  {
    if points != [] {
      WeightLowered(points[1..], lowered[1..]);
    }
  }

  lemma {:induction false} HeightUpdate(bricks: seq<Brick>, i: nat, brick: Brick)
    requires i < |bricks|
    ensures Height(bricks[i := brick]) + Weight(bricks[i].points) == Height(bricks) + Weight(brick.points)
  {
    if i > 0 {
      HeightUpdate(bricks[1..], i - 1, brick);
      assert bricks[i := brick][1..] == bricks[1..][i - 1 := brick];
    } else {
      assert bricks[i := brick][1..] == bricks[1..];
    }
  }

  /** Moving a brick that can fall and has a cube lowers the height. */
  lemma MoveLowers(bricks: seq<Brick>, locations: map<Point, nat>, i: nat)
    requires i < |bricks| && CanFall(bricks, locations, i) && bricks[i].points != []
    ensures Height(bricks[i := MoveDown(bricks[i])]) < Height(bricks)
  {
    var points := bricks[i].points;
    forall k | 0 <= k < |points|
      ensures points[k].z > 1
    {
      assert points[k] in points;
    }
    WeightLowered(points, MoveDown(bricks[i]).points);
    HeightUpdate(bricks, i, MoveDown(bricks[i]));
  }

  /** A brick not waiting in the worklist cannot fall. */
  ghost predicate Settling(bricks: seq<Brick>, locations: map<Point, nat>, inMotion: seq<nat>)
  {
    Located(bricks, locations) && forall j :: 0 <= j < |bricks| && j !in inMotion ==> !CanFall(bricks, locations, j)
  }

  /**
   * One item of the `settle` worklist: the last brick is taken; if it can fall it moves down
   * by one and goes back, followed by the bricks that were above it.
   */
  function SettleOne(bricks: seq<Brick>, locations: map<Point, nat>, inMotion: seq<nat>): (seq<Brick>, map<Point, nat>, seq<nat>)
    requires inMotion != [] && inMotion[|inMotion| - 1] < |bricks|
  {
    var i, rest := inMotion[|inMotion| - 1], inMotion[..|inMotion| - 1];
    if CanFall(bricks, locations, i) then
      (bricks[i := MoveDown(bricks[i])], Moved(locations, bricks[i], i), rest + [i] + AboveFrom(locations, bricks[i].points, i))
    else
      (bricks, locations, rest)
  }

  /** Every index in the worklist names a brick. */
  predicate InRange(inMotion: seq<nat>, n: nat)
  {
    forall k :: 0 <= k < |inMotion| ==> inMotion[k] < n
  }

  /**
   * A step keeps the bricks solid and the locations and the worklist within range, and
   * either lowers the cubes or shortens the worklist: `settle` terminates.
   */
  lemma SettleOneProgress(bricks: seq<Brick>, locations: map<Point, nat>, inMotion: seq<nat>)
    requires inMotion != [] && InRange(inMotion, |bricks|) && Indexed(locations, |bricks|) && Solid(bricks)
    ensures var (after, afterLocations, rest) := SettleOne(bricks, locations, inMotion);
      |after| == |bricks| && Solid(after) && Indexed(afterLocations, |bricks|) && InRange(rest, |bricks|)
      && (Height(after) < Height(bricks) || (Height(after) == Height(bricks) && |rest| < |inMotion|))
  {
    var i, rest := inMotion[|inMotion| - 1], inMotion[..|inMotion| - 1];
    assert inMotion == rest + [i];
    SplitInRange(rest, [i], |bricks|);
    if CanFall(bricks, locations, i) {
      AboveFromIndexed(locations, bricks[i].points, i, |bricks|);
      JoinInRange(rest + [i], AboveFrom(locations, bricks[i].points, i), |bricks|);
      MoveLowers(bricks, locations, i);
      UncachedIndexed(locations, bricks[i].points, |bricks|);
      CachedIndexed(Uncached(locations, bricks[i].points), MoveDown(bricks[i]).points, i, |bricks|);
    }
  }

  lemma SplitInRange(a: seq<nat>, b: seq<nat>, n: nat)
    requires InRange(a + b, n)
    ensures InRange(a, n) && InRange(b, n)
  {
    forall k | 0 <= k < |a|
      ensures a[k] < n
    {
      assert a[k] == (a + b)[k];
    }
    forall k | 0 <= k < |b|
      ensures b[k] < n
    {
      assert b[k] == (a + b)[|a| + k];
    }
  }

  lemma JoinInRange(a: seq<nat>, b: seq<nat>, n: nat)
    requires InRange(a, n) && InRange(b, n)
    ensures InRange(a + b, n)
  {
  }

  /** A step keeps every cube located and every brick outside the worklist unable to fall. */
  lemma SettleOneSettles(bricks: seq<Brick>, locations: map<Point, nat>, inMotion: seq<nat>)
    requires inMotion != [] && inMotion[|inMotion| - 1] < |bricks| && Settling(bricks, locations, inMotion)
    ensures var (after, afterLocations, rest) := SettleOne(bricks, locations, inMotion);
      Settling(after, afterLocations, rest)
  {
    var i, rest := inMotion[|inMotion| - 1], inMotion[..|inMotion| - 1];
    assert inMotion == rest + [i];
    if CanFall(bricks, locations, i) {
      var above := AboveFrom(locations, bricks[i].points, i);
      MoveKeepsLocated(bricks, locations, i);
      forall j | 0 <= j < |bricks| && j !in rest + [i] + above
        ensures !CanFall(bricks[i := MoveDown(bricks[i])], Moved(locations, bricks[i], i), j)
      {
        MoveKeepsStuck(bricks, locations, i, j);
      }
    }
  }

  /** `getBricksAbove`: for each cube, the other brick in the cell right above it. */
  method GetBricksAbove(locations: map<Point, nat>, points: seq<Point>, i: nat) returns (above: seq<nat>)
    ensures above == AboveFrom(locations, points, i)
  {
    above := [];
    for k := 0 to |points|
      invariant above == AboveFrom(locations, points[..k], i)
    {
      var keyOfPointAbove := Raise(points[k]);
      if keyOfPointAbove in locations {
        var otherBrick := locations[keyOfPointAbove];
        if otherBrick != i {
          above := above + [otherBrick];
        }
      }
      assert points[..k + 1][..k] == points[..k];
    }
    assert points[..|points|] == points;
  }

  // The neighbour lists `settle` builds once the bricks rest.

  /** `Set.add` on a set kept in insertion order: a value already present keeps its place. */
  function AddNew(s: seq<nat>, x: nat): seq<nat>
  {
    if x in s then s else s + [x]
  }

  /** The set of `xs` in first-insertion order. */
  function Dedup(xs: seq<nat>): seq<nat>
  {
    if xs == [] then [] else AddNew(Dedup(xs[..|xs| - 1]), xs[|xs| - 1])
  }

  lemma {:induction false} DedupHas(xs: seq<nat>, x: nat)
    ensures x in Dedup(xs) <==> x in xs
  {
    if xs != [] {
      DedupHas(xs[..|xs| - 1], x);
      assert xs == xs[..|xs| - 1] + [xs[|xs| - 1]];
    }
  }

  /** `bricksAbove` of brick `i`: the bricks listed above it, each once. */
  function AboveSet(bricks: seq<Brick>, locations: map<Point, nat>, i: nat): seq<nat>
    requires i < |bricks|
  {
    Dedup(AboveFrom(locations, bricks[i].points, i))
  }

  /** `bricksBelow` of brick `a` once the second loop has seen the first `n` bricks. */
  function BelowUpTo(bricks: seq<Brick>, locations: map<Point, nat>, a: nat, n: nat): seq<nat>
    requires n <= |bricks|
  {
    if n == 0 then []
    else BelowUpTo(bricks, locations, a, n - 1) + (if a in AboveFrom(locations, bricks[n - 1].points, n - 1) then [n - 1] else [])
  }

  lemma {:induction false} BelowUpToHas(bricks: seq<Brick>, locations: map<Point, nat>, a: nat, n: nat, b: nat)
    requires n <= |bricks|
    ensures b in BelowUpTo(bricks, locations, a, n) <==> b < n && a in AboveFrom(locations, bricks[b].points, b)
  {
    if n > 0 {
      BelowUpToHas(bricks, locations, a, n - 1, b);
      var last := if a in AboveFrom(locations, bricks[n - 1].points, n - 1) then [n - 1] else [];
      assert BelowUpTo(bricks, locations, a, n) == BelowUpTo(bricks, locations, a, n - 1) + last;
      assert b in last <==> b == n - 1 && a in AboveFrom(locations, bricks[b].points, b);
    }
  }

  /** The neighbour lists after `settle`: one per brick, as the two loops build them. */
  ghost predicate Linked(bricks: seq<Brick>, locations: map<Point, nat>, above: map<nat, seq<nat>>, below: map<nat, seq<nat>>)
  {
    (forall i :: i in above <==> 0 <= i < |bricks|) && (forall i :: i in below <==> 0 <= i < |bricks|)
    && forall i :: 0 <= i < |bricks| ==> above[i] == AboveSet(bricks, locations, i) && below[i] == BelowUpTo(bricks, locations, i, |bricks|)
  }

  /** A brick is above another exactly when that one is below it, and no brick is above itself. */
  lemma LinksAgree(bricks: seq<Brick>, locations: map<Point, nat>, above: map<nat, seq<nat>>, below: map<nat, seq<nat>>, a: nat, b: nat)
    requires Linked(bricks, locations, above, below) && a < |bricks| && b < |bricks|
    ensures a in above[b] <==> b in below[a]
    ensures b !in above[b]
  {
    DedupHas(AboveFrom(locations, bricks[b].points, b), a);
    DedupHas(AboveFrom(locations, bricks[b].points, b), b);
    BelowUpToHas(bricks, locations, a, |bricks|, b);
    AboveFromHas(locations, bricks[b].points, b, b);
  }

  /** The inner `forEach` of the second loop: brick `i` gets each brick above it, and each of those gets `i` below. */
  method LinkBrick(aboveBefore: map<nat, seq<nat>>, belowBefore: map<nat, seq<nat>>, i: nat, list: seq<nat>)
    returns (above: map<nat, seq<nat>>, below: map<nat, seq<nat>>)
    requires i in aboveBefore && aboveBefore[i] == []
    requires forall k :: 0 <= k < |list| ==> list[k] in belowBefore
    requires forall a :: a in belowBefore ==> i !in belowBefore[a]
    ensures above == aboveBefore[i := Dedup(list)]
    ensures below.Keys == belowBefore.Keys
    ensures forall a :: a in below ==> below[a] == belowBefore[a] + (if a in list then [i] else [])
  {
    above, below := aboveBefore, belowBefore;
    for k := 0 to |list|
      invariant above == aboveBefore[i := Dedup(list[..k])]
      invariant below.Keys == belowBefore.Keys
      invariant forall a :: a in below ==> below[a] == belowBefore[a] + (if a in list[..k] then [i] else [])
    {
      var brickAbove := list[k];
      assert list[..k + 1] == list[..k] + [brickAbove];
      above := above[i := AddNew(above[i], brickAbove)];
      below := below[brickAbove := AddNew(below[brickAbove], i)];
    }
    assert list[..|list|] == list;
  }

  /** The neighbour lists once the second loop has seen the first `n` bricks. */
  ghost predicate LinkedUpTo(bricks: seq<Brick>, locations: map<Point, nat>, above: map<nat, seq<nat>>, below: map<nat, seq<nat>>, n: nat)
    requires n <= |bricks|
  {
    (forall j :: j in above <==> 0 <= j < |bricks|) && (forall j :: j in below <==> 0 <= j < |bricks|)
    && (forall j :: 0 <= j < |bricks| ==> above[j] == if j < n then AboveSet(bricks, locations, j) else [])
    && (forall j :: 0 <= j < |bricks| ==> below[j] == BelowUpTo(bricks, locations, j, n))
  }

  /** Before round `i` no brick has `i` below it yet. */
  lemma NotYetBelow(bricks: seq<Brick>, locations: map<Point, nat>, above: map<nat, seq<nat>>, below: map<nat, seq<nat>>, i: nat)
    requires i < |bricks| && LinkedUpTo(bricks, locations, above, below, i)
    ensures forall a :: a in below ==> i !in below[a]
  {
    forall a | a in below
      ensures i !in below[a]
    {
      BelowUpToHas(bricks, locations, a, i, i);
    }
  }

  /** Round `i` sets the list above brick `i` and leaves the others. */
  lemma AboveRound(bricks: seq<Brick>, locations: map<Point, nat>, aboveBefore: map<nat, seq<nat>>, i: nat, above: map<nat, seq<nat>>)
    requires i < |bricks| && (forall j :: j in aboveBefore <==> 0 <= j < |bricks|)
    requires forall j :: 0 <= j < |bricks| ==> aboveBefore[j] == if j < i then AboveSet(bricks, locations, j) else []
    requires above == aboveBefore[i := AboveSet(bricks, locations, i)]
    ensures forall j :: 0 <= j < |bricks| ==> above[j] == if j < i + 1 then AboveSet(bricks, locations, j) else []
  {
    forall j | 0 <= j < |bricks|
      ensures above[j] == if j < i + 1 then AboveSet(bricks, locations, j) else []
    {
      if j != i {
        assert above[j] == aboveBefore[j];
      }
    }
  }

  /** Round `i` adds `i` below each brick above it. */
  lemma BelowRound(bricks: seq<Brick>, locations: map<Point, nat>, belowBefore: map<nat, seq<nat>>, i: nat, list: seq<nat>, below: map<nat, seq<nat>>)
    requires i < |bricks| && (forall j :: j in belowBefore <==> 0 <= j < |bricks|)
    requires forall j :: 0 <= j < |bricks| ==> belowBefore[j] == BelowUpTo(bricks, locations, j, i)
    requires list == AboveFrom(locations, bricks[i].points, i)
    requires below.Keys == belowBefore.Keys
    requires forall a :: a in below ==> below[a] == belowBefore[a] + (if a in list then [i] else [])
    ensures forall j :: j in below <==> 0 <= j < |bricks|
    ensures forall j :: 0 <= j < |bricks| ==> below[j] == BelowUpTo(bricks, locations, j, i + 1)
  {
    forall j | 0 <= j < |bricks|
      ensures below[j] == BelowUpTo(bricks, locations, j, i + 1)
    {
      assert j in belowBefore;
      assert below[j] == belowBefore[j] + (if j in list then [i] else []);
    }
    assert forall j :: j in below <==> j in belowBefore;
  }

  /** One round of the second loop: brick `i` is linked with the bricks above it. */
  method LinkNext(bricks: seq<Brick>, locations: map<Point, nat>, aboveBefore: map<nat, seq<nat>>, belowBefore: map<nat, seq<nat>>, i: nat)
    returns (above: map<nat, seq<nat>>, below: map<nat, seq<nat>>)
    requires Indexed(locations, |bricks|) && i < |bricks|
    requires LinkedUpTo(bricks, locations, aboveBefore, belowBefore, i)
    ensures LinkedUpTo(bricks, locations, above, below, i + 1)
  {
    var bricksAboveThisBrick := GetBricksAbove(locations, bricks[i].points, i);
    AboveFromIndexed(locations, bricks[i].points, i, |bricks|);
    NotYetBelow(bricks, locations, aboveBefore, belowBefore, i);
    above, below := LinkBrick(aboveBefore, belowBefore, i, bricksAboveThisBrick);
    AboveRound(bricks, locations, aboveBefore, i, above);
    BelowRound(bricks, locations, belowBefore, i, bricksAboveThisBrick, below);
  }

  /** The two loops at the end of `settle`. */
  method Link(bricks: seq<Brick>, locations: map<Point, nat>) returns (above: map<nat, seq<nat>>, below: map<nat, seq<nat>>)
    requires Indexed(locations, |bricks|)
    ensures Linked(bricks, locations, above, below)
  {
    above, below := map[], map[];
    for i := 0 to |bricks|
      invariant forall j :: j in above <==> 0 <= j < i
      invariant forall j :: j in below <==> 0 <= j < i
      invariant forall j :: 0 <= j < i ==> above[j] == [] && below[j] == []
    {
      above, below := above[i := []], below[i := []];
    }
    for i := 0 to |bricks|
      invariant LinkedUpTo(bricks, locations, above, below, i)
    {
      above, below := LinkNext(bricks, locations, above, below, i);
    }
  }

  /** The links are closed: every brick listed above another has its own list of bricks below. */
  predicate Closed(above: map<nat, seq<nat>>, below: map<nat, seq<nat>>)
  {
    forall i, a :: i in above && a in above[i] ==> a in below
  }

  lemma LinkedClosed(bricks: seq<Brick>, locations: map<Point, nat>, above: map<nat, seq<nat>>, below: map<nat, seq<nat>>)
    requires Indexed(locations, |bricks|) && Linked(bricks, locations, above, below)
    ensures Closed(above, below)
  {
    forall i, a | i in above && a in above[i]
      ensures a in below
    {
      DedupHas(AboveFrom(locations, bricks[i].points, i), a);
      AboveFromIndexed(locations, bricks[i].points, i, |bricks|);
    }
  }

  // Which bricks depend on a brick.

  /** The supports in `below` that still stand: neither the brick `i` nor one that has fallen. */
  function Supports(below: seq<nat>, i: nat, fallen: set<nat>): nat
  {
    if below == [] then 0
    else Supports(below[..|below| - 1], i, fallen) + (if below[|below| - 1] != i && below[|below| - 1] !in fallen then 1 else 0)
  }

  lemma {:induction false} SupportsNone(below: seq<nat>, i: nat, fallen: set<nat>)
    ensures Supports(below, i, fallen) == 0 <==> forall b :: b in below ==> b == i || b in fallen
  {
    if below != [] {
      var init := below[..|below| - 1];
      SupportsNone(init, i, fallen);
      assert below == init + [below[|below| - 1]];
    }
  }

  /** The bricks of `list` whose every support is `i` or has fallen, in order. */
  function DependentsIn(list: seq<nat>, below: map<nat, seq<nat>>, i: nat, fallen: set<nat>): seq<nat>
    requires forall a :: a in list ==> a in below
  {
    if list == [] then []
    else
      var a := list[|list| - 1];
      DependentsIn(list[..|list| - 1], below, i, fallen) + (if Supports(below[a], i, fallen) == 0 then [a] else [])
  }

  /** `getDependentBricks(i, fallen)`: nothing for a brick without a list above it. */
  function Dependents(above: map<nat, seq<nat>>, below: map<nat, seq<nat>>, i: nat, fallen: set<nat>): seq<nat>
    requires Closed(above, below)
  {
    if i in above then DependentsIn(above[i], below, i, fallen) else []
  }

  lemma {:induction false} DependentsInHas(list: seq<nat>, below: map<nat, seq<nat>>, i: nat, fallen: set<nat>, a: nat)
    requires forall b :: b in list ==> b in below
    ensures a in DependentsIn(list, below, i, fallen) <==> a in list && forall b :: b in below[a] ==> b == i || b in fallen
  {
    if list != [] {
      var init := list[..|list| - 1];
      DependentsInHas(init, below, i, fallen, a);
      assert list == init + [list[|list| - 1]];
      SupportsNone(below[list[|list| - 1]], i, fallen);
    }
  }

  /** A brick depends on `i` exactly when it is above `i` and every brick below it is `i` or has fallen. */
  lemma DependentsHas(above: map<nat, seq<nat>>, below: map<nat, seq<nat>>, i: nat, fallen: set<nat>, a: nat)
    requires Closed(above, below)
    ensures a in Dependents(above, below, i, fallen) <==>
      i in above && a in above[i] && forall b :: b in below[a] ==> b == i || b in fallen
  {
    if i in above {
      DependentsInHas(above[i], below, i, fallen, a);
    }
  }

  /** The inner loop of `getDependentBricks`: the supports that still stand. */
  method CountSupports(bricksBelow: seq<nat>, brick: nat, fallen: set<nat>) returns (nSupports: nat)
    ensures nSupports == Supports(bricksBelow, brick, fallen)
  {
    nSupports := 0;
    for k := 0 to |bricksBelow|
      invariant nSupports == Supports(bricksBelow[..k], brick, fallen)
    {
      assert bricksBelow[..k + 1][..k] == bricksBelow[..k];
      if bricksBelow[k] != brick && bricksBelow[k] !in fallen {
        nSupports := nSupports + 1;
      }
    }
    assert bricksBelow[..|bricksBelow|] == bricksBelow;
  }

  /** The sky: the bricks, which cell each cube fills, and the links between resting bricks. */
  class SkyMap {
    var bricks: seq<Brick>
    var brickLocations: map<Point, nat>
    var bricksAbove: map<nat, seq<nat>>
    var bricksBelow: map<nat, seq<nat>>

    /**
     * Caches every brick's cubes, then lets the bricks settle. Without shared cubes the
     * bricks come to rest with each cube located, and the links describe the rest state.
     */
    constructor (bricks: seq<Brick>)
      requires Solid(bricks)
      ensures |this.bricks| == |bricks| && Solid(this.bricks) && Indexed(brickLocations, |bricks|)
      ensures Disjoint(bricks) ==> Located(this.bricks, brickLocations) && Stable(this.bricks, brickLocations)
      ensures Linked(this.bricks, brickLocations, bricksAbove, bricksBelow)
    {
      this.bricks := bricks;
      brickLocations := map[];
      bricksAbove := map[];
      bricksBelow := map[];
      new;
      for i := 0 to |bricks|
        invariant this.bricks == bricks && brickLocations == CachedAll(bricks, i)
      {
        CacheBrickLocations(i);
      }
      CachedAllIndexed(bricks, |bricks|);
      if Disjoint(bricks) {
        CachedAllLocated(bricks, |bricks|);
      }
      Settle();
    }

    /** `cacheBrickLocations`: every cube of brick `i` now maps to it. */
    method CacheBrickLocations(i: nat)
      requires i < |bricks|
      modifies this
      ensures bricks == old(bricks) && bricksAbove == old(bricksAbove) && bricksBelow == old(bricksBelow)
      ensures brickLocations == Cached(old(brickLocations), bricks[i].points, i)
    {
      var points := bricks[i].points;
      for k := 0 to |points|
        invariant brickLocations == Cached(old(brickLocations), points[..k], i)
        invariant bricks == old(bricks) && bricksAbove == old(bricksAbove) && bricksBelow == old(bricksBelow)
      {
        brickLocations := brickLocations[points[k] := i];
        assert points[..k + 1][..k] == points[..k];
      }
      assert points[..|points|] == points;
    }

    /** `moveDown`: the cells of brick `i` are cleared, the brick goes down by one and is cached again. */
    method MoveBrickDown(i: nat)
      requires i < |bricks|
      modifies this
      ensures bricks == old(bricks)[i := MoveDown(old(bricks)[i])]
      ensures brickLocations == Moved(old(brickLocations), old(bricks)[i], i)
      ensures bricksAbove == old(bricksAbove) && bricksBelow == old(bricksBelow)
    {
      var points := bricks[i].points;
      for k := 0 to |points|
        invariant brickLocations == Uncached(old(brickLocations), points[..k])
        invariant bricks == old(bricks) && bricksAbove == old(bricksAbove) && bricksBelow == old(bricksBelow)
      {
        brickLocations := brickLocations - {points[k]};
        assert points[..k + 1][..k] == points[..k];
      }
      assert points[..|points|] == points;
      bricks := bricks[i := MoveDown(bricks[i])];
      CacheBrickLocations(i);
    }

    /** One item of the `settle` worklist, as `SettleOne` states it. */
    method SettleStep(inMotion: seq<nat>) returns (rest: seq<nat>)
      requires inMotion != [] && inMotion[|inMotion| - 1] < |bricks|
      modifies this
      ensures (bricks, brickLocations, rest) == SettleOne(old(bricks), old(brickLocations), inMotion)
      ensures bricksAbove == old(bricksAbove) && bricksBelow == old(bricksBelow)
    {
      var brick := inMotion[|inMotion| - 1];
      rest := inMotion[..|inMotion| - 1];
      if !CanFall(bricks, brickLocations, brick) {
        return;
      }
      var bricksAboveThisBrick := GetBricksAbove(brickLocations, bricks[brick].points, brick);
      MoveBrickDown(brick);
      rest := rest + [brick] + bricksAboveThisBrick;
    }

    /**
     * `settle`: the worklist starts with every brick and is drained, the last brick first;
     * a brick that can fall moves down and goes back with the bricks that were above it,
     * so either the cubes get lower or the worklist gets shorter. Then the links are built. When every cube was located beforehand, no brick can fall afterwards.
     */
    method Settle()
      requires Indexed(brickLocations, |bricks|) && Solid(bricks)
      modifies this
      ensures |bricks| == old(|bricks|) && Indexed(brickLocations, |bricks|) && Solid(bricks)
      ensures old(Located(bricks, brickLocations)) ==> Located(bricks, brickLocations) && Stable(bricks, brickLocations)
      ensures Linked(bricks, brickLocations, bricksAbove, bricksBelow)
    {
      var bricksInMotion: seq<nat> := [];
      for i := 0 to |bricks|
        invariant |bricksInMotion| == i && forall k :: 0 <= k < i ==> bricksInMotion[k] == k
      {
        bricksInMotion := bricksInMotion + [i];
      }
      ghost var located := Located(bricks, brickLocations);
      assert located ==> Settling(bricks, brickLocations, bricksInMotion) by {
        forall j | 0 <= j < |bricks|
          ensures j in bricksInMotion
        {
          assert bricksInMotion[j] == j;
        }
      }
      while bricksInMotion != []
        invariant |bricks| == old(|bricks|) && Indexed(brickLocations, |bricks|) && Solid(bricks)
        invariant InRange(bricksInMotion, |bricks|)
        invariant located ==> Settling(bricks, brickLocations, bricksInMotion)
        decreases Height(bricks), |bricksInMotion|
      {
        ghost var before, locationsBefore, inMotionBefore := bricks, brickLocations, bricksInMotion;
        bricksInMotion := SettleStep(bricksInMotion);
        SettleOneProgress(before, locationsBefore, inMotionBefore);
        if located {
          SettleOneSettles(before, locationsBefore, inMotionBefore);
        }
      }
      var above, below := Link(bricks, brickLocations);
      bricksAbove, bricksBelow := above, below;
    }

    /** `getDependentBricks`: the bricks above `brick` that no standing brick other than it holds up. */
    method GetDependentBricks(brick: nat, fallen: set<nat>) returns (dependentBricks: seq<nat>)
      requires Closed(bricksAbove, bricksBelow)
      ensures dependentBricks == Dependents(bricksAbove, bricksBelow, brick, fallen)
    {
      dependentBricks := [];
      if brick in bricksAbove {
        var list := bricksAbove[brick];
        for k := 0 to |list|
          invariant dependentBricks == DependentsIn(list[..k], bricksBelow, brick, fallen)
        {
          assert list[..k + 1][..k] == list[..k];
          var nSupports := CountSupports(bricksBelow[list[k]], brick, fallen);
          if nSupports == 0 {
            dependentBricks := dependentBricks + [list[k]];
          }
        }
        assert list[..|list|] == list;
      }
    }
  }

  // Part 1: the bricks that can be disintegrated safely.

  /** The number of the first `n` bricks on which no brick depends. */
  function SafeCount(above: map<nat, seq<nat>>, below: map<nat, seq<nat>>, n: nat): (r: nat)
    requires Closed(above, below)
    ensures r <= n
  {
    if n == 0 then 0 else SafeCount(above, below, n - 1) + (if Dependents(above, below, n - 1, {}) == [] then 1 else 0)
  }

  /** A brick is safe exactly when every brick above it rests on some other brick too. */
  lemma SafeIff(above: map<nat, seq<nat>>, below: map<nat, seq<nat>>, i: nat)
    requires Closed(above, below)
    ensures Dependents(above, below, i, {}) == [] <==> (i in above ==> forall a :: a in above[i] ==> exists b :: b in below[a] && b != i)
  {
    if Dependents(above, below, i, {}) != [] {
      var a := Dependents(above, below, i, {})[0];
      DependentsHas(above, below, i, {}, a);
    }
    forall a | i in above && a in above[i] && Dependents(above, below, i, {}) == []
      ensures exists b :: b in below[a] && b != i
    {
      DependentsHas(above, below, i, {}, a);
    }
  }

  /** `part1`: the safe bricks are counted. */
  method Part1(sky: SkyMap) returns (nSafeToDestroy: nat)
    requires Closed(sky.bricksAbove, sky.bricksBelow)
    ensures nSafeToDestroy == SafeCount(sky.bricksAbove, sky.bricksBelow, |sky.bricks|)
  {
    nSafeToDestroy := 0;
    for i := 0 to |sky.bricks|
      invariant nSafeToDestroy == SafeCount(sky.bricksAbove, sky.bricksBelow, i)
    {
      var dependentBricks := sky.GetDependentBricks(i, {});
      if |dependentBricks| == 0 {
        nSafeToDestroy := nSafeToDestroy + 1;
      }
    }
  }

  // Part 2: the chain reaction of each brick.

  /** Brick objects are always truthy. */
  predicate IsBrick(b: nat) { true }

  /** The `process` callback of `part2`: every dependent of the brick falls and is queued. */
  function Topple(above: map<nat, seq<nat>>, below: map<nat, seq<nat>>): (set<nat>, nat) -> (set<nat>, seq<nat>)
    requires Closed(above, below)
  {
    (fallen: set<nat>, b: nat) =>
      var dependentBricks := Dependents(above, below, b, fallen);
      (fallen + (set a | a in dependentBricks), dependentBricks)
  }

  /** The chain reaction of removing brick `i`, bounded by `fuel` queue shifts. */
  function Chain(above: map<nat, seq<nat>>, below: map<nat, seq<nat>>, i: nat, fuel: nat): Drain<set<nat>, nat>
    requires Closed(above, below)
  {
    DrainFifo([i], {}, Topple(above, below), IsBrick, fuel)
  }

  /** How many bricks fall when brick `i` is removed, or None when the chain outruns its fuel. */
  function ChainCount(above: map<nat, seq<nat>>, below: map<nat, seq<nat>>, i: nat, fuel: nat): Option<nat>
    requires Closed(above, below)
  {
    var chain := Chain(above, below, i, fuel);
    if chain.pending == [] then Some(|chain.state|) else None
  }

  /** The bricks that fell in every chain of the first `n` bricks, or None once a chain outruns its fuel. */
  function ChainSum(above: map<nat, seq<nat>>, below: map<nat, seq<nat>>, n: nat, fuel: nat): Option<nat>
    requires Closed(above, below)
  {
    if n == 0 then Some(0)
    else
      match ChainSum(above, below, n - 1, fuel)
      case None => None
      case Some(sum) =>
        match ChainCount(above, below, n - 1, fuel)
        case None => None
        case Some(count) => Some(sum + count)
  }

  /**
   * During a chain reaction from `root`, every fallen brick has only the root and fallen
   * bricks below it, and every brick queued is the root or has fallen.
   */
  ghost predicate Toppled(below: map<nat, seq<nat>>, root: nat, fallen: set<nat>, pending: seq<nat>)
  {
    (forall a :: a in fallen ==> a in below && forall b :: b in below[a] ==> b == root || b in fallen)
    && forall k :: 0 <= k < |pending| ==> pending[k] == root || pending[k] in fallen
  }

  lemma ToppleKeeps(above: map<nat, seq<nat>>, below: map<nat, seq<nat>>, root: nat, fallen: set<nat>, pending: seq<nat>)
    requires Closed(above, below) && pending != [] && Toppled(below, root, fallen, pending)
    ensures var step := Topple(above, below)(fallen, pending[0]);
      fallen <= step.0 && Toppled(below, root, step.0, pending[1..] + step.1)
  {
    var b := pending[0];
    var step := Topple(above, below)(fallen, b);
    assert b == root || b in fallen;
    forall a | a in step.1
      ensures a in below && forall c :: c in below[a] ==> c == b || c in fallen
    {
      DependentsHas(above, below, b, fallen, a);
    }
    forall k | 0 <= k < |pending[1..] + step.1|
      ensures (pending[1..] + step.1)[k] == root || (pending[1..] + step.1)[k] in step.0
    {
      if k >= |pending| - 1 {
        assert (pending[1..] + step.1)[k] in step.1;
      }
    }
  }

  lemma {:induction false} ChainToppled(above: map<nat, seq<nat>>, below: map<nat, seq<nat>>, root: nat, pending: seq<nat>, fallen: set<nat>, fuel: nat)
    requires Closed(above, below) && Toppled(below, root, fallen, pending)
    ensures var d := DrainFifo(pending, fallen, Topple(above, below), IsBrick, fuel);
      fallen <= d.state && Toppled(below, root, d.state, d.pending)
    decreases fuel
  {
    if pending != [] && fuel > 0 {
      var step := Topple(above, below)(fallen, pending[0]);
      ToppleKeeps(above, below, root, fallen, pending);
      ChainToppled(above, below, root, pending[1..] + step.1, step.0, fuel - 1);
      assert DrainFifo(pending, fallen, Topple(above, below), IsBrick, fuel).state
        == DrainFifo(pending[1..] + step.1, step.0, Topple(above, below), IsBrick, fuel - 1).state;
    }
  }

  /** Every brick that falls when brick `i` is removed rests only on `i` and on bricks that fell. */
  lemma ChainFallen(above: map<nat, seq<nat>>, below: map<nat, seq<nat>>, i: nat, fuel: nat, a: nat)
    requires Closed(above, below) && a in Chain(above, below, i, fuel).state
    ensures a in below && forall b :: b in below[a] ==> b == i || b in Chain(above, below, i, fuel).state
  {
    ChainToppled(above, below, i, [i], {}, fuel);
  }

  lemma ChainSumNext(above: map<nat, seq<nat>>, below: map<nat, seq<nat>>, i: nat, fuel: nat)
    requires Closed(above, below)
    ensures ChainSum(above, below, i + 1, fuel)
      == if ChainSum(above, below, i, fuel).Some? && ChainCount(above, below, i, fuel).Some?
         then Some(ChainSum(above, below, i, fuel).value + ChainCount(above, below, i, fuel).value)
         else None
  {
  }

  /** The body of `part2`'s reduce: brick `i`'s chain reaction on a fresh queue. */
  method ChainReaction(above: map<nat, seq<nat>>, below: map<nat, seq<nat>>, i: nat, fuel: nat) returns (count: Option<nat>)
    requires Closed(above, below)
    ensures count == ChainCount(above, below, i, fuel)
  {
    var queue := new Queue<nat>(IsBrick);
    queue.Enqueue(i);
    assert queue.queue == [i];
    var bricksFallen, _ := queue.Process(Topple(above, below), {}, fuel);
    if queue.queue != [] {
      return None;
    }
    return Some(|bricksFallen|);
  }

  /** The reduce of `part2` over the first `n` bricks. */
  method SumChains(above: map<nat, seq<nat>>, below: map<nat, seq<nat>>, n: nat, fuel: nat) returns (chainSum: Option<nat>)
    requires Closed(above, below)
    ensures chainSum == ChainSum(above, below, n, fuel)
  {
    chainSum := Some(0);
    for i := 0 to n
      invariant chainSum == ChainSum(above, below, i, fuel)
    {
      if chainSum.Some? {
        var count := ChainReaction(above, below, i, fuel);
        ChainSumNext(above, below, i, fuel);
        chainSum := if count.Some? then Some(chainSum.value + count.value) else None;
      } else {
        ChainSumNext(above, below, i, fuel);
      }
    }
  }

  /** `part2`: the fallen bricks of every brick's chain reaction are summed. */
  method Part2(sky: SkyMap, fuel: nat) returns (chainSum: Option<nat>)
    requires Closed(sky.bricksAbove, sky.bricksBelow)
    ensures chainSum == ChainSum(sky.bricksAbove, sky.bricksBelow, |sky.bricks|, fuel)
  {
    chainSum := SumChains(sky.bricksAbove, sky.bricksBelow, |sky.bricks|, fuel);
  }
}
