/**
 * `Point3D`: an `(x, y, z)` position with its string key, its neighbours and vector
 * arithmetic. Components are integers; `Point3DSet` is a `CustomSet` keyed by `ToString`.
 */
module Point3D {
  import opened Wrappers
  import Decimal

  datatype Point3D = Point3D(x: int, y: int, z: int)

  /** `[x, y, z].toString()`: the three components joined by commas. */
  function ToString(p: Point3D): string
  {
    Decimal.IntToString(p.x) + [','] + (Decimal.IntToString(p.y) + [','] + Decimal.IntToString(p.z))
  }

  /** Equal strings mean equal points, so a `Point3DSet` identifies points by their components. */
  lemma {:induction false} ToStringInjective(p: Point3D, q: Point3D)
    ensures ToString(p) == ToString(q) <==> p == q
  {
    if ToString(p) == ToString(q) {
      var px, py, pz := Decimal.IntToString(p.x), Decimal.IntToString(p.y), Decimal.IntToString(p.z);
      var qx, qy, qz := Decimal.IntToString(q.x), Decimal.IntToString(q.y), Decimal.IntToString(q.z);
      assert ',' !in px && ',' !in qx && ',' !in py && ',' !in qy;
      Decimal.JoinInjective(px, py + [','] + pz, qx, qy + [','] + qz, ',');
      Decimal.JoinInjective(py, pz, qy, qz, ',');
      Decimal.IntToStringInjective(p.x, q.x);
      Decimal.IntToStringInjective(p.y, q.y);
      Decimal.IntToStringInjective(p.z, q.z);
    }
  }

  /** The position of an offset in the order of the three nested loops (`dx` outer, `dz` inner). */
  function Code(o: (int, int, int)): int
  {
    9 * (o.0 + 1) + 3 * (o.1 + 1) + (o.2 + 1)
  }

  /** The offsets of the three nested loops, in loop order, without `(0, 0, 0)`. */
  function Offsets(): (r: seq<(int, int, int)>)
    ensures |r| == 26
    ensures forall i :: 0 <= i < |r| ==> Code(r[i]) == (if i < 13 then i else i + 1)
    ensures forall i :: 0 <= i < |r| ==> -1 <= r[i].0 <= 1 && -1 <= r[i].1 <= 1 && -1 <= r[i].2 <= 1
  {
    [(-1, -1, -1), (-1, -1, 0), (-1, -1, 1), (-1, 0, -1), (-1, 0, 0), (-1, 0, 1), (-1, 1, -1), (-1, 1, 0), (-1, 1, 1),
     (0, -1, -1), (0, -1, 0), (0, -1, 1), (0, 0, -1), (0, 0, 1), (0, 1, -1), (0, 1, 0), (0, 1, 1),
     (1, -1, -1), (1, -1, 0), (1, -1, 1), (1, 0, -1), (1, 0, 0), (1, 0, 1), (1, 1, -1), (1, 1, 0), (1, 1, 1)]
  }

  predicate Unit(o: (int, int, int))
  {
    -1 <= o.0 <= 1 && -1 <= o.1 <= 1 && -1 <= o.2 <= 1
  }

  lemma OffsetsDistinct()
    ensures forall i, j :: 0 <= i < j < |Offsets()| ==> Offsets()[i] != Offsets()[j]
  {
  }

  /** The offsets tried are exactly those within one step on every axis, other than none at all. */
  lemma OffsetsExactly(o: (int, int, int))
    ensures o in Offsets() <==> Unit(o) && o != (0, 0, 0)
  {
    if Unit(o) && o != (0, 0, 0) {
      var k := Code(o);
      var i := if k < 13 then k else k - 1;
      assert Code(Offsets()[i]) == k;
    }
  }

  /** Non-negative, and below `maximumGridSize` on every axis when it is given. */
  predicate WithinBounds(q: Point3D, maximumGridSize: Option<Point3D>)
  {
    q.x >= 0 && q.y >= 0 && q.z >= 0
    && (maximumGridSize.Some? ==> q.x < maximumGridSize.value.x && q.y < maximumGridSize.value.y && q.z < maximumGridSize.value.z)
  }

  predicate Admitted(q: Point3D, maximumGridSize: Option<Point3D>, ignorePoints: set<string>)
  {
    WithinBounds(q, maximumGridSize) && ToString(q) !in ignorePoints
  }

  function Diff(q: Point3D, p: Point3D): (int, int, int)
  {
    (q.x - p.x, q.y - p.y, q.z - p.z)
  }

  /** The admitted points among `p` moved by each of `offsets`, in order. */
  function Select(p: Point3D, offsets: seq<(int, int, int)>, maximumGridSize: Option<Point3D>, ignorePoints: set<string>): (r: seq<Point3D>)
    ensures |r| <= |offsets|
    ensures forall q :: q in r <==> Diff(q, p) in offsets && Admitted(q, maximumGridSize, ignorePoints)
  {
    if offsets == [] then []
    else
      var q := Point3D(p.x + offsets[0].0, p.y + offsets[0].1, p.z + offsets[0].2);
      (if Admitted(q, maximumGridSize, ignorePoints) then [q] else []) + Select(p, offsets[1..], maximumGridSize, ignorePoints)
  }

  lemma {:induction false} SelectDistinct(p: Point3D, offsets: seq<(int, int, int)>, maximumGridSize: Option<Point3D>, ignorePoints: set<string>)
    requires forall i, j :: 0 <= i < j < |offsets| ==> offsets[i] != offsets[j]
    ensures var r := Select(p, offsets, maximumGridSize, ignorePoints);
      forall i, j :: 0 <= i < j < |r| ==> r[i] != r[j]
  {
    if offsets != [] {
      SelectDistinct(p, offsets[1..], maximumGridSize, ignorePoints);
      var q := Point3D(p.x + offsets[0].0, p.y + offsets[0].1, p.z + offsets[0].2);
      assert Diff(q, p) == offsets[0] && offsets[0] !in offsets[1..];
      assert q !in Select(p, offsets[1..], maximumGridSize, ignorePoints);
    }
  }

  /** `neighbors({maximumGridSize, ignorePoints})`; an absent `ignorePoints` is the empty set. */
  function Neighbors(p: Point3D, maximumGridSize: Option<Point3D>, ignorePoints: set<string>): seq<Point3D>
  {
    Select(p, Offsets(), maximumGridSize, ignorePoints)
  }

  /**
   * The neighbours are exactly the points other than `p` within one step of it on every axis,
   * within bounds and not in `ignorePoints`; there are at most 26 and none repeats.
   */
  lemma {:induction false} NeighborsSpec(p: Point3D, maximumGridSize: Option<Point3D>, ignorePoints: set<string>)
    ensures var r := Neighbors(p, maximumGridSize, ignorePoints);
      |r| <= 26
      && (forall i, j :: 0 <= i < j < |r| ==> r[i] != r[j])
      && (forall q :: q in r <==> q != p && Unit(Diff(q, p)) && Admitted(q, maximumGridSize, ignorePoints))
  {
    var r := Neighbors(p, maximumGridSize, ignorePoints);
    assert r == Select(p, Offsets(), maximumGridSize, ignorePoints);
    OffsetsDistinct();
    SelectDistinct(p, Offsets(), maximumGridSize, ignorePoints);
    forall q
      ensures q in r <==> q != p && Unit(Diff(q, p)) && Admitted(q, maximumGridSize, ignorePoints)
    {
      OffsetsExactly(Diff(q, p));
    }
  }

  /** `equals`: all three components agree. */
  predicate Equals(a: Point3D, b: Point3D)
  {
    a.x == b.x && a.y == b.y && a.z == b.z
  }

  lemma EqualsIsEquality(a: Point3D, b: Point3D)
    ensures Equals(a, b) <==> a == b
  {
  }

  function Add(a: Point3D, b: Point3D): Point3D
  {
    Point3D(a.x + b.x, a.y + b.y, a.z + b.z)
  }

  function Subtract(a: Point3D, b: Point3D): Point3D
  {
    Point3D(a.x - b.x, a.y - b.y, a.z - b.z)
  }

  function Multiply(a: Point3D, scalar: int): Point3D
  {
    Point3D(a.x * scalar, a.y * scalar, a.z * scalar)
  }

  function Dot(a: Point3D, b: Point3D): int
  {
    a.x * b.x + a.y * b.y + a.z * b.z
  }

  function Cross(a: Point3D, b: Point3D): Point3D
  {
    Point3D(a.y * b.z - a.z * b.y, a.z * b.x - a.x * b.z, a.x * b.y - a.y * b.x)
  }

  /** Subtracting then adding the same vector gives the original back, and the other way round. */
  lemma SubtractAddInverse(a: Point3D, b: Point3D)
    ensures Add(Subtract(a, b), b) == a && Subtract(Add(a, b), b) == a
  {
  }

  /** `add` is commutative and associative, with the origin as identity. */
  lemma AddGroup(a: Point3D, b: Point3D, c: Point3D)
    ensures Add(a, b) == Add(b, a) && Add(Add(a, b), c) == Add(a, Add(b, c)) && Add(a, Point3D(0, 0, 0)) == a
  {
  }

  /** Scaling distributes over `add`, and scaling by 1 or -1 gives the vector or its negation. */
  lemma MultiplyDistributes(a: Point3D, b: Point3D, k: int)
    ensures Multiply(Add(a, b), k) == Add(Multiply(a, k), Multiply(b, k))
    ensures Multiply(a, 1) == a && Add(a, Multiply(a, -1)) == Point3D(0, 0, 0)
  {
  }

  /** The dot product is symmetric and scales with either argument. */
  lemma DotBilinear(a: Point3D, b: Point3D, k: int)
    ensures Dot(a, b) == Dot(b, a) && Dot(Multiply(a, k), b) == k * Dot(a, b)
  {
    assert a.x * k * b.x + a.y * k * b.y + a.z * k * b.z == k * (a.x * b.x + a.y * b.y + a.z * b.z);
  }

  /** The cross product is perpendicular to both of its arguments, and swapping them negates it. */
  lemma CrossOrthogonal(a: Point3D, b: Point3D)
    ensures Dot(a, Cross(a, b)) == 0 && Dot(b, Cross(a, b)) == 0
    ensures Cross(b, a) == Multiply(Cross(a, b), -1)
  {
  }
}
