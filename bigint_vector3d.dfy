/**
 * `BigIntVector3D`: an exact integer vector. Division is `BigInt` division, which truncates
 * toward zero and throws a `RangeError` for a zero divisor.
 */
module BigIntVector3D {
  import opened Wrappers
  import P = Point3D

  datatype Vector = Vector(x: int, y: int, z: int)

  /** `fromPoint3D`. */
  function FromPoint3D(p: P.Point3D): (v: Vector)
    ensures v.x == p.x && v.y == p.y && v.z == p.z
  {
    Vector(p.x, p.y, p.z)
  }

  predicate Equals(a: Vector, b: Vector)
  {
    a.x == b.x && a.y == b.y && a.z == b.z
  }

  /** Converted points are equal exactly when the points are. */
  lemma FromPoint3DEquals(p: P.Point3D, q: P.Point3D)
    ensures Equals(FromPoint3D(p), FromPoint3D(q)) <==> P.Equals(p, q)
    ensures Equals(FromPoint3D(p), FromPoint3D(q)) <==> p == q
  {
  }

  function Add(a: Vector, b: Vector): Vector
  {
    Vector(a.x + b.x, a.y + b.y, a.z + b.z)
  }

  function Subtract(a: Vector, b: Vector): Vector
  {
    Vector(a.x - b.x, a.y - b.y, a.z - b.z)
  }

  function Multiply(a: Vector, scalar: int): Vector
  {
    Vector(a.x * scalar, a.y * scalar, a.z * scalar)
  }

  function Dot(a: Vector, b: Vector): int
  {
    a.x * b.x + a.y * b.y + a.z * b.z
  }

  function Cross(a: Vector, b: Vector): Vector
  {
    Vector(a.y * b.z - a.z * b.y, a.z * b.x - a.x * b.z, a.x * b.y - a.y * b.x)
  }

  function Abs(a: int): nat
  {
    if a < 0 then -a else a
  }

  /**
   * `a / b` on `BigInt`: the quotient rounded toward zero. Dafny's own `/` rounds so that the
   * remainder is non-negative, which differs for negative operands.
   */
  function Quotient(a: int, b: int): (q: int)
    requires b != 0
    ensures Abs(a - b * q) < Abs(b)
    ensures a >= 0 ==> 0 <= a - b * q
    ensures a <= 0 ==> a - b * q <= 0
  {
    var m := Abs(a) / Abs(b);
    var q := if (a < 0) == (b < 0) then m else -m;
    RemainderTowardZero(a, b, m, q);
    q
  }

  lemma RemainderTowardZero(a: int, b: int, m: int, q: int)
    requires b != 0 && m == Abs(a) / Abs(b) && q == (if (a < 0) == (b < 0) then m else -m)
    ensures Abs(a - b * q) < Abs(b)
    ensures a >= 0 ==> 0 <= a - b * q
    ensures a <= 0 ==> a - b * q <= 0
  {
    var na: int, nb: int := Abs(a), Abs(b);
    var rr := na % nb;
    var t := nb * m;
    assert na == t + rr && 0 <= rr < nb;
    Negations(nb, m);
    if a < 0 {
      if b < 0 {
        assert b == -nb && q == m;
      } else {
        assert b == nb && q == -m;
      }
      assert b * q == -t;
      assert a - b * q == -rr;
    } else {
      if b < 0 {
        assert b == -nb && q == -m;
      } else {
        assert b == nb && q == m;
      }
      assert b * q == t;
      assert a - b * q == rr;
    }
  }

  lemma Negations(x: int, y: int)
    ensures (-x) * y == -(x * y) && x * (-y) == -(x * y) && (-x) * (-y) == x * y
  {
  }

  /** The quotient toward zero is the only one whose remainder is smaller than the divisor and has the dividend's sign. */
  lemma {:induction false} QuotientUnique(a: int, b: int, q: int)
    requires b != 0
    requires Abs(a - b * q) < Abs(b)
    requires (a >= 0 ==> 0 <= a - b * q) && (a <= 0 ==> a - b * q <= 0)
    ensures q == Quotient(a, b)
  {
    var q0 := Quotient(a, b);
    var r, r0 := a - b * q, a - b * q0;
    assert r0 - r == b * (q - q0) by {
      assert b * (q - q0) == b * q - b * q0;
    }
    if q != q0 {
      AtLeastDivisor(b, q - q0);
    }
  }

  lemma AtLeastDivisor(b: int, k: int)
    requires k != 0
    ensures Abs(b * k) >= Abs(b)
  {
    var nb: int, nk: int := Abs(b), Abs(k);
    NaturalAtLeast(nb, nk);
    if b < 0 && k < 0 {
      Negations(nb, nk);
      assert b * k == (-nb) * (-nk);
    } else if b < 0 {
      Negations(nb, nk);
      assert b * k == (-nb) * nk;
    } else if k < 0 {
      Negations(nb, nk);
      assert b * k == nb * (-nk);
    }
  }

  lemma NaturalAtLeast(x: int, y: int)
    requires x >= 0 && y >= 1
    ensures x * y >= x
  {
    assert x * y == x * (y - 1) + x;
  }

  /** Exact multiples divide back: `(a * k) / k == a`. */
  lemma QuotientOfMultiple(a: int, k: int)
    requires k != 0
    ensures Quotient(a * k, k) == a
  {
    assert a * k - k * a == 0;
    QuotientUnique(a * k, k, a);
  }

  /** `divideBy`: every component divided toward zero; a zero scalar throws. */
  function DivideBy(v: Vector, scalar: int): (r: Result<Vector>)
    ensures r.Failure? <==> scalar == 0
  {
    if scalar == 0 then Failure("RangeError: Division by zero")
    else Success(Vector(Quotient(v.x, scalar), Quotient(v.y, scalar), Quotient(v.z, scalar)))
  }

  /** Dividing a multiple by the same non-zero scalar gives the vector back. */
  lemma DivideMultiply(v: Vector, k: int)
    requires k != 0
    ensures DivideBy(Multiply(v, k), k) == Success(v)
  {
    QuotientOfMultiple(v.x, k);
    QuotientOfMultiple(v.y, k);
    QuotientOfMultiple(v.z, k);
  }

  /** Truncation toward zero at a negative component: `-7 / 2` is `-3`, not `-4`. */
  lemma QuotientTowardZero()
    ensures DivideBy(Vector(-7, 7, 0), 2) == Success(Vector(-3, 3, 0))
    ensures DivideBy(Vector(-7, 7, 0), -2) == Success(Vector(3, -3, 0))
  {
    QuotientUnique(-7, 2, -3);
    QuotientUnique(7, 2, 3);
    QuotientUnique(0, 2, 0);
    QuotientUnique(-7, -2, 3);
    QuotientUnique(7, -2, -3);
    QuotientUnique(0, -2, 0);
  }

  /** Vector arithmetic on converted points agrees with `Point3D`'s. */
  lemma FromPoint3DHomomorphic(p: P.Point3D, q: P.Point3D, k: int)
    ensures Add(FromPoint3D(p), FromPoint3D(q)) == FromPoint3D(P.Add(p, q))
    ensures Subtract(FromPoint3D(p), FromPoint3D(q)) == FromPoint3D(P.Subtract(p, q))
    ensures Multiply(FromPoint3D(p), k) == FromPoint3D(P.Multiply(p, k))
    ensures Dot(FromPoint3D(p), FromPoint3D(q)) == P.Dot(p, q)
    ensures Cross(FromPoint3D(p), FromPoint3D(q)) == FromPoint3D(P.Cross(p, q))
  {
  }

  /** `a - b + b == a`. */
  lemma SubtractAddInverse(a: Vector, b: Vector)
    ensures Add(Subtract(a, b), b) == a
  {
  }

  /** `a.cross(b)` is perpendicular to `a` and to `b`: the plane normal used for hailstone paths. */
  lemma {:induction false} CrossOrthogonal(a: Vector, b: Vector)
    ensures Dot(a, Cross(a, b)) == 0 && Dot(b, Cross(a, b)) == 0
  {
    var p, q := P.Point3D(a.x, a.y, a.z), P.Point3D(b.x, b.y, b.z);
    FromPoint3DHomomorphic(p, q, 0);
    P.CrossOrthogonal(p, q);
    assert FromPoint3D(p) == a && FromPoint3D(q) == b;
  }
}
