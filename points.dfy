/** Positions in the plane (point.go), modelled for integer elements. A point
    differs from a vector in meaning only: points are moved by vectors, and the
    difference of two points is a vector. */
module Points {
  import Math
  import opened Vectors

  datatype Point = P(x: int, y: int) {

    function XY(): (int, int) {
      (x, y)
    }

    function Add(v: Vector): Point {
      P(x + v.x, y + v.y)
    }

    function AddXY(deltaX: int, deltaY: int): Point {
      P(x + deltaX, y + deltaY)
    }

    /** The vector leading from `other` to this point. */
    function Subtract(other: Point): Vector {
      V(x - other.x, y - other.y)
    }

    function Multiply(factor: real, multiple: Math.Multiplier): Point {
      P(multiple(x, factor), multiple(y, factor))
    }

    function MultiplyXY(factorX: real, factorY: real, multiple: Math.Multiplier): Point {
      P(multiple(x, factorX), multiple(y, factorY))
    }

    function Midpoint(other: Point): Point {
      P(Math.Midpoint(x, other.x), Math.Midpoint(y, other.y))
    }

    function Lerp(other: Point, t: real): Point {
      P(Math.Lerp(x, other.x, t), Math.Lerp(y, other.y, t))
    }

    function DistanceToSquared(other: Point): int {
      other.Subtract(this).LengthSquared()
    }

    predicate Equal(other: Point) {
      Math.Equal(x as real, other.x as real) && Math.Equal(y as real, other.y as real)
    }

    /** Equal to the zero value of the struct. */
    predicate Zero() {
      Equal(P(0, 0))
    }
  }

  const ZeroPoint := P(0, 0)

  lemma AddXYMatchesAdd(p: Point, dx: int, dy: int)
    ensures p.AddXY(dx, dy) == p.Add(V(dx, dy))
    ensures p.Add(V(dx, dy)).x == p.x + dx && p.Add(V(dx, dy)).y == p.y + dy
    ensures p.XY() == (p.x, p.y)
  {
  }

  /** Subtracting gives the displacement from `o` to `p`: adding it back to `o`
      lands on `p`, and moving `p` by `v` moves the displacement by `v`. */
  lemma SubtractIsDisplacement(p: Point, o: Point, v: Vector)
    ensures o.Add(p.Subtract(o)) == p
    ensures p.Add(v).Subtract(p) == v
    ensures p.Add(v).Subtract(o) == p.Subtract(o).Add(v)
  {
  }

  lemma SubtractAntisymmetric(p: Point, q: Point)
    ensures p.Subtract(p) == ZeroVector
    ensures q.Subtract(p) == p.Subtract(q).Negate()
  {
  }

  /** Moving by two vectors in turn is moving by their sum. */
  lemma AddComposes(p: Point, v: Vector, w: Vector)
    ensures p.Add(v).Add(w) == p.Add(v.Add(w))
    ensures p.Add(ZeroVector) == p
  {
  }

  lemma {:induction false} DistanceToSquaredProperties(p: Point, q: Point)
    ensures p.DistanceToSquared(q) == q.DistanceToSquared(p)
    ensures p.DistanceToSquared(q) >= 0
    ensures p.DistanceToSquared(q) == 0 <==> p == q
    ensures p.DistanceToSquared(p) == 0
  {
    var d := q.Subtract(p);
    assert p.Subtract(q) == d.Negate();
    assert p.Subtract(p) == ZeroVector;
    LengthSquaredProperties(d);
    SubtractIsZero(p, q);
  }

  /** The displacement between two points vanishes exactly when they coincide. */
  lemma SubtractIsZero(p: Point, q: Point)
    ensures q.Subtract(p) == ZeroVector <==> p == q
  {
  }

  /** On integer elements the tolerant tests are exact. */
  lemma EqualAndZeroAreExact(p: Point, q: Point)
    ensures p.Equal(q) <==> p == q
    ensures p.Zero() <==> p.Equal(ZeroPoint)
    ensures p.Zero() <==> p == ZeroPoint
    ensures p.Equal(q) <==> q.Equal(p)
  {
    Math.EqualOnIntegers(p.x, q.x);
    Math.EqualOnIntegers(p.y, q.y);
    Math.EqualOnIntegers(p.x, 0);
    Math.EqualOnIntegers(p.y, 0);
  }

  /** The midpoint is symmetric and, per axis, the sum halved toward zero. */
  lemma {:induction false} MidpointProperties(p: Point, q: Point)
    ensures p.Midpoint(q) == q.Midpoint(p)
    ensures p.Midpoint(q) == P(Math.GoDiv(p.x + q.x, 2), Math.GoDiv(p.y + q.y, 2))
    ensures p.Midpoint(p) == p
  {
    Math.MidpointTruncates(p.x, q.x);
    Math.MidpointTruncates(p.y, q.y);
    Math.MidpointTruncates(p.x, p.x);
    Math.MidpointTruncates(p.y, p.y);
  }

  lemma {:induction false} LerpEndpoints(p: Point, q: Point)
    ensures p.Lerp(q, 0.0) == p
    ensures p.Lerp(q, 1.0) == q
  {
    Math.LerpEndpoints(p.x, q.x);
    Math.LerpEndpoints(p.y, q.y);
  }

  /** The integer cases of the package's point tests: the halves and the
      fractions are cut toward zero. */
  lemma IntegerExamples()
    ensures P(1, 2).Midpoint(P(3, -3)) == P(2, 0)
    ensures P(1, 2).Lerp(P(3, -3), 0.3) == P(1, 0)
  {
    MidpointProperties(P(1, 2), P(3, -3));
    assert Math.RealLerp(1.0, 3.0, 0.3) == 1.6;
    assert Math.RealLerp(2.0, -3.0, 0.3) == 0.5;
  }
}
