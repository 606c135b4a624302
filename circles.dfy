/** Circles given by a center and a radius (circle.go), modelled for integer
    elements. Containment is strict: a point at exactly the radius is outside. */
module Circles {
  import Math
  import opened Vectors
  import opened Points
  import opened Sizes
  import opened Rectangles

  datatype Circle = C(center: Point, radius: int) {

    function Translate(v: Vector): Circle {
      C(center.Add(v), radius)
    }

    function MoveTo(point: Point): Circle {
      C(point, radius)
    }

    function Scale(factor: real, multiple: Math.Multiplier): Circle {
      C(center, multiple(radius, factor))
    }

    function Resize(newRadius: int): Circle {
      C(center, newRadius)
    }

    function Expand(amount: int): Circle {
      C(center, radius + amount)
    }

    function Shrunk(amount: int): Circle {
      C(center, radius - amount)
    }

    function Diameter(): int {
      radius * 2
    }

    /** As written: the size of the rectangle is the radius, so the rectangle spans
        only half the circle's extent on each axis. */
    function Bounds(): Rectangle {
      R(center, S(radius, radius))
    }

    /** The bounding rectangle the doc comment describes: one diameter on each side. */
    function EnclosingBounds(): Rectangle {
      R(center, S(Diameter(), Diameter()))
    }

    predicate Equal(other: Circle) {
      center.Equal(other.center) && Math.Equal(radius as real, other.radius as real)
    }

    predicate Contains(point: Point) {
      center.Subtract(point).Less(radius)
    }
  }

  /** A point is inside exactly when its squared distance to the center is below the
      squared radius. */
  lemma {:induction false} ContainsIsStrictDistance(c: Circle, p: Point)
    ensures c.Contains(p) <==> c.center.DistanceToSquared(p) < c.radius * c.radius
    ensures c.Contains(p) <==> p.DistanceToSquared(c.center) < c.radius * c.radius
  {
    var d := c.center.Subtract(p);
    assert p.Subtract(c.center) == d.Negate();
    LengthSquaredProperties(d);
    assert c.Contains(p) <==> d.LengthSquared() < c.radius * c.radius;
  }

  /** The rim is outside: a point one radius from the center is not contained, and
      the center itself is contained unless the radius is zero. */
  lemma {:induction false} RimIsOutside(c: Circle)
    ensures !c.Contains(c.center.Add(V(c.radius, 0)))
    ensures c.Contains(c.center) <==> c.radius != 0
  {
    var r := c.radius;
    assert c.center.Subtract(c.center.Add(V(r, 0))) == V(-r, 0);
    assert V(-r, 0).LengthSquared() == (-r) * (-r) + 0 * 0;
    assert (-r) * (-r) == r * r;
    assert c.center.Subtract(c.center) == V(0, 0);
    Vectors.SquareBounds(r);
  }

  /** Moving the circle and the point together keeps containment. */
  lemma {:induction false} ContainsIsTranslationInvariant(c: Circle, p: Point, v: Vector)
    ensures c.Translate(v).Contains(p.Add(v)) <==> c.Contains(p)
  {
    assert c.Translate(v).center.Subtract(p.Add(v)) == c.center.Subtract(p);
  }

  /** A larger non-negative radius keeps every contained point. */
  lemma {:induction false} ExpandKeepsContainedPoints(c: Circle, amount: int, p: Point)
    requires c.radius >= 0 && amount >= 0
    ensures c.Contains(p) ==> c.Expand(amount).Contains(p)
  {
    LessProperties(c.center.Subtract(p), c.radius, c.radius + amount);
  }

  lemma ResizingKeepsCenter(c: Circle, v: Vector, p: Point, r: int, a: int)
    ensures c.Translate(v) == C(c.center.Add(v), c.radius) && c.MoveTo(p) == C(p, c.radius)
    ensures c.Resize(r).center == c.center && c.Resize(r).radius == r
    ensures c.Expand(a).Shrunk(a) == c && c.Shrunk(a).Expand(a) == c
    ensures c.Expand(a).radius == c.radius + a && c.Expand(a).center == c.center
    ensures c.Diameter() == 2 * c.radius
  {
  }

  /** On integer elements tolerant equality of circles is exact equality. */
  lemma {:induction false} EqualIsExact(c: Circle, d: Circle)
    ensures c.Equal(d) <==> c == d
  {
    Points.EqualAndZeroAreExact(c.center, d.center);
    Math.EqualOnIntegers(c.radius, d.radius);
  }

  /** `Bounds` as written does not enclose the circle: the circle of radius 10 at the
      origin contains (9,0), but its bounds span only from (-5,-5) to (5,5). */
  lemma {:induction false} BoundsMissesContainedPoint()
    ensures C(P(0, 0), 10).Contains(P(9, 0))
    ensures C(P(0, 0), 10).Bounds().Min() == P(-5, -5) && C(P(0, 0), 10).Bounds().Max() == P(5, 5)
    ensures !C(P(0, 0), 10).Bounds().Contains(P(9, 0))
  {
    assert Math.GoDiv(-10, 2) == -5 && Math.GoDiv(10, 2) == 5;
    assert V(0, 0).Subtract(V(9, 0)).LengthSquared() == 81;
  }

  /** The corrected bounds contain every point of a circle with a non-negative radius,
      and are centered on it with the diameter as width and height. */
  lemma {:induction false} EnclosingBoundsContainCircle(c: Circle, p: Point)
    requires c.radius >= 0
    ensures c.Contains(p) ==> c.EnclosingBounds().Contains(p)
    ensures c.EnclosingBounds().Min() == c.center.AddXY(-c.radius, -c.radius)
    ensures c.EnclosingBounds().Max() == c.center.AddXY(c.radius, c.radius)
  {
    var b := c.EnclosingBounds();
    assert Math.GoDiv(2 * c.radius, 2) == c.radius by {
      Math.GoDivExact(c.radius, 2);
    }
    Math.GoDivNegate(2 * c.radius, 2);
    var d := c.center.Subtract(p);
    if c.Contains(p) {
      assert d.x * d.x < c.radius * c.radius && d.y * d.y < c.radius * c.radius by {
        Vectors.SquareBounds(d.x);
        Vectors.SquareBounds(d.y);
      }
      Math.SquareBelow(d.x, c.radius);
      Math.SquareBelow(d.y, c.radius);
    }
  }

  /** The cases of the package's circle tests. */
  lemma {:induction false} IntegerExamples()
    ensures !C(P(1, 2), 10).Contains(P(1, 12)) && C(P(1, 2), 10).Contains(P(4, 4))
    ensures C(P(1, 2), 10).Translate(V(3, -2)) == C(P(4, 0), 10)
    ensures C(P(1, 2), 10).MoveTo(P(3, -2)) == C(P(3, -2), 10)
    ensures C(P(1, 2), 10).Resize(8) == C(P(1, 2), 8)
  {
  }
}
