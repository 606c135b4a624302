/** Overlap tests between axis-aligned rectangles and circles (collision.go),
    modelled for integer elements. */
module Collision {
  import Math
  import opened Vectors
  import opened Points
  import opened Sizes
  import opened Rectangles
  import opened Circles

  /** Closed-interval overlap of the two rectangles on both axes. */
  predicate CollisionRectangles(r1: Rectangle, r2: Rectangle) {
    var min1, max1 := r1.Min(), r1.Max();
    var min2, max2 := r2.Min(), r2.Max();
    min1.x <= max2.x && min2.x <= max1.x && min1.y <= max2.y && min2.y <= max1.y
  }

  /** The three-branch rectangle-circle test. `halfExtents` stands for the
      rectangle's size scaled by 0.5 and turned into a vector, which goes through
      helpers not defined in the files this model covers. */
  predicate CollisionRectangleCircle(r: Rectangle, c: Circle, halfExtents: Vector) {
    var distance := c.center.Subtract(r.center).Abs();
    if distance.x > halfExtents.x + c.radius || distance.y > halfExtents.y + c.radius then
      false
    else if distance.x <= halfExtents.x || distance.y <= halfExtents.y then
      true
    else
      distance.Subtract(halfExtents).Less(c.radius)
  }

  /** Strict: the centers must be closer than the sum of the radii. */
  predicate CollisionCircles(c1: Circle, c2: Circle) {
    var distance := c1.center.Subtract(c2.center);
    var threshold := c1.radius + c2.radius;
    distance.Less(threshold)
  }

  lemma {:induction false} CollisionsAreSymmetric(r1: Rectangle, r2: Rectangle, c1: Circle, c2: Circle)
    ensures CollisionRectangles(r1, r2) == CollisionRectangles(r2, r1)
    ensures CollisionCircles(c1, c2) == CollisionCircles(c2, c1)
  {
    var d := c1.center.Subtract(c2.center);
    assert c2.center.Subtract(c1.center) == d.Negate();
    LengthSquaredProperties(d);
    assert c1.radius + c2.radius == c2.radius + c1.radius;
  }

  /** A point both rectangles contain makes them collide; when both sizes are
      non-negative, the corner made of the larger minimum coordinates is such a
      point whenever they collide. */
  lemma {:induction false} CollisionRectanglesIsSharedPoint(r1: Rectangle, r2: Rectangle, p: Point)
    ensures r1.Contains(p) && r2.Contains(p) ==> CollisionRectangles(r1, r2)
    ensures r1.size.width >= 0 && r1.size.height >= 0 && r2.size.width >= 0 && r2.size.height >= 0 ==>
      (CollisionRectangles(r1, r2) <==> r1.Contains(OverlapCorner(r1, r2)) && r2.Contains(OverlapCorner(r1, r2)))
  {
    MaxMinusMinIsSize(r1);
    MaxMinusMinIsSize(r2);
  }

  function OverlapCorner(r1: Rectangle, r2: Rectangle): (corner: Point)
    ensures corner.x >= r1.Min().x && corner.x >= r2.Min().x
    ensures corner.y >= r1.Min().y && corner.y >= r2.Min().y
  {
    P(if r1.Min().x < r2.Min().x then r2.Min().x else r1.Min().x,
      if r1.Min().y < r2.Min().y then r2.Min().y else r1.Min().y)
  }

  /** Rectangles that only share an edge collide. */
  lemma {:induction false} TouchingRectanglesCollide(r: Rectangle)
    requires r.size.width >= 0 && r.size.height >= 0
    ensures CollisionRectangles(r, r.Translate(V(r.Width(), 0)))
    ensures CollisionRectangles(r, r)
  {
    MaxMinusMinIsSize(r);
    TranslateShiftsCorners(r, V(r.Width(), 0), r.center);
  }

  /** A circle collides with a zero-radius circle exactly when it contains its center. */
  lemma CollisionCirclesWithPoint(c: Circle, p: Point)
    ensures CollisionCircles(c, C(p, 0)) == c.Contains(p)
  {
  }

  /** Circles whose centers are exactly the sum of the radii apart do not collide. */
  lemma {:induction false} TouchingCirclesDoNotCollide(c1: Circle, c2: Circle)
    requires c1.center.Subtract(c2.center) == V(c1.radius + c2.radius, 0)
    ensures !CollisionCircles(c1, c2)
  {
    var t := c1.radius + c2.radius;
    assert V(t, 0).LengthSquared() == t * t + 0 * 0;
  }

  /** How far the offset lies past the half extent on one axis, zero when within. */
  function Gap(offset: int, half: int): (g: int)
    ensures g >= 0 && g >= offset - half
  {
    if offset > half then offset - half else 0
  }

  /** The three-branch test sits between the open and the closed disc: when the
      nearest point of the rectangle (offset by the gaps on both axes) is strictly
      within the radius the shapes collide, and when they collide that point is within
      the radius or on the rim. */
  lemma {:induction false} RectangleCircleAgreesWithNearestPoint(r: Rectangle, c: Circle, halfExtents: Vector)
    requires c.radius >= 0
    ensures var d := c.center.Subtract(r.center).Abs();
      var gx, gy := Gap(d.x, halfExtents.x), Gap(d.y, halfExtents.y);
      (gx * gx + gy * gy < c.radius * c.radius ==> CollisionRectangleCircle(r, c, halfExtents)) &&
      (CollisionRectangleCircle(r, c, halfExtents) ==> gx * gx + gy * gy <= c.radius * c.radius)
  {
    var d := c.center.Subtract(r.center).Abs();
    var e := halfExtents;
    var gx, gy := Gap(d.x, e.x), Gap(d.y, e.y);
    var radius := c.radius;
    Vectors.SquareBounds(gx);
    Vectors.SquareBounds(gy);
    Math.SquareBelow(gx, radius);
    Math.SquareBelow(gy, radius);
    if d.x > e.x && d.y > e.y {
      assert d.Subtract(e) == V(gx, gy);
    }
  }

  /** The package's rectangle-circle tests on whole numbers; the 200x100 rectangle
      at the origin has half extents (100, 50). A circle at (150,0) of radius 60
      reaches past the right edge. */
  lemma RectangleCircleEdgeExample()
    ensures CollisionRectangleCircle(R(P(0, 0), S(200, 100)), C(P(150, 0), 60), V(100, 50))
  {
    assert P(150, 0).Subtract(P(0, 0)).Abs() == V(150, 0);
  }

  /** A circle at (110,80) of radius 60 reaches the corner (100,50). */
  lemma RectangleCircleCornerExample()
    ensures CollisionRectangleCircle(R(P(0, 0), S(200, 100)), C(P(110, 80), 60), V(100, 50))
  {
    assert P(110, 80).Subtract(P(0, 0)).Abs() == V(110, 80);
    assert V(110, 80).Subtract(V(100, 50)) == V(10, 30);
    assert V(10, 30).LengthSquared() == 1000;
  }

  /** A circle at (150,0) of radius 40 stays clear of the right edge. */
  lemma RectangleCircleClearExample()
    ensures !CollisionRectangleCircle(R(P(0, 0), S(200, 100)), C(P(150, 0), 40), V(100, 50))
  {
    assert P(150, 0).Subtract(P(0, 0)).Abs() == V(150, 0);
  }

  /** The package's circle tests: radius-100 circles 199 apart collide. */
  lemma CircleExamplesNear()
    ensures CollisionCircles(C(P(0, 0), 100), C(P(199, 0), 100))
  {
    assert P(0, 0).Subtract(P(199, 0)) == V(-199, 0);
    assert V(-199, 0).LengthSquared() == 39601;
  }

  /** Radius-100 circles 210 apart do not. */
  lemma CircleExamplesFar()
    ensures !CollisionCircles(C(P(0, 0), 100), C(P(210, 0), 100))
  {
    assert P(0, 0).Subtract(P(210, 0)) == V(-210, 0);
    assert V(-210, 0).LengthSquared() == 44100;
  }

  lemma RectangleExamples()
    ensures CollisionRectangles(R(P(0, 0), S(200, 100)), R(P(100, -50), S(200, 50)))
    ensures !CollisionRectangles(R(P(0, 0), S(200, 100)), R(P(100, 350), S(200, 450)))
  {
    assert Math.GoDiv(-200, 2) == -100 && Math.GoDiv(200, 2) == 100;
    assert Math.GoDiv(-100, 2) == -50 && Math.GoDiv(100, 2) == 50;
    assert Math.GoDiv(-50, 2) == -25 && Math.GoDiv(50, 2) == 25;
    assert Math.GoDiv(-450, 2) == -225;
    assert R(P(0, 0), S(200, 100)).Min() == P(-100, -50);
    assert R(P(0, 0), S(200, 100)).Max() == P(100, 50);
    assert R(P(100, -50), S(200, 50)).Min() == P(0, -75);
    assert R(P(100, -50), S(200, 50)).Max() == P(200, -25);
    assert R(P(100, 350), S(200, 450)).Min().y == 125;
  }
}
