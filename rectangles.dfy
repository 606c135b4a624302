/** Axis-aligned rectangles stored as a center and a size (rectangle.go), modelled
    for integer elements. The corners are derived with Go's truncating division, so
    an odd width puts the extra unit on the maximum side. */
module Rectangles {
  import Math
  import opened Vectors
  import opened Points
  import opened Sizes
  import Polygons

  /** The `Grow`/`Shrink` operations of `Size` that the rectangle calls. They are not
      defined in the files this model covers, so they are parameters. */
  type SizeStep = (Size, int) -> Size
  type SizeStepXY = (Size, int, int) -> Size

  datatype Rectangle = R(center: Point, size: Size) {

    function Translate(v: Vector): Rectangle {
      R(center.Add(v), size)
    }

    function MoveTo(point: Point): Rectangle {
      R(point, size)
    }

    function Scale(factor: real, multiple: Math.Multiplier): Rectangle {
      R(center, size.Scale(factor, multiple))
    }

    function ScaleXY(factorX: real, factorY: real, multiple: Math.Multiplier): Rectangle {
      R(center, size.ScaleXY(factorX, factorY, multiple))
    }

    function Resize(newSize: Size): Rectangle {
      R(center, newSize)
    }

    function Grow(amount: int, grow: SizeStep): Rectangle {
      R(center, grow(size, amount))
    }

    function GrowXY(amountX: int, amountY: int, growXY: SizeStepXY): Rectangle {
      R(center, growXY(size, amountX, amountY))
    }

    function Shrink(amount: int, shrink: SizeStep): Rectangle {
      R(center, shrink(size, amount))
    }

    function ShrinkXY(amountX: int, amountY: int, shrinkXY: SizeStepXY): Rectangle {
      R(center, shrinkXY(size, amountX, amountY))
    }

    function Width(): int {
      size.width
    }

    function Height(): int {
      size.height
    }

    /** The center moved by the negated half size, halved toward zero. */
    function Min(): Point {
      center.AddXY(Math.GoDiv(-size.width, 2), Math.GoDiv(-size.height, 2))
    }

    /** The center moved by the size less its truncated half. */
    function Max(): Point {
      center.AddXY(size.width - Math.GoDiv(size.width, 2), size.height - Math.GoDiv(size.height, 2))
    }

    function BottomLeft(): Point {
      Min()
    }

    function BottomRight(): Point {
      P(Max().x, Min().y)
    }

    function TopLeft(): Point {
      P(Min().x, Max().y)
    }

    function TopRight(): Point {
      Max()
    }

    /** Starting at the minimum corner, counter-clockwise. */
    function Vertices(): seq<Point> {
      [BottomLeft(), BottomRight(), TopRight(), TopLeft()]
    }

    function Area(): int {
      size.Area()
    }

    function Perimeter(): int {
      size.Perimeter()
    }

    function Bounds(): Rectangle {
      this
    }

    predicate Equal(other: Rectangle) {
      center.Equal(other.center) && size.Equal(other.size)
    }

    /** Center and size both zero; the point and size zero tests are `Zero`. */
    predicate IsZero() {
      center.Zero() && size.Zero()
    }

    /** Inclusive on every edge. */
    predicate Contains(point: Point) {
      Min().x <= point.x <= Max().x && Min().y <= point.y <= Max().y
    }

    function ToPolygon(): Polygons.Polygon {
      Polygons.Polygon(Vertices())
    }
  }

  /** Centered half the size (scaled by 0.5 through the multiplier) away from `min`. */
  function RectangleFromMin(min: Point, size: Size, multiple: Math.Multiplier): Rectangle {
    var half := size.Scale(0.5, multiple);
    R(min.AddXY(half.width, half.height), size)
  }

  function RectangleFromMinMax(min: Point, max: Point, multiple: Math.Multiplier): Rectangle {
    var extent := max.Subtract(min);
    RectangleFromMin(min, S(extent.x, extent.y), multiple)
  }

  /** The two corners are exactly one size apart, whatever the parity of the size. */
  lemma {:induction false} MaxMinusMinIsSize(r: Rectangle)
    ensures r.Max().Subtract(r.Min()) == V(r.Width(), r.Height())
    ensures r.Max().x - r.Min().x == r.size.width && r.Max().y - r.Min().y == r.size.height
  {
    Math.GoDivNegate(r.size.width, 2);
    Math.GoDivNegate(r.size.height, 2);
  }

  /** With a non-negative size the center lies between the corners; with a negative
      width or height the rectangle contains no point at all. */
  lemma {:induction false} CornersOrder(r: Rectangle, p: Point)
    ensures r.size.width >= 0 ==> r.Min().x <= r.center.x <= r.Max().x
    ensures r.size.height >= 0 ==> r.Min().y <= r.center.y <= r.Max().y
    ensures r.size.width >= 0 && r.size.height >= 0 ==> r.Contains(r.center)
    ensures r.size.width < 0 || r.size.height < 0 ==> !r.Contains(p)
  {
    MaxMinusMinIsSize(r);
    Math.GoDivNegate(r.size.width, 2);
    Math.GoDivNegate(r.size.height, 2);
    Math.GoDivRemainder(r.size.width, 2);
    Math.GoDivRemainder(r.size.height, 2);
  }

  /** The corners name the extremes: left and bottom are the minimum, right and top
      the maximum. */
  lemma CornersAreExtremes(r: Rectangle)
    ensures r.BottomLeft() == r.Min() && r.TopRight() == r.Max()
    ensures r.BottomRight().x == r.Max().x && r.BottomRight().y == r.Min().y
    ensures r.TopLeft().x == r.Min().x && r.TopLeft().y == r.Max().y
  {
  }

  /** The vertices run counter-clockwise from the minimum corner: right by the width,
      up by the height, left by the width and down by the height, closing the loop. */
  lemma {:induction false} VerticesWindCounterClockwise(r: Rectangle)
    ensures |r.Vertices()| == 4 && r.Vertices()[0] == r.Min() && r.Vertices()[2] == r.Max()
    ensures r.Vertices()[1].Subtract(r.Vertices()[0]) == V(r.Width(), 0)
    ensures r.Vertices()[2].Subtract(r.Vertices()[1]) == V(0, r.Height())
    ensures r.Vertices()[3].Subtract(r.Vertices()[2]) == V(-r.Width(), 0)
    ensures r.Vertices()[0].Subtract(r.Vertices()[3]) == V(0, -r.Height())
    ensures V(r.Width(), 0).Cross(V(0, r.Height())) == r.Area()
  {
    MaxMinusMinIsSize(r);
  }

  /** Each vertex of a rectangle with a non-negative size lies in it. */
  lemma {:induction false} VerticesAreContained(r: Rectangle)
    requires r.size.width >= 0 && r.size.height >= 0
    ensures forall i :: 0 <= i < |r.Vertices()| ==> r.Contains(r.Vertices()[i])
    ensures r.Contains(r.Min()) && r.Contains(r.Max())
  {
    MaxMinusMinIsSize(r);
  }

  /** Translating moves both corners, and containment moves with the rectangle. */
  lemma {:induction false} TranslateShiftsCorners(r: Rectangle, v: Vector, p: Point)
    ensures r.Translate(v).Min() == r.Min().Add(v)
    ensures r.Translate(v).Max() == r.Max().Add(v)
    ensures r.Translate(v).Contains(p.Add(v)) <==> r.Contains(p)
    ensures r.MoveTo(p).Min() == r.Min().Add(p.Subtract(r.center))
  {
  }

  /** Moving changes only the center; resizing, scaling, growing and shrinking change
      only the size. */
  lemma MovesAndResizesAreSeparate(r: Rectangle, v: Vector, p: Point, s: Size, a: int, b: int,
                                   f: real, g: real, multiple: Math.Multiplier,
                                   grow: SizeStep, growXY: SizeStepXY, shrink: SizeStep, shrinkXY: SizeStepXY)
    ensures r.Translate(v).size == r.size && r.Translate(v).center == r.center.Add(v)
    ensures r.MoveTo(p).size == r.size && r.MoveTo(p).center == p
    ensures r.Resize(s).center == r.center && r.Resize(s).size == s
    ensures r.Scale(f, multiple).center == r.center && r.Scale(f, multiple).size == r.size.Scale(f, multiple)
    ensures r.ScaleXY(f, g, multiple).center == r.center && r.ScaleXY(f, g, multiple).size == r.size.ScaleXY(f, g, multiple)
    ensures r.Grow(a, grow).center == r.center && r.Grow(a, grow).size == grow(r.size, a)
    ensures r.GrowXY(a, b, growXY).center == r.center && r.GrowXY(a, b, growXY).size == growXY(r.size, a, b)
    ensures r.Shrink(a, shrink).center == r.center && r.Shrink(a, shrink).size == shrink(r.size, a)
    ensures r.ShrinkXY(a, b, shrinkXY).center == r.center && r.ShrinkXY(a, b, shrinkXY).size == shrinkXY(r.size, a, b)
  {
  }

  /** Whatever the multiplier, the rectangle spanned by two points has their
      difference as its size, and the size is kept by `RectangleFromMin`. */
  lemma FromMinMaxSize(min: Point, max: Point, size: Size, multiple: Math.Multiplier)
    ensures RectangleFromMinMax(min, max, multiple).size == S(max.x - min.x, max.y - min.y)
    ensures RectangleFromMin(min, size, multiple).size == size
  {
  }

  /** The rectangle spans from `min` to `max`, provided that the multiplier halves the
      extent as Go's integer division does. */
  lemma {:induction false} FromMinMaxRoundTrip(min: Point, max: Point, multiple: Math.Multiplier)
    requires multiple(max.x - min.x, 0.5) == Math.GoDiv(max.x - min.x, 2)
    requires multiple(max.y - min.y, 0.5) == Math.GoDiv(max.y - min.y, 2)
    ensures RectangleFromMinMax(min, max, multiple).Min() == min
    ensures RectangleFromMinMax(min, max, multiple).Max() == max
  {
    Math.GoDivNegate(max.x - min.x, 2);
    Math.GoDivNegate(max.y - min.y, 2);
  }

  lemma BoundsAndPolygon(r: Rectangle)
    ensures r.Bounds() == r
    ensures r.ToPolygon().vertices == r.Vertices()
    ensures r.Area() == r.Width() * r.Height() && r.Perimeter() == 2 * (r.Width() + r.Height())
  {
  }

  /** On integer elements the tolerant tests are exact. */
  lemma {:induction false} EqualAndIsZeroAreExact(r: Rectangle, o: Rectangle)
    ensures r.Equal(o) <==> r == o
    ensures r.IsZero() <==> r == R(ZeroPoint, S(0, 0))
  {
    Points.EqualAndZeroAreExact(r.center, o.center);
    Sizes.EqualAndZeroAreExact(r.size, o.size);
  }

  /** The integer cases of the package's rectangle tests, with the rectangle centered
      at (1,2) of size 2x3. */
  lemma {:induction false} IntegerExamples()
    ensures R(P(1, 2), S(2, 3)).Min() == P(0, 1) && R(P(1, 2), S(2, 3)).Max() == P(2, 4)
    ensures R(P(1, 2), S(2, 3)).Area() == 6 && R(P(1, 2), S(2, 3)).Perimeter() == 10
    ensures !R(P(1, 2), S(2, 3)).Contains(P(3, 0)) && R(P(1, 2), S(2, 3)).Contains(P(1, 1))
    ensures R(P(1, 2), S(2, 3)).Translate(V(3, -2)) == R(P(4, 0), S(2, 3))
    ensures R(P(0, 0), S(2, 2)).Vertices() == [P(-1, -1), P(1, -1), P(1, 1), P(-1, 1)]
    ensures R(P(0, 0), S(0, 0)).IsZero() && !R(P(1, 2), S(2, 3)).IsZero()
  {
    EqualAndIsZeroAreExact(R(P(0, 0), S(0, 0)), R(P(0, 0), S(0, 0)));
    EqualAndIsZeroAreExact(R(P(1, 2), S(2, 3)), R(P(1, 2), S(2, 3)));
  }
}
