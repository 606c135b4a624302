/** Regular polygons (regular_polygon.go): `N` vertices spaced evenly around a
    center, the first at `Angle`, stretched by `Size` along the axes. The shape is
    kept as these four parameters; its vertices are computed on demand. */
module RegularPolygons {
  import Math
  import opened Vectors
  import opened Points
  import opened Sizes
  import Rectangles
  import Polygons

  /** `math.Pi`. */
  const Pi: real := 3.141592653589793

  /** `Orientation` is a Go `int`; the two named orientations are its first values. */
  type Orientation = int
  const FlatTop: Orientation := 0
  const PointTop: Orientation := 1

  /** A float64 result that may be the infinity of a division by zero. */
  datatype Float = Finite(value: real) | NegativeInfinity

  /** `VectorFromAngle(angle, 1)`: the direction at `angle`, in the element type.
      It is not defined in the files this model covers, so the vertex computations
      take it as a parameter. */
  type Direction = real -> Vector

  /** Whether a direction function repeats after a full turn. */
  ghost predicate Periodic(fromAngle: Direction) {
    forall t: real :: fromAngle(t) == fromAngle(t + 2.0 * Pi)
  }

  datatype RegularPolygon = RegPol(center: Point, size: Size, n: int, angle: real) {

    function Translate(change: Vector): RegularPolygon {
      RegPol(center.Add(change), size, n, angle)
    }

    function MoveTo(point: Point): RegularPolygon {
      RegPol(point, size, n, angle)
    }

    function Scale(factor: real, multiple: Math.Multiplier): RegularPolygon {
      RegPol(center, size.Scale(factor, multiple), n, angle)
    }

    function ScaleXY(factorX: real, factorY: real, multiple: Math.Multiplier): RegularPolygon {
      RegPol(center, size.ScaleXY(factorX, factorY, multiple), n, angle)
    }

    /** Adds to the angle; the angle is not normalised to one turn. */
    function Rotate(delta: real): RegularPolygon {
      RegPol(center, size, n, angle + delta)
    }

    /** The angle between consecutive vertices. */
    function AngleStep(): real
      requires n != 0
    {
      (2.0 * Pi) / n as real
    }

    /** The direction of vertex `i`. */
    function VertexAngle(i: int): real
      requires n != 0
    {
      angle + i as real * AngleStep()
    }

    /** The offset of vertex `i` from the center: the direction at its angle,
        stretched by the width and the height. */
    function Spoke(i: int, fromAngle: Direction, multiple: Math.Multiplier): Vector
      requires n != 0
    {
      fromAngle(VertexAngle(i)).MultiplyXY(size.width as real, size.height as real, multiple)
    }

    /** Vertex `i`, as the loop of `Vertices` computes it. */
    function VertexAt(i: int, fromAngle: Direction, multiple: Math.Multiplier): Point
      requires n != 0
    {
      center.Add(Spoke(i, fromAngle, multiple))
    }

    /** `Vertices`: the `n` vertices counter-clockwise from `angle`. Go's `make`
        panics on a negative length. */
    method Vertices(fromAngle: Direction, multiple: Math.Multiplier) returns (vertices: seq<Point>)
      requires n >= 0
      ensures |vertices| == n
      ensures forall i :: 0 <= i < n ==> vertices[i] == VertexAt(i, fromAngle, multiple)
    {
      var buffer := new Point[n];
      for i := 0 to n
        invariant forall j :: 0 <= j < i ==> buffer[j] == VertexAt(j, fromAngle, multiple)
      {
        buffer[i] := VertexAt(i, fromAngle, multiple);
      }
      vertices := buffer[..];
    }

    /** The bounding box placeholder: both extents doubled, whatever the angle. */
    function Bounds(multiple: Math.Multiplier): Rectangles.Rectangle {
      Rectangles.R(center, size.ScaleXY(2.0 * 1.0, 2.0 * 1.0, multiple))
    }

    /** The same vertices as a general polygon. */
    method Polygon(fromAngle: Direction, multiple: Math.Multiplier) returns (polygon: Polygons.Polygon)
      requires n >= 0
      ensures |polygon.vertices| == n
      ensures forall i :: 0 <= i < n ==> polygon.vertices[i] == VertexAt(i, fromAngle, multiple)
    {
      var vertices := Vertices(fromAngle, multiple);
      polygon := Polygons.Polygon(vertices);
    }

    /** Compares center, size and vertex count; the angle is ignored. */
    predicate Equal(other: RegularPolygon) {
      center.Equal(other.center) && size.Equal(other.size) && n == other.n
    }

    predicate IsZero() {
      center.Zero() && size.Zero() && n == 0
    }

    predicate Empty() {
      n == 0
    }
  }

  /** `RegularPolygonAngle`: the start angle that puts a flat side or a vertex on
      top. For a flat top with `n == 0` the float64 division is by zero. */
  function RegularPolygonAngle(n: int, orientation: Orientation): Float {
    if orientation == FlatTop then
      (if n == 0 then NegativeInfinity else Finite(Pi * (n - 2) as real / (2.0 * n as real)))
    else if orientation == PointTop then
      Finite(Pi / 2.0)
    else
      Finite(0.0)
  }

  function Triangle(center: Point, size: Size, orientation: Orientation): RegularPolygon {
    RegPol(center, size, 3, RegularPolygonAngle(3, orientation).value)
  }

  function Square(center: Point, size: Size, orientation: Orientation): RegularPolygon {
    RegPol(center, size, 4, RegularPolygonAngle(4, orientation).value)
  }

  function Hexagon(center: Point, size: Size, orientation: Orientation): RegularPolygon {
    RegPol(center, size, 6, RegularPolygonAngle(6, orientation).value)
  }

  /** A flat top turns the first vertex a quarter turn less half a step, that is
      90 - 180/n degrees; a pointed top starts at a quarter turn; any other
      orientation at 0. */
  lemma {:induction false} RegularPolygonAngleValues(n: int, orientation: Orientation)
    ensures orientation == FlatTop && n != 0 ==> RegularPolygonAngle(n, orientation) == Finite(Pi / 2.0 - Pi / n as real)
    ensures orientation == FlatTop && n == 0 ==> RegularPolygonAngle(n, orientation) == NegativeInfinity
    ensures orientation == PointTop ==> RegularPolygonAngle(n, orientation) == Finite(Pi / 2.0)
    ensures orientation != FlatTop && orientation != PointTop ==> RegularPolygonAngle(n, orientation) == Finite(0.0)
  {
    if orientation == FlatTop && n != 0 {
      var m := n as real;
      assert Pi * (n - 2) as real / (2.0 * m) == Pi * (m - 2.0) / (2.0 * m);
      assert Pi * (m - 2.0) / (2.0 * m) == Pi / 2.0 - Pi / m;
    }
  }

  /** The angles of the package's tests: 30, 45 and 60 degrees for a flat top,
      90 degrees for a pointed top. */
  lemma AngleExamples()
    ensures RegularPolygonAngle(3, FlatTop) == Finite(Pi / 6.0)
    ensures RegularPolygonAngle(4, FlatTop) == Finite(Pi / 4.0)
    ensures RegularPolygonAngle(6, FlatTop) == Finite(Pi / 3.0)
    ensures RegularPolygonAngle(3, PointTop) == Finite(Pi / 2.0)
    ensures RegularPolygonAngle(6, 7) == Finite(0.0)
  {
  }

  /** The shape constructors fix the vertex count and take the start angle of the
      orientation. */
  lemma FactoriesFixVertexCount(center: Point, size: Size, orientation: Orientation)
    ensures Triangle(center, size, orientation).n == 3 && Square(center, size, orientation).n == 4
    ensures Hexagon(center, size, orientation).n == 6
    ensures Finite(Triangle(center, size, orientation).angle) == RegularPolygonAngle(3, orientation)
    ensures Finite(Square(center, size, orientation).angle) == RegularPolygonAngle(4, orientation)
    ensures Finite(Hexagon(center, size, orientation).angle) == RegularPolygonAngle(6, orientation)
    ensures Triangle(center, size, orientation).center == center && Triangle(center, size, orientation).size == size
  {
  }

  /** Each transformation changes one parameter and keeps the others, the vertex
      count in particular. */
  lemma TransformsChangeOneParameter(rp: RegularPolygon, v: Vector, p: Point, f: real, fx: real, fy: real,
                                     delta: real, multiple: Math.Multiplier)
    ensures rp.Translate(v) == RegPol(rp.center.Add(v), rp.size, rp.n, rp.angle)
    ensures rp.MoveTo(p) == RegPol(p, rp.size, rp.n, rp.angle)
    ensures rp.Scale(f, multiple) == RegPol(rp.center, S(multiple(rp.size.width, f), multiple(rp.size.height, f)), rp.n, rp.angle)
    ensures rp.ScaleXY(fx, fy, multiple) == RegPol(rp.center, S(multiple(rp.size.width, fx), multiple(rp.size.height, fy)), rp.n, rp.angle)
    ensures rp.Rotate(delta).angle == rp.angle + delta && rp.Rotate(delta).n == rp.n && rp.Rotate(delta).center == rp.center
  {
  }

  /** Translating moves every vertex by the same vector. */
  lemma {:induction false} TranslateMovesVertices(rp: RegularPolygon, v: Vector, i: int, fromAngle: Direction, multiple: Math.Multiplier)
    requires rp.n != 0
    ensures rp.Translate(v).VertexAt(i, fromAngle, multiple) == rp.VertexAt(i, fromAngle, multiple).Add(v)
  {
    var w := rp.Spoke(i, fromAngle, multiple);
    var moved := rp.Translate(v);
    assert moved.angle == rp.angle && moved.size == rp.size && moved.n == rp.n;
    assert moved.VertexAngle(i) == rp.VertexAngle(i);
    assert moved.Spoke(i, fromAngle, multiple) == w;
    AddComposes(rp.center, v, w);
    AddComposes(rp.center, w, v);
    AddIsCommutativeAndInvertible(v, w);
  }

  /** Rotating by one step moves each vertex to where the next one was. */
  lemma {:induction false} RotateByStepShiftsVertices(rp: RegularPolygon, i: int, fromAngle: Direction, multiple: Math.Multiplier)
    requires rp.n != 0
    ensures rp.Rotate(rp.AngleStep()).VertexAt(i, fromAngle, multiple) == rp.VertexAt(i + 1, fromAngle, multiple)
  {
    var step := rp.AngleStep();
    var rotated := rp.Rotate(step);
    assert rotated.AngleStep() == step;
    assert rotated.angle + i as real * step == rp.angle + (i + 1) as real * step by {
      assert (i + 1) as real * step == i as real * step + step;
    }
  }

  /** The vertices are spaced evenly around a full turn: vertex `i + n` is vertex
      `i` again. Together with the previous lemma, rotating by one step maps the
      vertex set onto itself. */
  lemma {:induction false} VerticesCloseTheTurn(rp: RegularPolygon, i: int, fromAngle: Direction, multiple: Math.Multiplier)
    requires rp.n != 0
    requires Periodic(fromAngle)
    ensures rp.VertexAt(i + rp.n, fromAngle, multiple) == rp.VertexAt(i, fromAngle, multiple)
  {
    var step := rp.AngleStep();
    var m := rp.n as real;
    assert m * step == 2.0 * Pi;
    var t := rp.angle + i as real * step;
    assert rp.angle + (i + rp.n) as real * step == t + 2.0 * Pi by {
      assert (i + rp.n) as real * step == i as real * step + m * step;
    }
    assert fromAngle(t) == fromAngle(t + 2.0 * Pi);
  }

  /** The four axis directions and whole factors give the vertices of the square
      tests: `(w,0), (0,h), (-w,0), (0,-h)`. */
  lemma {:induction false} SquareVertices(rp: RegularPolygon, fromAngle: Direction, multiple: Math.Multiplier)
    requires rp.n == 4 && rp.angle == 0.0 && rp.center == ZeroPoint
    requires fromAngle(0.0) == RightVector && fromAngle(Pi / 2.0) == UpVector
    requires fromAngle(Pi) == LeftVector && fromAngle(3.0 * Pi / 2.0) == DownVector
    requires multiple(0, rp.size.width as real) == 0 && multiple(0, rp.size.height as real) == 0
    requires multiple(1, rp.size.width as real) == rp.size.width && multiple(1, rp.size.height as real) == rp.size.height
    requires multiple(-1, rp.size.width as real) == -rp.size.width && multiple(-1, rp.size.height as real) == -rp.size.height
    ensures rp.VertexAt(0, fromAngle, multiple) == P(rp.size.width, 0)
    ensures rp.VertexAt(1, fromAngle, multiple) == P(0, rp.size.height)
    ensures rp.VertexAt(2, fromAngle, multiple) == P(-rp.size.width, 0)
    ensures rp.VertexAt(3, fromAngle, multiple) == P(0, -rp.size.height)
  {
    var step := rp.AngleStep();
    var w := rp.size.width as real;
    var h := rp.size.height as real;
    assert step == Pi / 2.0;
    assert rp.VertexAt(0, fromAngle, multiple) == ZeroPoint.Add(RightVector.MultiplyXY(w, h, multiple)) by {
      assert 0.0 + 0 as real * step == 0.0;
    }
    assert rp.VertexAt(1, fromAngle, multiple) == ZeroPoint.Add(UpVector.MultiplyXY(w, h, multiple)) by {
      assert 0.0 + 1 as real * step == Pi / 2.0;
    }
    assert rp.VertexAt(2, fromAngle, multiple) == ZeroPoint.Add(LeftVector.MultiplyXY(w, h, multiple)) by {
      assert 0.0 + 2 as real * step == Pi;
    }
    assert rp.VertexAt(3, fromAngle, multiple) == ZeroPoint.Add(DownVector.MultiplyXY(w, h, multiple)) by {
      assert 0.0 + 3 as real * step == 3.0 * Pi / 2.0;
    }
  }

  /** With a factor of two applied exactly, the bounds keep the center and double
      both extents; `RegPol((1,2), 2x2, 4, 0)` is bounded by a 4x4 rectangle. */
  lemma {:induction false} BoundsDoubleSize(rp: RegularPolygon, multiple: Math.Multiplier)
    requires multiple(rp.size.width, 2.0) == 2 * rp.size.width
    requires multiple(rp.size.height, 2.0) == 2 * rp.size.height
    ensures rp.Bounds(multiple) == Rectangles.R(rp.center, S(2 * rp.size.width, 2 * rp.size.height))
    ensures rp.Bounds(multiple).Area() == 4 * rp.size.Area()
    ensures rp.Rotate(1.0).Bounds(multiple) == rp.Bounds(multiple)
  {
    assert rp.Bounds(multiple).Area() == (2 * rp.size.width) * (2 * rp.size.height);
  }

  /** On integer elements `Equal` is exact on center, size and count, and it does
      not see the angle. */
  lemma EqualIgnoresAngle(rp: RegularPolygon, other: RegularPolygon, delta: real)
    ensures rp.Equal(other) <==> rp.center == other.center && rp.size == other.size && rp.n == other.n
    ensures rp.Equal(rp.Rotate(delta))
  {
    Points.EqualAndZeroAreExact(rp.center, other.center);
    Sizes.EqualAndZeroAreExact(rp.size, other.size);
    Points.EqualAndZeroAreExact(rp.center, rp.center);
    Sizes.EqualAndZeroAreExact(rp.size, rp.size);
  }

  /** `Empty` looks at the count only; `IsZero` also needs a zero center and size. */
  lemma EmptyAndIsZero(rp: RegularPolygon)
    ensures rp.Empty() <==> rp.n == 0
    ensures rp.IsZero() <==> rp.center == ZeroPoint && rp.size == S(0, 0) && rp.n == 0
    ensures rp.IsZero() ==> rp.Empty()
    ensures RegPol(P(1, 2), S(2, 2), 4, 0.0).Empty() == false
  {
    Points.EqualAndZeroAreExact(rp.center, ZeroPoint);
    Sizes.EqualAndZeroAreExact(rp.size, S(0, 0));
  }
}
