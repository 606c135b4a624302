/** Polygons given by their vertex list (polygon.go), modelled for integer
    elements. Every operation returns a new polygon; the receiver's vertices are a
    value and cannot be written. */
module Polygons {
  import Math
  import opened Vectors
  import opened Points
  import Slices

  /** Sum of the x coordinates, accumulated front to back as the loop of `Center` does. */
  function SumX(vs: seq<Point>): int {
    if |vs| == 0 then 0 else SumX(vs[..|vs| - 1]) + vs[|vs| - 1].x
  }

  function SumY(vs: seq<Point>): int {
    if |vs| == 0 then 0 else SumY(vs[..|vs| - 1]) + vs[|vs| - 1].y
  }

  /** Adding one more vertex adds its coordinates to the sums. */
  lemma SumsAppend(vs: seq<Point>, q: Point)
    ensures SumX(vs + [q]) == SumX(vs) + q.x && SumY(vs + [q]) == SumY(vs) + q.y
  {
    assert (vs + [q])[..|vs|] == vs;
  }

  lemma SumsOfTwo(a: Point, b: Point)
    ensures SumX([a, b]) == a.x + b.x && SumY([a, b]) == a.y + b.y
  {
    assert [a] + [b] == [a, b];
    SumsAppend([a], b);
    assert [] + [a] == [a];
    SumsAppend([], a);
  }

  /** The per-vertex step of `Translate`. */
  function Mover(v: Vector): Point -> Point {
    (e: Point) => e.Add(v)
  }

  datatype Polygon = Polygon(vertices: seq<Point>) {

    /** The value `Center` computes: each coordinate sum divided by the vertex count
        with Go's truncating integer division. An empty polygon divides by zero,
        which panics. */
    function Centroid(): Point
      requires |vertices| > 0
    {
      P(Math.GoDiv(SumX(vertices), |vertices|), Math.GoDiv(SumY(vertices), |vertices|))
    }

    /** The accumulation loop of `Center`. */
    method Center() returns (center: Point)
      requires |vertices| > 0
      ensures center == Centroid()
    {
      var x, y := 0, 0;
      for i := 0 to |vertices|
        invariant x == SumX(vertices[..i]) && y == SumY(vertices[..i])
      {
        x, y := x + vertices[i].x, y + vertices[i].y;
        assert vertices[..i + 1][..i] == vertices[..i];
      }
      assert vertices[..|vertices|] == vertices;
      center := P(Math.GoDiv(x, |vertices|), Math.GoDiv(y, |vertices|));
    }

    function Translate(v: Vector): Polygon {
      Polygon(Slices.Mapped(vertices, Mover(v)))
    }

    /** Translates by the vector from the centroid to `point`. */
    function MoveTo(point: Point): Polygon
      requires |vertices| > 0
    {
      Translate(point.Subtract(Centroid()))
    }

    /** Every vertex moved away from the centroid by the factor. */
    function Scale(factor: real, multiple: Math.Multiplier): Polygon
      requires |vertices| > 0
    {
      var center := Centroid();
      Polygon(Slices.Mapped(vertices, (q: Point) => center.Add(q.Subtract(center).Multiply(factor, multiple))))
    }

    function ScaleXY(factorX: real, factorY: real, multiple: Math.Multiplier): Polygon
      requires |vertices| > 0
    {
      var center := Centroid();
      Polygon(Slices.Mapped(vertices, (q: Point) => center.Add(q.Subtract(center).MultiplyXY(factorX, factorY, multiple))))
    }
  }

  /** Translation keeps the count and order of the vertices and moves each one. */
  lemma {:induction false} TranslateVertices(p: Polygon, v: Vector)
    ensures |p.Translate(v).vertices| == |p.vertices|
    ensures forall i :: 0 <= i < |p.vertices| ==> p.Translate(v).vertices[i] == p.vertices[i].Add(v)
  {
    Slices.MappedAt(p.vertices, Mover(v));
  }

  /** Two translations make one by the sum, and the zero vector changes nothing. */
  lemma {:induction false} TranslateComposes(p: Polygon, v: Vector, w: Vector)
    ensures p.Translate(v).Translate(w) == p.Translate(v.Add(w))
    ensures p.Translate(ZeroVector) == p
  {
    TranslateVertices(p, v);
    TranslateVertices(p.Translate(v), w);
    TranslateVertices(p, v.Add(w));
    TranslateVertices(p, ZeroVector);
  }

  /** Moving every vertex by `v` moves the coordinate sums by `n` times `v`. */
  lemma {:induction false} SumsOfTranslate(vs: seq<Point>, v: Vector)
    ensures SumX(Slices.Mapped(vs, Mover(v))) == SumX(vs) + |vs| * v.x
    ensures SumY(Slices.Mapped(vs, Mover(v))) == SumY(vs) + |vs| * v.y
  {
    if |vs| > 0 {
      var init := vs[..|vs| - 1];
      var last := vs[|vs| - 1];
      var moved := Slices.Mapped(init, Mover(v));
      var all := Slices.Mapped(vs, Mover(v));
      assert SumX(all) == SumX(moved) + (last.x + v.x) && SumY(all) == SumY(moved) + (last.y + v.y) by {
        assert all == moved + [Mover(v)(last)];
        assert Mover(v)(last) == last.Add(v);
        SumsAppend(moved, last.Add(v));
      }
      assert SumX(vs) == SumX(init) + last.x && SumY(vs) == SumY(init) + last.y;
      SumsOfTranslate(init, v);
      OneMoreStep(SumX(moved), SumX(init), last.x, |init|, v.x);
      OneMoreStep(SumY(moved), SumY(init), last.y, |init|, v.y);
    }
  }

  /** The arithmetic of one induction step of `SumsOfTranslate`. */
  lemma OneMoreStep(moved: int, sum: int, last: int, k: int, d: int)
    requires moved == sum + k * d
    ensures moved + (last + d) == (sum + last) + (k + 1) * d
  {
  }

  /** When the vertex count divides both coordinate sums, the centroid is exact and
      moves with the polygon. */
  lemma {:induction false} CentroidOfTranslate(p: Polygon, v: Vector)
    requires |p.vertices| > 0
    requires SumX(p.vertices) % |p.vertices| == 0 && SumY(p.vertices) % |p.vertices| == 0
    ensures p.Translate(v).Centroid() == p.Centroid().Add(v)
  {
    var n := |p.vertices|;
    var moved := p.Translate(v).vertices;
    assert |moved| == n;
    SumsOfTranslate(p.vertices, v);
    ShiftedQuotient(SumX(moved), SumX(p.vertices), n, v.x);
    ShiftedQuotient(SumY(moved), SumY(p.vertices), n, v.y);
  }

  /** One coordinate of `CentroidOfTranslate`. */
  lemma ShiftedQuotient(moved: int, sum: int, n: int, d: int)
    requires n > 0 && sum % n == 0
    requires moved == sum + n * d
    ensures Math.GoDiv(moved, n) == Math.GoDiv(sum, n) + d
  {
    Math.GoDivShift(sum, n, d);
  }

  /** `MoveTo` moves every vertex by the vector from the centroid to the target. */
  lemma {:induction false} MoveToVertices(p: Polygon, point: Point)
    requires |p.vertices| > 0
    ensures |p.MoveTo(point).vertices| == |p.vertices|
    ensures forall i :: 0 <= i < |p.vertices| ==>
      p.MoveTo(point).vertices[i] == p.vertices[i].Add(point.Subtract(p.Centroid()))
  {
    TranslateVertices(p, point.Subtract(p.Centroid()));
  }

  /** `MoveTo` puts the centroid on the target point whenever the centroid is exact. */
  lemma {:induction false} MoveToReachesPoint(p: Polygon, point: Point)
    requires |p.vertices| > 0
    requires SumX(p.vertices) % |p.vertices| == 0 && SumY(p.vertices) % |p.vertices| == 0
    ensures p.MoveTo(point).Centroid() == point
    ensures |p.MoveTo(point).vertices| == |p.vertices|
  {
    CentroidOfTranslate(p, point.Subtract(p.Centroid()));
    SubtractIsDisplacement(point, p.Centroid(), ZeroVector);
  }

  /** With a truncated centroid `MoveTo` can miss: the centroid of (-1,0),(0,0) is
      cut to (0,0), so moving to (1,0) shifts by (1,0), and the new vertices (0,0),(1,0)
      again have centroid (0,0) rather than (1,0). */
  lemma {:induction false} MoveToMissesInexactCentroid(p: Polygon)
    requires p.vertices == [P(-1, 0), P(0, 0)]
    ensures p.Centroid() == P(0, 0)
    ensures p.MoveTo(P(1, 0)).vertices == [P(0, 0), P(1, 0)]
    ensures p.MoveTo(P(1, 0)).Centroid() == P(0, 0) != P(1, 0)
  {
    SumsOfTwo(P(-1, 0), P(0, 0));
    SumsOfTwo(P(0, 0), P(1, 0));
    assert p.MoveTo(P(1, 0)) == p.Translate(V(1, 0));
    var moved := p.Translate(V(1, 0));
    TranslateVertices(p, V(1, 0));
    assert moved.vertices[0] == P(0, 0) && moved.vertices[1] == P(1, 0);
  }

  /** Scaling keeps the count and order of the vertices and moves each away from the
      centroid by the scaled offset. */
  lemma {:induction false} ScaleVertices(p: Polygon, factor: real, factorX: real, factorY: real, multiple: Math.Multiplier)
    requires |p.vertices| > 0
    ensures |p.Scale(factor, multiple).vertices| == |p.vertices|
    ensures |p.ScaleXY(factorX, factorY, multiple).vertices| == |p.vertices|
    ensures forall i :: 0 <= i < |p.vertices| ==>
      p.Scale(factor, multiple).vertices[i]
        == p.Centroid().Add(p.vertices[i].Subtract(p.Centroid()).Multiply(factor, multiple))
    ensures forall i :: 0 <= i < |p.vertices| ==>
      p.ScaleXY(factorX, factorY, multiple).vertices[i]
        == p.Centroid().Add(p.vertices[i].Subtract(p.Centroid()).MultiplyXY(factorX, factorY, multiple))
  {
    var center := p.Centroid();
    Slices.MappedAt(p.vertices, (q: Point) => center.Add(q.Subtract(center).Multiply(factor, multiple)));
    Slices.MappedAt(p.vertices, (q: Point) => center.Add(q.Subtract(center).MultiplyXY(factorX, factorY, multiple)));
  }

  /** A factor the multiplier leaves every value alone with leaves the polygon alone. */
  lemma {:induction false} ScaleByNeutralFactor(p: Polygon, factor: real, multiple: Math.Multiplier)
    requires |p.vertices| > 0
    requires forall k :: multiple(k, factor) == k
    ensures p.Scale(factor, multiple) == p
    ensures p.ScaleXY(factor, factor, multiple) == p
  {
    ScaleVertices(p, factor, factor, factor, multiple);
    var center := p.Centroid();
    forall i | 0 <= i < |p.vertices|
      ensures p.Scale(factor, multiple).vertices[i] == p.vertices[i]
      ensures p.ScaleXY(factor, factor, multiple).vertices[i] == p.vertices[i]
    {
      SubtractIsDisplacement(p.vertices[i], center, ZeroVector);
    }
  }

  /** The integer cases of the package's polygon tests. */
  lemma IntegerExamples()
    ensures Polygon([P(0, 0), P(2, 0), P(2, 2), P(0, 2)]).Centroid() == P(1, 1)
    ensures Polygon([P(0, 0), P(2, 0), P(2, 2), P(0, 2)]).Translate(V(1, -1))
      == Polygon([P(1, -1), P(3, -1), P(3, 1), P(1, 1)])
    ensures Polygon([P(0, 0), P(2, 0), P(2, 2), P(0, 2)]).MoveTo(P(10, 10))
      == Polygon([P(9, 9), P(11, 9), P(11, 11), P(9, 11)])
  {
    var p := Polygon([P(0, 0), P(2, 0), P(2, 2), P(0, 2)]);
    assert SumX(p.vertices) == 4 && SumY(p.vertices) == 4 by {
      assert p.vertices == [P(0, 0), P(2, 0), P(2, 2)] + [P(0, 2)];
      SumsAppend([P(0, 0), P(2, 0), P(2, 2)], P(0, 2));
      assert [P(0, 0), P(2, 0), P(2, 2)] == [P(0, 0), P(2, 0)] + [P(2, 2)];
      SumsAppend([P(0, 0), P(2, 0)], P(2, 2));
      assert [P(0, 0), P(2, 0)] == [P(0, 0)] + [P(2, 0)];
      SumsAppend([P(0, 0)], P(2, 0));
      assert [P(0, 0)] == [] + [P(0, 0)];
      SumsAppend([], P(0, 0));
    }
    assert p.Centroid() == P(1, 1);
    TranslateVertices(p, V(1, -1));
    TranslateVertices(p, V(9, 9));
  }
}
