# geometry: a verified model of the 2D geometry kernel

This project models the immutable 2D geometry kernel of the Go package `geom`
(gravitton/geometry) in Dafny and proves properties of it. The kernel covers:

- tolerant comparison within `Delta`, and `Cast`, which rounds a float64 back to
  the element type;
- vectors, points, sizes and paddings;
- the shapes: lines, circles, axis-aligned rectangles, polygons and regular polygons;
- the three collision predicates;
- the 2x3 affine matrix.

Every Go operation returns a new value, so each entity is a Dafny `datatype` and
each operation a function on it. The loops of the package are `method`s with
loop invariants, each proved against the function that specifies it:

- the `transform`/`Map` helper, which allocates a fresh slice and fills it;
- the accumulation loop of `Polygon.Center`;
- the vertex loop of `RegularPolygon.Vertices`.

The package is generic over a `Number` element type. The shapes are modelled for
the integer instantiation, where the algebra is exact:

- Go's integer division truncates toward zero. It is written out as
  `Math.GoDiv` and is used where the source divides integers: `Rectangle.Min`/`Max`
  and `Polygon.Center`.
- Converting a float64 back to an integer type truncates. This is `Math.Truncate`,
  used in the generic `Midpoint`/`Lerp`.
- The float64 paths are modelled over exact reals: `midpoint`, `lerp`, the input
  of `Cast`, and the matrix.

Some helpers the package calls are not defined in the files modelled here. Most
enter as parameters; the four whose meaning their names fix are listed under
"Left out":

- `Multiple` (scaling an element by a float factor) is `multiple: (int, real) -> int`.
- `VectorFromAngle(angle, 1)` is `fromAngle: real -> Vector`.
- `math.Sincos` is `sin`/`cos: real -> real`.
- `Size.Grow*`/`Shrink*` are `SizeStep`/`SizeStepXY`.
- `r.Size.Scale(0.5).ToVector()` in the rectangle-circle test is `halfExtents`.
- `Vector.Resize(1)` in `Normalize` is `resize`.

Where the package's tests disagree with its code, the model follows the code:

- math_test.go:8-22 expects rounding for the integer `Midpoint`/`Lerp`. The code
  truncates; see `Math.MidpointTruncates`.
- rectangle_test.go:91 and :98 expect `Min() == TopLeft()` and
  `Max() == BottomRight()`. The code defines `BottomLeft` as `Min` and `TopRight` as
  `Max` (rectangle.go:96-113), and `Rectangles.CornersAreExtremes` follows the code.
- circle_test.go builds circles as `C(x, y, r)`, while circle.go:15 takes a center
  point and a radius. The examples use the latter.

## Model

| member | source | states |
|---|---|---|
| Math.EqualDeltaIsDistance | math.go:39-45 | `EqualDelta(a,b,d)` holds exactly when `a` and `b` lie within `d` of each other in both directions; it never holds for a negative `d` |
| Math.EqualIsReflexiveAndSymmetric | math.go:5-7 | `Equal` is `EqualDelta` with the fixed tolerance 1e-6; it is reflexive and symmetric |
| Math.EqualIsNotTransitive | math.go:34-36 | tolerant equality is not transitive: `0 ~ Delta ~ 2*Delta` but not `0 ~ 2*Delta` |
| Math.EqualOnIntegers | math.go:43-45 | on integer values tolerant equality is exact equality, because `Delta < 1` |
| Math.RealMidpointProperties | math.go:16-20 | `midpoint` is symmetric, equidistant from both ends and lies between ordered ends |
| Math.RealLerpProperties | math.go:28-31 | `lerp` gives `a` at 0 and `b` at 1, equals `midpoint` at 0.5 (the doc comment's shorthand) and is `a + (b-a)t` |
| Math.Truncate | math.go:12-14 | the float-to-integer conversion `T(x)` keeps the sign and drops the fraction: the result lies within one unit of `x`, on the side of zero |
| Math.TruncateOfInteger | math.go:24-26 | converting a whole number back is the identity |
| Math.GoDivRemainder | rectangle.go:82-93 | Go's truncating `/` leaves a remainder with the sign of the dividend that is smaller than the divisor in magnitude |
| Math.GoDivNegate | rectangle.go:82-86 | truncating division commutes with negation, so `-w/2 == -(w/2)` |
| Math.GoDivExact | polygon.go:16 | dividing an exact multiple `k*n` by `n` gives `k` |
| Math.GoDivShift | polygon.go:16 | adding `n*d` to an exact multiple of `n` adds `d` to the quotient |
| Math.GoHalfTruncates | math.go:12-14 | halving with Go's integer `/` equals the real half truncated toward zero |
| Math.MidpointTruncates | math.go:12-14 | the integer `Midpoint` is `(a+b)/2` with truncating division (so `Midpoint(1,4) == 2`, not the rounded 3) and is symmetric |
| Math.LerpEndpoints | math.go:24-26 | the integer `Lerp` returns `a` at 0 and `b` at 1 |
| Constraints.Round | constraints.go:14-17 | `math.Round`: within one half of the input, a tie goes away from zero, and the sign is kept |
| Constraints.IsIntTypeCases | constraints.go:31-41 | `isIntType` is true for int, int8..int64 and false for float32/float64 and for a defined type, which reaches the default branch |
| Constraints.CastExamples | constraints.go:14-20 | 1.2 to 1, 1.6 to 2, -0.3 to 0, -0.51 to -1, 2.5 to 3 and -2.5 to -3 for int; a float kind returns the value unchanged |
| Constraints.CastWithinHalf | constraints.go:15-16 | for an integer kind the cast moves the value by at most one half and yields a whole number |
| Constraints.CastFloatIsIdentity | constraints.go:19 | for a float kind the cast returns its argument |
| Constraints.CastOfWholeNumber | constraints.go:14-20 | a whole number is returned unchanged, whatever the kind |
| Constraints.CastDefinedTypeTruncates | constraints.go:14-20 | a defined integer type is truncated by `T(a)` rather than rounded |
| Constraints.IsIntValueIsWholeNumber | constraints.go:43-45 | `isIntValue(v)` holds exactly when `v` is a whole number |
| Constraints.IsIntValueOfInteger | constraints.go:43-45 | every integer value passes `isIntValue` |
| Constraints.IsIntValueExamples | constraints.go:43-45 | 1, -2 and 23 are whole; 189.2, -9.3333 and 1.000001 are not |
| Vectors.AddIsCommutativeAndInvertible | vector.go:27-44 | `Add` is componentwise and commutative, and `Subtract` undoes it in both orders |
| Vectors.XYFormsMatchVectorForms | vector.go:32-44 | `AddXY`/`SubtractXY` agree with `Add`/`Subtract` of `V(dx,dy)`; `XY` returns `(x, y)` |
| Vectors.NegateProperties | vector.go:67-69 | `Negate` is an involution, `v + (-v)` is zero, and subtracting is adding the negation |
| Vectors.DotAndCrossSymmetry | vector.go:98-105 | `Dot` is symmetric, `Cross` antisymmetric, and `v.Cross(v) == 0` |
| Vectors.NormalProperties | vector.go:108-110 | the normal is orthogonal, as long as the vector, a quarter turn counter-clockwise (positive cross), and twice applied negates |
| Vectors.NormalTurnsDirections | vector.go:108-110 | the normal turns right to up to left to down to right |
| Vectors.LengthSquaredProperties | vector.go:118-120 | `LengthSquared` is `v.Dot(v)`, non-negative, zero only for the zero vector and unchanged by negation |
| Vectors.LessProperties | vector.go:143-145 | `Less` ignores the sign of its bound, nothing is `Less(0)`, it is monotone in a non-negative bound and kept by negation |
| Vectors.ZeroIsExact | vector.go:128-135 | `Zero` holds exactly when both components are within `Delta` of 0, which on integers means the zero vector |
| Vectors.NormalizeOfZero | vector.go:84-87 | `Normalize` of a zero vector is `(1, 0)` |
| Vectors.UnitVectorsAreDirections | vector.go:138-140 | the integer vectors passing `Unit` are exactly the four axis directions |
| Vectors.AbsProperties | vector.go:93-95 | `Abs` is componentwise non-negative, ignores negation, keeps the squared length and fixes non-negative vectors |
| Points.AddXYMatchesAdd | point.go:24-31 | `p.AddXY(dx,dy) == p.Add(V(dx,dy))`, both componentwise; `XY` returns `(x, y)` |
| Points.SubtractIsDisplacement | point.go:34-36 | `o.Add(p.Subtract(o)) == p`, and moving a point moves its displacements by the same vector |
| Points.SubtractAntisymmetric | point.go:34-36 | `p.Subtract(p)` is zero and `q - p == -(p - q)` |
| Points.AddComposes | point.go:24-26 | moving by `v` then `w` is moving by `v + w`; the zero vector moves nothing |
| Points.DistanceToSquaredProperties | point.go:74-76 | the squared distance is symmetric, non-negative, zero exactly between equal points |
| Points.EqualAndZeroAreExact | point.go:84-91 | `Equal` is componentwise; `Zero` is `Equal` to the origin; on integers both are exact, and `Equal` is symmetric |
| Points.MidpointProperties | point.go:59-61 | `Midpoint` is symmetric, is the per-axis sum halved toward zero, and is idempotent |
| Points.LerpEndpoints | point.go:64-66 | `Lerp` returns `p` at 0 and `q` at 1 |
| Points.IntegerExamples | point.go:59-66 | `(1,2)` and `(3,-3)` have midpoint `(2,0)` and 0.3-lerp `(1,0)`: fractions are cut toward zero |
| Sizes.ExpandShrunkRoundTrip | size.go:27-44 | `Expand(d)` and `Shrunk(d)` undo each other in both orders, as do the XY forms |
| Sizes.UniformFormsMatchXYForms | size.go:27-44 | `Expand(d) == ExpandXY(d,d)`, `Shrunk(d) == ShrunkXY(d,d)` and `Shrunk(d) == Expand(-d)` |
| Sizes.PerimeterOfExpand | size.go:52-54 | the perimeter is `2w + 2h` and grows by `4d` when expanded by `d` |
| Sizes.AreaOfExpandXY | size.go:47-49 | expanding by `(dw, dh)` adds `dw*h + dh*w + dw*dh` to the area |
| Sizes.XYOrder | size.go:72-74 | `XY` returns width then height |
| Sizes.EqualAndZeroAreExact | size.go:62-69 | `Equal` and `Zero` are exact on integers |
| Sizes.NothingClamps | size.go:37-54 | shrinking past zero gives negative components, which area and perimeter use unchanged |
| Sizes.IntegerExamples | size.go:27-69 | the package's size cases: expand, shrink, area 15, perimeter 16, zero test |
| Paddings.PadUProperties | padding.go:14-16 | `PadU(p)` equals `PadXY(p,p)`, and its width, height and size are all `2p` |
| Paddings.PadXYSides | padding.go:19-21 | `PadXY(tb, lr)` puts `tb` on top and bottom and `lr` on right and left |
| Paddings.SizeMatchesXY | padding.go:24-41 | `XY` is `(left+right, top+bottom)`, `Size` agrees with it, and padding a size adds exactly that size |
| Paddings.IntegerExamples | padding.go:9-41 | `Pad(2,4,3,5)` has width 9, height 5 and size 9x5; `PadXY(10,20)` |
| Lines.LCoordinates | line.go:11-13 | `L(x1,y1,x2,y2)` runs from `(x1,y1)` to `(x2,y2)` with direction `(x2-x1, y2-y1)` |
| Lines.ReversedProperties | line.go:19-21 | `Reversed` swaps the endpoints, is an involution and negates the direction |
| Lines.TranslateProperties | line.go:15-17 | translation moves both endpoints, keeps the direction and is undone by the opposite vector |
| Lines.ReversedKeepsMidpoint | line.go:23-25 | the midpoint does not depend on the orientation of the line |
| Lines.EqualIsExact | line.go:35-37 | `Equal` compares endpoints in order; it is reflexive, symmetric and exact on integers |
| Slices.Mapped | internal/slices.go:4-11 | the value computed by `Map` has the input's length |
| Slices.MappedAt | polygon.go:47-54 | `transform`'s output element `i` is `fn(input[i])`, so order is kept |
| Slices.MappedComposes | internal/slices.go:4-11 | mapping twice is mapping once with the composed function |
| Slices.Map | internal/slices.go:4-11 | the loop fills a fresh buffer of the input's length with `fn(input[i])` at each index |
| Circles.ContainsIsStrictDistance | circle.go:75-77 | a point is contained exactly when its squared distance to the center is below the squared radius |
| Circles.RimIsOutside | circle.go:75-77 | a point one radius from the center is outside; the center is inside unless the radius is 0 |
| Circles.ContainsIsTranslationInvariant | circle.go:20-22 | moving the circle and the point by the same vector keeps containment |
| Circles.ExpandKeepsContainedPoints | circle.go:40-42 | expanding a non-negative radius keeps every contained point |
| Circles.ResizingKeepsCenter | circle.go:20-62 | `Translate`/`MoveTo` change only the center; `Resize`/`Expand`/`Shrunk` only the radius and undo each other; the diameter is twice the radius |
| Circles.EqualIsExact | circle.go:70-72 | `Equal` compares center and radius, exactly on integers |
| Circles.BoundsMissesContainedPoint | circle.go:65-67 | the bounds as written miss a contained point (see Findings) |
| Circles.EnclosingBoundsContainCircle | circle.go:64-67 | bounds of one diameter per side, centered on the circle, contain every point it contains |
| Circles.IntegerExamples | circle.go:20-37 | the package's circle cases: (1,12) is outside `C((1,2),10)`, (4,4) inside; translate, move, resize |
| Rectangles.MaxMinusMinIsSize | rectangle.go:82-93 | `Max - Min` is exactly the size, whatever the parity of the width and height |
| Rectangles.CornersOrder | rectangle.go:82-93 | with a non-negative size the center lies between `Min` and `Max` and is contained; a negative size contains nothing |
| Rectangles.CornersAreExtremes | rectangle.go:96-113 | bottom-left is `Min`, top-right is `Max`, and the other two corners mix their coordinates |
| Rectangles.VerticesWindCounterClockwise | rectangle.go:121-128 | the four vertices start at `Min` and step right, up, left and down by the width and height; the turn has positive area |
| Rectangles.VerticesAreContained | rectangle.go:161-165 | every vertex, `Min` and `Max`, lies in a rectangle of non-negative size (containment is inclusive) |
| Rectangles.TranslateShiftsCorners | rectangle.go:27-34 | translation shifts `Min` and `Max` and carries containment along; `MoveTo` shifts `Min` by the center's displacement |
| Rectangles.MovesAndResizesAreSeparate | rectangle.go:27-69 | `Translate`/`MoveTo` change only the center; `Resize`, `Scale*`, `Grow*` and `Shrink*` change only the size |
| Rectangles.FromMinMaxSize | rectangle.go:17-24 | for every multiplier, `RectangleFromMinMax(min, max)` has size `max - min`, and `RectangleFromMin` keeps the size it is given |
| Rectangles.FromMinMaxRoundTrip | rectangle.go:17-24 | `RectangleFromMinMax(min, max)` gives `min` and `max` back as its corners when the multiplier halves as Go's integer division does |
| Rectangles.BoundsAndPolygon | rectangle.go:131-170 | `Bounds` is the rectangle itself, `ToPolygon` has its vertices, and area and perimeter are the size's |
| Rectangles.EqualAndIsZeroAreExact | rectangle.go:151-158 | `Equal` and `IsZero` are exact on integers |
| Rectangles.IntegerExamples | rectangle.go:82-165 | the package's cases for `R((1,2), 2x3)`: `Min (0,1)`, `Max (2,4)`, area 6, perimeter 10, containment, translation, vertices |
| Collision.CollisionsAreSymmetric | collision.go:4-40 | both the rectangle test and the circle test are symmetric in their arguments |
| Collision.CollisionRectanglesIsSharedPoint | collision.go:4-11 | a shared point makes rectangles collide; for non-negative sizes they collide exactly when the corner of the larger minima is in both |
| Collision.TouchingRectanglesCollide | collision.go:4-11 | rectangles sharing only an edge collide (closed intervals) |
| Collision.CollisionCirclesWithPoint | collision.go:35-40 | a circle collides with a zero-radius circle exactly when it contains its center |
| Collision.TouchingCirclesDoNotCollide | collision.go:35-40 | circles exactly the sum of the radii apart do not collide (strict) |
| Collision.RectangleCircleAgreesWithNearestPoint | collision.go:14-32 | the three-branch test holds when the nearest rectangle point is strictly within the radius, and only when it is within or on the rim |
| Collision.RectangleCircleEdgeExample | collision.go:14-32 | the package's case: a circle at (150,0) of radius 60 collides with the 200x100 rectangle at the origin |
| Collision.RectangleCircleCornerExample | collision.go:14-32 | a circle at (110,80) of radius 60 collides through the corner test |
| Collision.RectangleCircleClearExample | collision.go:14-32 | a circle at (150,0) of radius 40 does not collide |
| Collision.CircleExamplesNear | collision.go:35-40 | radius-100 circles 199 apart collide |
| Collision.CircleExamplesFar | collision.go:35-40 | radius-100 circles 210 apart do not |
| Collision.RectangleExamples | collision.go:4-11 | an overlapping and a separate pair of rectangles |
| Polygons.Polygon.Center | polygon.go:9-17 | the accumulation loop returns the centroid: coordinate sums divided by the count with truncating division |
| Polygons.TranslateVertices | polygon.go:20-24 | translation keeps the vertex count and order and moves each vertex |
| Polygons.TranslateComposes | polygon.go:20-24 | two translations make one by the sum; the zero vector changes nothing |
| Polygons.SumsOfTranslate | polygon.go:12-14 | translating adds `n` times the vector to the coordinate sums |
| Polygons.CentroidOfTranslate | polygon.go:9-24 | when the centroid is exact, translating moves it by the vector |
| Polygons.MoveToVertices | polygon.go:27-29 | `MoveTo` moves every vertex by the vector from the centroid to the target |
| Polygons.MoveToReachesPoint | polygon.go:26-29 | `MoveTo` puts the centroid on the target whenever the centroid is exact |
| Polygons.MoveToMissesInexactCentroid | polygon.go:26-29 | with a truncated centroid `MoveTo` misses: `[(-1,0),(0,0)]` moved to (1,0) keeps centroid (0,0) |
| Polygons.ScaleVertices | polygon.go:32-45 | `Scale`/`ScaleXY` keep count and order and map vertex `v` to `center + (v - center) * factor` |
| Polygons.ScaleByNeutralFactor | polygon.go:32-45 | a factor the multiplier leaves every value alone with leaves the polygon alone |
| Polygons.IntegerExamples | polygon.go:9-29 | the package's square cases: centroid (1,1), translation by (1,-1), move to (10,10) |
| RegularPolygons.RegularPolygon.Vertices | regular_polygon.go:48-59 | the loop returns exactly `N` points; point `i` is the center plus the direction at `Angle + i*2pi/N`, stretched by width and height |
| RegularPolygons.RegularPolygon.Polygon | regular_polygon.go:69-71 | the general polygon has the same `N` vertices |
| RegularPolygons.RegularPolygonAngleValues | regular_polygon.go:110-121 | flat top gives `pi/2 - pi/n` (negative infinity for `n == 0`), pointed top `pi/2`, any other orientation 0 |
| RegularPolygons.AngleExamples | regular_polygon.go:110-121 | 30, 45 and 60 degrees for a flat-topped triangle, square and hexagon; 90 for a pointed top |
| RegularPolygons.FactoriesFixVertexCount | regular_polygon.go:124-136 | `Triangle`/`Square`/`Hexagon` set `N` to 3/4/6 and the orientation's start angle |
| RegularPolygons.TransformsChangeOneParameter | regular_polygon.go:22-45 | each transformation changes one parameter; `N` never changes |
| RegularPolygons.TranslateMovesVertices | regular_polygon.go:22-24 | translating moves every vertex by the vector |
| RegularPolygons.RotateByStepShiftsVertices | regular_polygon.go:42-59 | rotating by one angle step moves vertex `i` to where vertex `i+1` was |
| RegularPolygons.VerticesCloseTheTurn | regular_polygon.go:48-59 | with a periodic direction function, vertex `i + N` is vertex `i` |
| RegularPolygons.SquareVertices | regular_polygon.go:48-59 | with axis directions at the quarter turns, the square's vertices are `(w,0), (0,h), (-w,0), (0,-h)` |
| RegularPolygons.BoundsDoubleSize | regular_polygon.go:62-66 | the placeholder bounds keep the center, double both extents (four times the area) and ignore the angle |
| RegularPolygons.EqualIgnoresAngle | regular_polygon.go:74-76 | `Equal` compares center, size and `N`, and not the angle |
| RegularPolygons.EmptyAndIsZero | regular_polygon.go:79-86 | `Empty` means `N == 0`; `IsZero` also needs a zero center and size, so it implies `Empty` |
| Matrices.MultiplyIsComposition | matrix.go:20-29 | applying a product applies the right factor first, then the left: affine composition with the implicit `[0 0 1]` row |
| Matrices.ActionDeterminesMatrix | matrix.go:15-17 | a matrix is determined by the images of `(0,0)`, `(1,0)` and `(0,1)` |
| Matrices.MultiplyIsAssociative | matrix.go:20-29 | `Multiply` is associative |
| Matrices.IdentityIsUnit | matrix.go:78-83 | the identity is a two-sided unit, fixes every point and has determinant 1 |
| Matrices.DeterminantIsMultiplicative | matrix.go:50-52 | the determinant `ae - bd` of a product is the product of the determinants |
| Matrices.InverseOfSingular | matrix.go:32-36 | a determinant within `Delta` of zero returns the matrix unchanged |
| Matrices.InverseOnTheRight | matrix.go:32-47 | otherwise `m * m.Inverse()` is the identity, over exact reals |
| Matrices.InverseOnTheLeft | matrix.go:32-47 | and `m.Inverse() * m` is the identity |
| Matrices.TranslationsCompose | matrix.go:86-91 | two translation matrices make one by the summed offsets; the zero offset is the identity |
| Matrices.TranslateAppliesFirst | matrix.go:55-57 | `m.Translate(dx,dy)` moves a point by `(dx,dy)` before `m` acts |
| Matrices.ScaleAppliesFirst | matrix.go:65-67 | `m.Scale(fx,fy)` scales a point before `m` acts |
| Matrices.RotateAppliesFirst | matrix.go:60-62 | `m.Rotate(angle)` rotates a point by the sine and cosine of the angle before `m` acts |
| Matrices.RotationKeepsArea | matrix.go:94-100 | a rotation matrix has determinant 1 when sine and cosine lie on the unit circle |
| Matrices.ScaleDeterminant | matrix.go:103-108 | a scale matrix has determinant `fx*fy`; scaling by 1 is the identity |
| Matrices.EqualAndIsZero | matrix.go:70-75 | `IsZero` holds exactly when all six coefficients are within `Delta` of 0; `Equal` is reflexive and symmetric; the identity is not zero |

## Left out

- Integer overflow: Dafny's `int` is unbounded, so the model has no wrap-around of
  Go's fixed-width integer types.
- Floating point: IEEE rounding, NaN and infinities are not modelled; float64 paths
  use exact reals. The one infinity the model keeps is the flat-top
  `RegularPolygonAngle` for `n == 0`, where `pi*(n-2)/(2n)` divides a negative
  number by zero. The `Float` datatype holds it, and `Triangle`/`Square`/`Hexagon`
  never reach it.
- `math.Pi` is the exact real 3.141592653589793.
- Float-valued operations are not modelled: `Length`, `Angle`, `AngleTo`,
  `DistanceTo`, `Rotate`, `Resize`, the non-zero branch of `Normalize`,
  `VecFromAngle`, `AspectRatio`, `Circle.Area`/`Circumference` and `Line.Length`.
  They return float64 from `math` functions whose accuracy cannot be stated exactly.
- Undefined helpers are parameters with no body of their own: `Multiple`, `Divide`,
  `VectorFromAngle`, `math.Sincos`, `Size.Grow*`/`Shrink*`, `Size.ToVector` and
  `Vector.Resize`. Properties that depend on what these helpers compute are stated
  under explicit requires. Examples: `FromMinMaxRoundTrip`, `BoundsDoubleSize`,
  `SquareVertices`, `ScaleByNeutralFactor`, `RotationKeepsArea`.
- Four helpers that the covered files call but do not define are given the meaning
  their names and comments state, rather than entering as parameters:
  - `Abs` in `Vector.Abs` (vector.go:94) is the componentwise absolute value, as the
    comment at vector.go:92 describes. `CollisionRectangleCircle` depends on it.
  - `Point.Sub` in `Line.Direction` (line.go:28) is `Point.Subtract`.
  - `Point.IsZero` in `Rectangle.IsZero` and `RegularPolygon.IsZero` (rectangle.go:157,
    regular_polygon.go:80) is `Point.Zero`.
  - `Size.IsZero` in the same two places is `Size.Zero`.
- Rectangles.FromMinMaxRoundTrip: the corners come back only if `Multiple` halves
  an odd extent as Go's `/` does. A multiplier that rounds, as `Cast` does, gives
  `multiple(3, 0.5) == 2`, and then the minimum corner of the rectangle spanned by
  (0,0) and (3,3) is not (0,0). The size part holds for every multiplier;
  `FromMinMaxSize` proves it.
- `Divide`/`DivideXY` on vectors and points are not modelled, because they only
  call the undefined `Divide`.
- `Rectangle.Edges` is not modelled. It is an unfinished stub returning an empty
  slice.
- Text formatting, JSON and image interop are not modelled: `String`, format.go
  and image.go. They are serialisation and foreign libraries.
- The `Int`/`Float` conversions and types/ints, types/floats are not modelled. They
  are thin wrappers over the same operations.
- polygon_regular.go is not part of this model. It is an older declaration of
  `RegularPolygon`, without an angle, that regular_polygon.go supersedes.
- Polygon, transform and Map: Go slices are modelled as sequence values. The
  model shows that every output is a fresh value of the right length. It cannot
  express aliasing between the input slice and the output slice.
- `Polygons.Polygon.Center` requires a non-empty polygon. For integer elements the
  source divides by zero there, which panics.
- `RegularPolygons.RegularPolygon.Vertices` requires `N >= 0`, because `make`
  panics on a negative length.
- Polygons.CentroidOfTranslate: stated only for a centroid whose sums divide
  evenly. With truncation, translating can move the centroid by a different
  amount; `MoveToMissesInexactCentroid` exhibits such a case.
- Collision.RectangleCircleAgreesWithNearestPoint: brackets the three-branch test
  between the open and the closed disc around the nearest rectangle point, and no
  tighter. The source itself is not one or the other. A circle exactly one radius
  beyond an edge collides, because the second branch is inclusive. A circle exactly
  one radius beyond a corner does not, because `Less` is strict.

## Findings

| source | as written | input that shows it | evidently intended | confidence | as-written member | corrected member |
|---|---|---|---|---|---|---|
| circle.go:65-67 | `Bounds` builds `Rectangle{Center, Size{Radius, Radius}}`, but a rectangle's size is its full width and height, so the box reaches only half a radius from the center | `C((0,0), 10)` contains (9,0), yet its bounds span (-5,-5) to (5,5) and do not contain it | a box one diameter wide and high, as `RegularPolygon.Bounds` does by doubling the size | not executed | Circles.BoundsMissesContainedPoint | Circles.EnclosingBoundsContainCircle |
