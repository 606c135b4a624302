/** Free 2D displacements (vector.go), modelled for integer elements: every
    operation returns a new value. */
module Vectors {
  import Math

  datatype Vector = V(x: int, y: int) {

    function Add(vector: Vector): Vector {
      V(x + vector.x, y + vector.y)
    }

    function AddXY(deltaX: int, deltaY: int): Vector {
      V(x + deltaX, y + deltaY)
    }

    function Subtract(vector: Vector): Vector {
      V(x - vector.x, y - vector.y)
    }

    function SubtractXY(deltaX: int, deltaY: int): Vector {
      V(x - deltaX, y - deltaY)
    }

    /** `Multiply`, through the package's `Multiple` helper. */
    function Multiply(factor: real, multiple: Math.Multiplier): Vector {
      V(multiple(x, factor), multiple(y, factor))
    }

    function MultiplyXY(factorX: real, factorY: real, multiple: Math.Multiplier): Vector {
      V(multiple(x, factorX), multiple(y, factorY))
    }

    function Negate(): Vector {
      V(-x, -y)
    }

    /** Componentwise absolute value, as the doc comment of `Abs` describes. */
    function Abs(): Vector {
      V(if x < 0 then -x else x, if y < 0 then -y else y)
    }

    function Dot(vector: Vector): int {
      x * vector.x + y * vector.y
    }

    /** The z component of the 3D cross product. */
    function Cross(vector: Vector): int {
      x * vector.y - y * vector.x
    }

    /** The vector turned a quarter counter-clockwise. */
    function Normal(): Vector {
      V(-y, x)
    }

    function LengthSquared(): int {
      x * x + y * y
    }

    predicate Equal(vector: Vector) {
      Math.Equal(x as real, vector.x as real) && Math.Equal(y as real, vector.y as real)
    }

    predicate Zero() {
      Equal(V(0, 0))
    }

    /** `Unit`: the squared length is nearly 1. */
    predicate Unit() {
      Math.Equal(LengthSquared() as real, 1.0)
    }

    /** Whether the length is strictly less than `value`, compared squared. */
    predicate Less(value: int) {
      LengthSquared() < value * value
    }

    function XY(): (int, int) {
      (x, y)
    }

    /** `Normalize`. The non-zero branch, `Resize(1)`, is float arithmetic and is
        supplied by the caller as `resize`. */
    function Normalize(resize: (Vector, real) -> Vector): Vector {
      if Zero() then V(1, 0) else resize(this, 1.0)
    }
  }

  const ZeroVector := V(0, 0)
  const IdentityVector := V(1, 1)
  const UpVector := V(0, 1)
  const DownVector := V(0, -1)
  const RightVector := V(1, 0)
  const LeftVector := V(-1, 0)

  lemma AddIsCommutativeAndInvertible(v: Vector, w: Vector)
    ensures v.Add(w) == w.Add(v)
    ensures v.Add(w).Subtract(w) == v
    ensures v.Subtract(w).Add(w) == v
    ensures v.Add(w).x == v.x + w.x && v.Add(w).y == v.y + w.y
  {
  }

  lemma XYFormsMatchVectorForms(v: Vector, dx: int, dy: int)
    ensures v.AddXY(dx, dy) == v.Add(V(dx, dy))
    ensures v.SubtractXY(dx, dy) == v.Subtract(V(dx, dy))
    ensures v.XY() == (v.x, v.y)
  {
  }

  lemma NegateProperties(v: Vector, w: Vector)
    ensures v.Negate().Negate() == v
    ensures v.Add(v.Negate()) == ZeroVector
    ensures v.Subtract(w) == v.Add(w.Negate())
  {
  }

  lemma DotAndCrossSymmetry(v: Vector, w: Vector)
    ensures v.Dot(w) == w.Dot(v)
    ensures v.Cross(w) == -w.Cross(v)
    ensures v.Cross(v) == 0
  {
  }

  /** The normal is orthogonal to the vector, has the same length, lies a quarter
      turn counter-clockwise, and applying it twice negates. */
  lemma NormalProperties(v: Vector)
    ensures v.Normal().Dot(v) == 0
    ensures v.Normal().Normal() == v.Negate()
    ensures v.Normal().LengthSquared() == v.LengthSquared()
    ensures v.Cross(v.Normal()) == v.LengthSquared()
  {
  }

  lemma NormalTurnsDirections()
    ensures RightVector.Normal() == UpVector
    ensures UpVector.Normal() == LeftVector
    ensures LeftVector.Normal() == DownVector
    ensures DownVector.Normal() == RightVector
  {
  }

  lemma LengthSquaredProperties(v: Vector)
    ensures v.LengthSquared() == v.Dot(v)
    ensures v.LengthSquared() >= 0
    ensures v.LengthSquared() == 0 <==> v == ZeroVector
    ensures v.Negate().LengthSquared() == v.LengthSquared()
  {
    SquareBounds(v.x);
    SquareBounds(v.y);
  }

  /** `Less` compares against the square of its bound, so the sign of the bound is
      irrelevant, nothing is shorter than 0, and the test is monotone in the bound. */
  lemma {:induction false} LessProperties(v: Vector, r: int, s: int)
    ensures v.Less(r) <==> v.Less(-r)
    ensures !v.Less(0)
    ensures 0 <= r <= s && v.Less(r) ==> v.Less(s)
    ensures v.Less(r) ==> v.Negate().Less(r)
  {
    LengthSquaredProperties(v);
    if 0 <= r <= s {
      assert r * r <= r * s <= s * s;
    }
  }

  /** On integer elements the tolerant zero test is an exact test. */
  lemma ZeroIsExact(v: Vector)
    ensures v.Zero() <==> Math.Abs(v.x as real) <= Math.Delta && Math.Abs(v.y as real) <= Math.Delta
    ensures v.Zero() <==> v == ZeroVector
    ensures v.Equal(v)
  {
    Math.EqualOnIntegers(v.x, 0);
    Math.EqualOnIntegers(v.y, 0);
  }

  lemma NormalizeOfZero(v: Vector, resize: (Vector, real) -> Vector)
    requires v.Zero()
    ensures v.Normalize(resize) == RightVector
  {
  }

  /** The integer unit vectors are exactly the four directions. */
  lemma UnitVectorsAreDirections(v: Vector)
    ensures v.Unit() <==> v in {UpVector, DownVector, LeftVector, RightVector}
  {
    Math.EqualOnIntegers(v.LengthSquared(), 1);
    if v.LengthSquared() == 1 {
      SquareBounds(v.x);
      SquareBounds(v.y);
      assert -1 <= v.x <= 1 && -1 <= v.y <= 1;
      assert v.x == 0 || v.y == 0;
    }
  }

  lemma SquareBounds(n: int)
    ensures n * n >= 0
    ensures n * n == 0 <==> n == 0
    ensures (n <= -2 || 2 <= n) ==> n * n >= 4
  {
    if n >= 2 {
      assert n * n >= 2 * n;
    } else if n <= -2 {
      assert n * n >= -2 * n;
    }
  }

  lemma AbsProperties(v: Vector)
    ensures v.Abs().x >= 0 && v.Abs().y >= 0
    ensures v.Negate().Abs() == v.Abs()
    ensures v.Abs().LengthSquared() == v.LengthSquared()
    ensures v.x >= 0 && v.y >= 0 ==> v.Abs() == v
  {
  }
}
