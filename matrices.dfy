/** The 2x3 affine matrix of matrix.go, on float64 values modelled as exact reals.
    The implicit third row is [0 0 1]. */
module Matrices {
  import Math

  datatype Matrix = M(a: real, b: real, c: real, d: real, e: real, f: real) {

    /** The product `this * m`: applying it applies `m` first. */
    function Multiply(m: Matrix): Matrix {
      M(a * m.a + b * m.d,
        a * m.b + b * m.e,
        a * m.c + b * m.f + c,
        d * m.a + e * m.d,
        d * m.b + e * m.e,
        d * m.c + e * m.f + f)
    }

    function Determinant(): real {
      a * e - b * d
    }

    /** The inverse by the adjugate; a determinant within `Delta` of zero returns the
        matrix unchanged. */
    function Inverse(): Matrix {
      var det := Determinant();
      if Math.Equal(det, 0.0) then
        this
      else
        var invDet := 1.0 / det;
        M(e * invDet,
          -b * invDet,
          (b * f - c * e) * invDet,
          -d * invDet,
          a * invDet,
          (c * d - a * f) * invDet)
    }

    function Translate(deltaX: real, deltaY: real): Matrix {
      Multiply(TranslationMatrix(deltaX, deltaY))
    }

    function Rotate(angle: real, sin: real -> real, cos: real -> real): Matrix {
      Multiply(RotationMatrix(angle, sin, cos))
    }

    function Scale(factorX: real, factorY: real): Matrix {
      Multiply(ScaleMatrix(factorX, factorY))
    }

    predicate Equal(other: Matrix) {
      Math.Equal(a, other.a) && Math.Equal(b, other.b) && Math.Equal(c, other.c) &&
      Math.Equal(d, other.d) && Math.Equal(e, other.e) && Math.Equal(f, other.f)
    }

    predicate IsZero() {
      Equal(M(0.0, 0.0, 0.0, 0.0, 0.0, 0.0))
    }
  }

  function IdentityMatrix(): Matrix {
    M(1.0, 0.0, 0.0, 0.0, 1.0, 0.0)
  }

  function TranslationMatrix(deltaX: real, deltaY: real): Matrix {
    M(1.0, 0.0, deltaX, 0.0, 1.0, deltaY)
  }

  /** `sin` and `cos` stand for `math.Sincos`, which is float arithmetic. */
  function RotationMatrix(angle: real, sin: real -> real, cos: real -> real): Matrix {
    M(cos(angle), -sin(angle), 0.0, sin(angle), cos(angle), 0.0)
  }

  function ScaleMatrix(factorX: real, factorY: real): Matrix {
    M(factorX, 0.0, 0.0, 0.0, factorY, 0.0)
  }

  /** The affine map a matrix stands for. */
  function Apply(m: Matrix, x: real, y: real): (real, real) {
    (m.a * x + m.b * y + m.c, m.d * x + m.e * y + m.f)
  }

  /** A row of a product against a column, regrouped: `x` is a row of the
      product of `p` and `q`, `y` a column of the product of `q` and `r`. */
  lemma RowTimesColumn(x1: real, x2: real, y1: real, y2: real, p1: real, p2: real,
                       q11: real, q12: real, q21: real, q22: real, r1: real, r2: real)
    requires x1 == p1 * q11 + p2 * q21 && x2 == p1 * q12 + p2 * q22
    requires y1 == q11 * r1 + q12 * r2 && y2 == q21 * r1 + q22 * r2
    ensures x1 * r1 + x2 * r2 == p1 * y1 + p2 * y2
  {
  }

  /** The same with the translation column of both factors. */
  lemma RowTimesAffineColumn(x1: real, x2: real, x3: real, y1: real, y2: real, p1: real, p2: real, p3: real,
                             q11: real, q12: real, q13: real, q21: real, q22: real, q23: real, r1: real, r2: real)
    requires x1 == p1 * q11 + p2 * q21 && x2 == p1 * q12 + p2 * q22 && x3 == p1 * q13 + p2 * q23 + p3
    requires y1 == q11 * r1 + q12 * r2 + q13 && y2 == q21 * r1 + q22 * r2 + q23
    ensures x1 * r1 + x2 * r2 + x3 == p1 * y1 + p2 * y2 + p3
  {
  }

  /** The product applies the right factor first, then the left one: the first
      coordinate ... */
  lemma ComposeFirstCoordinate(m: Matrix, n: Matrix, x: real, y: real)
    ensures Apply(m.Multiply(n), x, y).0 == Apply(m, Apply(n, x, y).0, Apply(n, x, y).1).0
  {
    var p := m.Multiply(n);
    var u := Apply(n, x, y).0;
    var v := Apply(n, x, y).1;
    RowTimesAffineColumn(p.a, p.b, p.c, u, v, m.a, m.b, m.c, n.a, n.b, n.c, n.d, n.e, n.f, x, y);
  }

  /** ... and the second. */
  lemma ComposeSecondCoordinate(m: Matrix, n: Matrix, x: real, y: real)
    ensures Apply(m.Multiply(n), x, y).1 == Apply(m, Apply(n, x, y).0, Apply(n, x, y).1).1
  {
    var p := m.Multiply(n);
    var u := Apply(n, x, y).0;
    var v := Apply(n, x, y).1;
    RowTimesAffineColumn(p.d, p.e, p.f, u, v, m.d, m.e, m.f, n.a, n.b, n.c, n.d, n.e, n.f, x, y);
  }

  lemma {:induction false} MultiplyIsComposition(m: Matrix, n: Matrix, x: real, y: real)
    ensures Apply(m.Multiply(n), x, y) == Apply(m, Apply(n, x, y).0, Apply(n, x, y).1)
  {
    ComposeFirstCoordinate(m, n, x, y);
    ComposeSecondCoordinate(m, n, x, y);
  }

  /** A matrix is determined by where it sends the origin and the two unit points. */
  lemma {:induction false} ActionDeterminesMatrix(m: Matrix, n: Matrix)
    requires Apply(m, 0.0, 0.0) == Apply(n, 0.0, 0.0)
    requires Apply(m, 1.0, 0.0) == Apply(n, 1.0, 0.0)
    requires Apply(m, 0.0, 1.0) == Apply(n, 0.0, 1.0)
    ensures m == n
  {
  }

  lemma {:induction false} MultiplyIsAssociative(m: Matrix, n: Matrix, o: Matrix)
    ensures m.Multiply(n).Multiply(o) == m.Multiply(n.Multiply(o))
  {
    var l := m.Multiply(n).Multiply(o);
    var r := m.Multiply(n.Multiply(o));
    forall x: real, y: real | (x, y) in [(0.0, 0.0), (1.0, 0.0), (0.0, 1.0)]
      ensures Apply(l, x, y) == Apply(r, x, y)
    {
      var (u, v) := Apply(o, x, y);
      MultiplyIsComposition(m.Multiply(n), o, x, y);
      MultiplyIsComposition(m, n, u, v);
      MultiplyIsComposition(m, n.Multiply(o), x, y);
      MultiplyIsComposition(n, o, x, y);
    }
    ActionDeterminesMatrix(l, r);
  }

  lemma IdentityIsUnit(m: Matrix, x: real, y: real)
    ensures m.Multiply(IdentityMatrix()) == m
    ensures IdentityMatrix().Multiply(m) == m
    ensures Apply(IdentityMatrix(), x, y) == (x, y)
    ensures IdentityMatrix().Determinant() == 1.0
  {
  }

  /** The determinant of a product of linear parts `x = p q`. */
  lemma ProductOfDeterminants(x1: real, x2: real, x4: real, x5: real,
                              p1: real, p2: real, p4: real, p5: real, q1: real, q2: real, q4: real, q5: real)
    requires x1 == p1 * q1 + p2 * q4 && x2 == p1 * q2 + p2 * q5
    requires x4 == p4 * q1 + p5 * q4 && x5 == p4 * q2 + p5 * q5
    ensures x1 * x5 - x2 * x4 == (p1 * p5 - p2 * p4) * (q1 * q5 - q2 * q4)
  {
  }

  lemma {:induction false} DeterminantIsMultiplicative(m: Matrix, n: Matrix)
    ensures m.Multiply(n).Determinant() == m.Determinant() * n.Determinant()
  {
    var mn := m.Multiply(n);
    ProductOfDeterminants(mn.a, mn.b, mn.d, mn.e, m.a, m.b, m.d, m.e, n.a, n.b, n.d, n.e);
  }

  /** A determinant within the tolerance of zero leaves the matrix as it is. */
  lemma InverseOfSingular(m: Matrix)
    requires Math.Abs(m.Determinant()) <= Math.Delta
    ensures m.Inverse() == m
  {
  }

  /** The adjugate `i` divided by the determinant, multiplied on the right. */
  lemma AdjugateRight(a: real, b: real, c: real, d: real, e: real, f: real, k: real,
                      i1: real, i2: real, i3: real, i4: real, i5: real, i6: real)
    requires (a * e - b * d) * k == 1.0
    requires i1 == e * k && i2 == -b * k && i3 == (b * f - c * e) * k
    requires i4 == -d * k && i5 == a * k && i6 == (c * d - a * f) * k
    ensures a * i1 + b * i4 == 1.0 && a * i2 + b * i5 == 0.0 && a * i3 + b * i6 + c == 0.0
    ensures d * i1 + e * i4 == 0.0 && d * i2 + e * i5 == 1.0 && d * i3 + e * i6 + f == 0.0
  {
    assert a * i3 + b * i6 == -c * ((a * e - b * d) * k);
    assert d * i3 + e * i6 == -f * ((a * e - b * d) * k);
  }

  /** The same product with the factors swapped. */
  lemma AdjugateLeft(a: real, b: real, c: real, d: real, e: real, f: real, k: real,
                     i1: real, i2: real, i3: real, i4: real, i5: real, i6: real)
    requires (a * e - b * d) * k == 1.0
    requires i1 == e * k && i2 == -b * k && i3 == (b * f - c * e) * k
    requires i4 == -d * k && i5 == a * k && i6 == (c * d - a * f) * k
    ensures i1 * a + i2 * d == 1.0 && i1 * b + i2 * e == 0.0 && i1 * c + i2 * f + i3 == 0.0
    ensures i4 * a + i5 * d == 0.0 && i4 * b + i5 * e == 1.0 && i4 * c + i5 * f + i6 == 0.0
  {
  }

  /** Otherwise the inverse undoes the matrix from the right ... */
  lemma {:induction false} InverseOnTheRight(m: Matrix)
    requires Math.Abs(m.Determinant()) > Math.Delta
    ensures m.Multiply(m.Inverse()) == IdentityMatrix()
  {
    var k := 1.0 / m.Determinant();
    assert m.Determinant() * k == 1.0;
    var inv := m.Inverse();
    assert inv == M(m.e * k, -m.b * k, (m.b * m.f - m.c * m.e) * k, -m.d * k, m.a * k, (m.c * m.d - m.a * m.f) * k);
    AdjugateRight(m.a, m.b, m.c, m.d, m.e, m.f, k, inv.a, inv.b, inv.c, inv.d, inv.e, inv.f);
  }

  /** ... and from the left. */
  lemma {:induction false} InverseOnTheLeft(m: Matrix)
    requires Math.Abs(m.Determinant()) > Math.Delta
    ensures m.Inverse().Multiply(m) == IdentityMatrix()
  {
    var k := 1.0 / m.Determinant();
    assert m.Determinant() * k == 1.0;
    var inv := m.Inverse();
    assert inv == M(m.e * k, -m.b * k, (m.b * m.f - m.c * m.e) * k, -m.d * k, m.a * k, (m.c * m.d - m.a * m.f) * k);
    AdjugateLeft(m.a, m.b, m.c, m.d, m.e, m.f, k, inv.a, inv.b, inv.c, inv.d, inv.e, inv.f);
  }

  /** Two translations make one by the summed offsets. */
  lemma TranslationsCompose(dx1: real, dy1: real, dx2: real, dy2: real)
    ensures TranslationMatrix(dx1, dy1).Multiply(TranslationMatrix(dx2, dy2)) == TranslationMatrix(dx1 + dx2, dy1 + dy2)
    ensures TranslationMatrix(0.0, 0.0) == IdentityMatrix()
  {
  }

  /** `Translate`, `Scale` and `Rotate` multiply on the right, so their change is
      applied to a point before the matrix is. */
  lemma {:induction false} TranslateAppliesFirst(m: Matrix, x: real, y: real, dx: real, dy: real)
    ensures Apply(m.Translate(dx, dy), x, y) == Apply(m, x + dx, y + dy)
  {
    MultiplyIsComposition(m, TranslationMatrix(dx, dy), x, y);
    assert Apply(TranslationMatrix(dx, dy), x, y) == (x + dx, y + dy);
  }

  lemma {:induction false} ScaleAppliesFirst(m: Matrix, x: real, y: real, fx: real, fy: real)
    ensures Apply(m.Scale(fx, fy), x, y) == Apply(m, fx * x, fy * y)
  {
    MultiplyIsComposition(m, ScaleMatrix(fx, fy), x, y);
    assert Apply(ScaleMatrix(fx, fy), x, y).0 == fx * x;
    assert Apply(ScaleMatrix(fx, fy), x, y).1 == fy * y;
  }

  lemma {:induction false} RotateAppliesFirst(m: Matrix, x: real, y: real, angle: real, sin: real -> real, cos: real -> real)
    ensures Apply(m.Rotate(angle, sin, cos), x, y)
      == Apply(m, cos(angle) * x - sin(angle) * y, sin(angle) * x + cos(angle) * y)
  {
    MultiplyIsComposition(m, RotationMatrix(angle, sin, cos), x, y);
    assert Apply(RotationMatrix(angle, sin, cos), x, y).0 == cos(angle) * x - sin(angle) * y;
    assert Apply(RotationMatrix(angle, sin, cos), x, y).1 == sin(angle) * x + cos(angle) * y;
  }

  /** A rotation keeps areas when sine and cosine lie on the unit circle. */
  lemma RotationKeepsArea(angle: real, sin: real -> real, cos: real -> real)
    requires sin(angle) * sin(angle) + cos(angle) * cos(angle) == 1.0
    ensures RotationMatrix(angle, sin, cos).Determinant() == 1.0
  {
  }

  lemma ScaleDeterminant(fx: real, fy: real)
    ensures ScaleMatrix(fx, fy).Determinant() == fx * fy
    ensures ScaleMatrix(1.0, 1.0) == IdentityMatrix()
  {
  }

  /** `IsZero` holds exactly when every coefficient is within `Delta` of zero, and
      tolerant equality is reflexive and symmetric. */
  lemma EqualAndIsZero(m: Matrix, n: Matrix)
    ensures m.IsZero() <==> (Math.Abs(m.a) <= Math.Delta && Math.Abs(m.b) <= Math.Delta && Math.Abs(m.c) <= Math.Delta &&
                             Math.Abs(m.d) <= Math.Delta && Math.Abs(m.e) <= Math.Delta && Math.Abs(m.f) <= Math.Delta)
    ensures m.Equal(m)
    ensures m.Equal(n) <==> n.Equal(m)
    ensures !IdentityMatrix().IsZero()
  {
  }
}
