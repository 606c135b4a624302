/** Two-dimensional extents (size.go), modelled for integer elements. Nothing is
    clamped: widths and heights may become negative. */
module Sizes {
  import Math

  datatype Size = S(width: int, height: int) {

    function Scale(factor: real, multiple: Math.Multiplier): Size {
      S(multiple(width, factor), multiple(height, factor))
    }

    function ScaleXY(factorX: real, factorY: real, multiple: Math.Multiplier): Size {
      S(multiple(width, factorX), multiple(height, factorY))
    }

    function Expand(delta: int): Size {
      S(width + delta, height + delta)
    }

    function ExpandXY(deltaWidth: int, deltaHeight: int): Size {
      S(width + deltaWidth, height + deltaHeight)
    }

    function Shrunk(delta: int): Size {
      S(width - delta, height - delta)
    }

    function ShrunkXY(deltaWidth: int, deltaHeight: int): Size {
      S(width - deltaWidth, height - deltaHeight)
    }

    function Area(): int {
      width * height
    }

    function Perimeter(): int {
      2 * (width + height)
    }

    predicate Equal(other: Size) {
      Math.Equal(width as real, other.width as real) && Math.Equal(height as real, other.height as real)
    }

    /** Equal to the zero value of the struct. */
    predicate Zero() {
      Equal(S(0, 0))
    }

    function XY(): (int, int) {
      (width, height)
    }
  }

  /** Expanding and shrinking by the same amounts undo each other. */
  lemma ExpandShrunkRoundTrip(s: Size, d: int, dw: int, dh: int)
    ensures s.Expand(d).Shrunk(d) == s && s.Shrunk(d).Expand(d) == s
    ensures s.ExpandXY(dw, dh).ShrunkXY(dw, dh) == s && s.ShrunkXY(dw, dh).ExpandXY(dw, dh) == s
  {
  }

  lemma UniformFormsMatchXYForms(s: Size, d: int)
    ensures s.Expand(d) == s.ExpandXY(d, d)
    ensures s.Shrunk(d) == s.ShrunkXY(d, d)
    ensures s.Shrunk(d) == s.Expand(-d)
  {
  }

  /** Each side grows by `d`, so the perimeter grows by four times `d`. */
  lemma PerimeterOfExpand(s: Size, d: int)
    ensures s.Expand(d).Perimeter() == s.Perimeter() + 4 * d
    ensures s.Perimeter() == 2 * s.width + 2 * s.height
  {
  }

  lemma {:induction false} AreaOfExpandXY(s: Size, dw: int, dh: int)
    ensures s.ExpandXY(dw, dh).Area() == s.Area() + dw * s.height + dh * s.width + dw * dh
  {
    assert (s.width + dw) * (s.height + dh) == s.width * s.height + dw * s.height + s.width * dh + dw * dh;
  }

  lemma XYOrder(s: Size)
    ensures s.XY().0 == s.width && s.XY().1 == s.height
  {
  }

  /** On integer elements the tolerant tests are exact. */
  lemma EqualAndZeroAreExact(s: Size, t: Size)
    ensures s.Equal(t) <==> s == t
    ensures s.Zero() <==> s.width == 0 && s.height == 0
  {
    Math.EqualOnIntegers(s.width, t.width);
    Math.EqualOnIntegers(s.height, t.height);
    Math.EqualOnIntegers(s.width, 0);
    Math.EqualOnIntegers(s.height, 0);
  }

  /** Shrinking past zero yields negative components, which are kept. */
  lemma NothingClamps()
    ensures S(1, 1).Shrunk(2) == S(-1, -1)
    ensures S(2, 3).Shrunk(5).Area() == 6
    ensures S(-2, 3).Perimeter() == 2
  {
  }

  /** The integer cases of the package's size tests. */
  lemma IntegerExamples()
    ensures S(2, 3).Expand(2) == S(4, 5) && S(2, 3).ExpandXY(2, 3) == S(4, 6)
    ensures S(2, 3).Shrunk(1) == S(1, 2) && S(2, 3).ShrunkXY(1, 2) == S(1, 1)
    ensures S(5, 3).Area() == 15 && S(5, 3).Perimeter() == 16
    ensures !S(1, 2).Zero() && S(0, 0).Zero()
  {
    EqualAndZeroAreExact(S(1, 2), S(0, 0));
  }
}
