/** Directed segments from `a` to `b` (line.go), modelled for integer elements. */
module Lines {
  import opened Vectors
  import opened Points

  datatype Line = Line(a: Point, b: Point) {

    function Translate(change: Vector): Line {
      Line(a.Add(change), b.Add(change))
    }

    function Reversed(): Line {
      Line(b, a)
    }

    function Midpoint(): Point {
      a.Midpoint(b)
    }

    /** The vector from `a` to `b`. */
    function Direction(): Vector {
      b.Subtract(a)
    }

    /** Endpoints compared in order, each tolerantly. */
    predicate Equal(other: Line) {
      a.Equal(other.a) && b.Equal(other.b)
    }
  }

  /** `L`: a line from its four coordinates. */
  function L(x1: int, y1: int, x2: int, y2: int): Line {
    Line(P(x1, y1), P(x2, y2))
  }

  lemma LCoordinates(x1: int, y1: int, x2: int, y2: int)
    ensures L(x1, y1, x2, y2).a == P(x1, y1) && L(x1, y1, x2, y2).b == P(x2, y2)
    ensures L(x1, y1, x2, y2).Direction() == V(x2 - x1, y2 - y1)
  {
  }

  lemma ReversedProperties(l: Line)
    ensures l.Reversed().Reversed() == l
    ensures l.Reversed().a == l.b && l.Reversed().b == l.a
    ensures l.Reversed().Direction() == l.Direction().Negate()
  {
  }

  /** Translation moves both endpoints, keeps the direction, and is undone by the
      opposite vector. */
  lemma TranslateProperties(l: Line, v: Vector)
    ensures l.Translate(v).a == l.a.Add(v) && l.Translate(v).b == l.b.Add(v)
    ensures l.Translate(v).Direction() == l.Direction()
    ensures l.Translate(v).Translate(v.Negate()) == l
  {
  }

  lemma {:induction false} ReversedKeepsMidpoint(l: Line)
    ensures l.Reversed().Midpoint() == l.Midpoint()
  {
    MidpointProperties(l.a, l.b);
  }

  /** On integer elements tolerant equality of lines is exact equality. */
  lemma {:induction false} EqualIsExact(l: Line, m: Line)
    ensures l.Equal(l)
    ensures l.Equal(m) <==> l == m
    ensures l.Equal(m) <==> m.Equal(l)
  {
    EqualAndZeroAreExact(l.a, m.a);
    EqualAndZeroAreExact(l.b, m.b);
    EqualAndZeroAreExact(l.a, l.a);
    EqualAndZeroAreExact(l.b, l.b);
  }
}
