/** Four-sided paddings (padding.go), modelled for integer elements. */
module Paddings {
  import Sizes

  datatype Padding = Pad(top: int, right: int, bottom: int, left: int) {

    /** The horizontal total: left plus right. */
    function Width(): int {
      left + right
    }

    /** The vertical total: top plus bottom. */
    function Height(): int {
      top + bottom
    }

    function XY(): (int, int) {
      (Width(), Height())
    }

    function Size(): Sizes.Size {
      Sizes.S(Width(), Height())
    }
  }

  /** The same padding on every side. */
  function PadU(padding: int): Padding {
    Pad(padding, padding, padding, padding)
  }

  /** One value for top and bottom, another for right and left. */
  function PadXY(topBottom: int, leftRight: int): Padding {
    Pad(topBottom, leftRight, topBottom, leftRight)
  }

  lemma PadUProperties(p: int)
    ensures PadU(p) == PadXY(p, p)
    ensures PadU(p).Width() == 2 * p && PadU(p).Height() == 2 * p
    ensures PadU(p).Size() == Sizes.S(2 * p, 2 * p)
  {
  }

  lemma PadXYSides(tb: int, lr: int)
    ensures PadXY(tb, lr).top == tb && PadXY(tb, lr).bottom == tb
    ensures PadXY(tb, lr).right == lr && PadXY(tb, lr).left == lr
    ensures PadXY(tb, lr).Width() == 2 * lr && PadXY(tb, lr).Height() == 2 * tb
  {
  }

  /** Width, height, `XY` and `Size` agree, and the padding's size is the extra
      room it adds to a size it pads. */
  lemma SizeMatchesXY(p: Padding, s: Sizes.Size)
    ensures p.XY() == (p.left + p.right, p.top + p.bottom)
    ensures p.Size().XY() == p.XY()
    ensures s.ExpandXY(p.Width(), p.Height()).width == s.width + p.Size().width
    ensures s.ExpandXY(p.Width(), p.Height()).height == s.height + p.Size().height
  {
  }

  /** The integer cases of the package's padding tests. */
  lemma IntegerExamples()
    ensures Pad(2, 4, 3, 5).Width() == 9 && Pad(2, 4, 3, 5).Height() == 5
    ensures Pad(2, 4, 3, 5).Size() == Sizes.S(9, 5)
    ensures PadXY(10, 20) == Pad(10, 20, 10, 20)
  {
  }
}
