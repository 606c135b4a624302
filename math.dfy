/** Tolerant comparison, midpoint and linear interpolation of the geometry package
    (math.go), plus the two pieces of Go integer semantics the package relies on:
    the truncating conversion of a float64 back to an integer element type, and
    integer division, which also truncates toward zero.

    Element values are projected to float64 before they are compared; in this model
    an integer element `x` is projected as `x as real`. */
module Math {

  /** The tolerance used by every "nearly equal" comparison of the package. */
  const Delta: real := 0.000001

  /** Stands for `Multiple[T](value, factor)`, which scales an element by a float64
      factor. It is not defined in the files this model covers, so the operations
      that scale take it as a parameter. */
  type Multiplier = (int, real) -> int

  function Abs(x: real): real {
    if x < 0.0 then -x else x
  }

  /** `EqualDelta` and `equalDelta`: both arguments already projected to float64. */
  predicate EqualDelta(a: real, b: real, delta: real) {
    Abs(a - b) <= delta
  }

  /** `Equal`: nearly equal within `Delta`. */
  predicate Equal(a: real, b: real) {
    EqualDelta(a, b, Delta)
  }

  lemma EqualDeltaIsDistance(a: real, b: real, delta: real)
    ensures EqualDelta(a, b, delta) <==> (a - b <= delta && b - a <= delta)
    ensures EqualDelta(a, b, delta) ==> 0.0 <= delta
  {
  }

  lemma EqualIsReflexiveAndSymmetric(a: real, b: real)
    ensures Equal(a, a)
    ensures Equal(a, b) <==> Equal(b, a)
    ensures Equal(a, b) <==> EqualDelta(a, b, 0.000001)
  {
  }

  /** Tolerant equality is not transitive: chains of nearly-equal values drift. */
  lemma EqualIsNotTransitive()
    ensures Equal(0.0, Delta) && Equal(Delta, 2.0 * Delta) && !Equal(0.0, 2.0 * Delta)
  {
  }

  /** On integer elements tolerant equality is exact equality, because `Delta < 1`. */
  lemma EqualOnIntegers(a: int, b: int)
    ensures Equal(a as real, b as real) <==> a == b
  {
  }

  /** Comparing squares against a non-negative bound compares magnitudes. */
  lemma SquareBelow(a: int, r: int)
    requires r >= 0
    ensures a * a < r * r ==> -r < a < r
    ensures -r <= a <= r ==> a * a <= r * r
  {
    if a >= r {
      assert a * a >= r * a >= r * r;
    } else if a <= -r {
      assert a * a == (-a) * (-a);
      assert (-a) * (-a) >= r * (-a) >= r * r;
    } else if a >= 0 {
      assert a * a <= r * a <= r * r;
    } else {
      assert a * a <= r * (-a) <= r * r;
    }
  }

  /** `midpoint` on float64 values. */
  function RealMidpoint(a: real, b: real): real {
    (a + b) / 2.0
  }

  /** `lerp` on float64 values; not clamped to [0, 1]. */
  function RealLerp(a: real, b: real, t: real): real {
    a * (1.0 - t) + b * t
  }

  lemma RealMidpointProperties(a: real, b: real)
    ensures RealMidpoint(a, b) == RealMidpoint(b, a)
    ensures RealMidpoint(a, b) - a == b - RealMidpoint(a, b)
    ensures a <= b ==> a <= RealMidpoint(a, b) <= b
  {
  }

  /** The doc comment of Midpoint calls it a shorthand for `lerp(a, b, 0.5)`. */
  lemma RealLerpProperties(a: real, b: real, t: real)
    ensures RealLerp(a, b, 0.0) == a
    ensures RealLerp(a, b, 1.0) == b
    ensures RealLerp(a, b, 0.5) == RealMidpoint(a, b)
    ensures RealLerp(a, b, t) == a + (b - a) * t
  {
  }

  /** Go's conversion of a float64 to an integer type: the fraction is discarded,
      that is, the value is truncated toward zero. */
  function Truncate(x: real): (n: int)
    ensures 0.0 <= x ==> 0 <= n && n as real <= x < n as real + 1.0
    ensures x < 0.0 ==> n <= 0 && n as real - 1.0 < x <= n as real
  {
    if x >= 0.0 then x.Floor else -((-x).Floor)
  }

  lemma TruncateOfInteger(n: int)
    ensures Truncate(n as real) == n
  {
  }

  /** Go's integer division `a / b`, which truncates toward zero (Dafny's `/` on
      `int` is Euclidean). Division by zero panics in Go. */
  function GoDiv(a: int, b: int): (q: int)
    requires b != 0
  {
    var n := if a < 0 then -a else a;
    var d := if b < 0 then -b else b;
    if (a < 0) == (b < 0) then n / d else -(n / d)
  }

  /** The remainder left by the truncating quotient has the sign of the dividend
      and is smaller than the divisor in magnitude. */
  lemma GoDivRemainder(a: int, b: int)
    requires b != 0
    ensures var r := a - b * GoDiv(a, b);
      (0 <= a ==> 0 <= r) && (a <= 0 ==> r <= 0) && (if r < 0 then -r else r) < (if b < 0 then -b else b)
  {
    var n := if a < 0 then -a else a;
    var d := if b < 0 then -b else b;
    var q := n / d;
    var m := n % d;
    assert n == d * q + m && 0 <= m < d;
    var g := GoDiv(a, b);
    assert g == if (a < 0) == (b < 0) then q else -q;
    SignedProduct(a, b, n, d, q, g);
    assert a - b * g == if a < 0 then -m else m;
    SignedRemainder(a, b, a - b * g, m, d);
  }

  lemma SignedRemainder(a: int, b: int, r: int, m: int, d: int)
    requires d == (if b < 0 then -b else b) && 0 <= m < d
    requires r == (if a < 0 then -m else m) && (a == 0 ==> m == 0)
    ensures (0 <= a ==> 0 <= r) && (a <= 0 ==> r <= 0) && (if r < 0 then -r else r) < (if b < 0 then -b else b)
  {
  }

  /** `b * g` once the signs are factored out of the dividend, divisor and quotient. */
  lemma SignedProduct(a: int, b: int, n: int, d: int, q: int, g: int)
    requires n == (if a < 0 then -a else a) && d == (if b < 0 then -b else b)
    requires g == if (a < 0) == (b < 0) then q else -q
    ensures b * g == if a < 0 then -(d * q) else d * q
  {
    if b < 0 && a < 0 {
      assert b * g == (-d) * q;
    } else if b < 0 {
      assert b * g == (-d) * (-q);
    } else if a < 0 {
      assert b * g == d * (-q);
    }
  }

  lemma GoDivNegate(a: int, b: int)
    requires b != 0
    ensures GoDiv(-a, b) == -GoDiv(a, b)
  {
    var n := if a < 0 then -a else a;
    var d := if b < 0 then -b else b;
    if a == 0 {
      assert n / d == 0;
    } else {
      assert (if -a < 0 then a else -a) == n;
    }
  }

  /** Dividing an exact multiple gives the factor back. */
  lemma GoDivExact(k: int, n: int)
    requires n > 0
    ensures GoDiv(k * n, n) == k
  {
    if k >= 0 {
      DivOfMultiple(k, n);
    } else {
      DivOfMultiple(-k, n);
      assert -(k * n) == (-k) * n;
    }
  }

  /** Adding a multiple of the divisor to an exact multiple shifts the quotient. */
  lemma {:induction false} GoDivShift(s: int, n: int, d: int)
    requires n > 0 && s % n == 0
    ensures GoDiv(s + n * d, n) == GoDiv(s, n) + d
  {
    var k := s / n;
    assert s == k * n;
    assert s + n * d == (k + d) * n;
    GoDivExact(k, n);
    GoDivExact(k + d, n);
  }

  lemma DivOfMultiple(k: nat, n: int)
    requires n > 0
    ensures (k * n) / n == k
  {
    var q := (k * n) / n;
    var m := (k * n) % n;
    assert k * n == n * q + m && 0 <= m < n;
    assert n * (k - q) == m;
    MultipleBounds(n, k - q);
  }

  lemma MultipleBounds(n: int, j: int)
    requires n > 0
    ensures j >= 1 ==> n * j >= n
    ensures j <= -1 ==> n * j <= -n
  {
    if j >= 1 {
      assert n * j == n + n * (j - 1);
    } else if j <= -1 {
      assert n * j == -n + n * (j + 1);
    }
  }

  /** Halving with Go's integer division is the real half truncated toward zero. */
  lemma GoHalfTruncates(s: int)
    ensures GoDiv(s, 2) == Truncate(s as real / 2.0)
  {
    var n := if s < 0 then -s else s;
    assert n == 2 * (n / 2) + n % 2;
    var t := Truncate(s as real / 2.0);
    if s >= 0 {
      assert (n / 2) as real <= s as real / 2.0 < (n / 2) as real + 1.0;
    } else {
      assert -((n / 2) as real) - 1.0 < s as real / 2.0 <= -((n / 2) as real);
    }
  }

  /** Generic `Midpoint` for an integer element type: `T(midpoint(...))` truncates. */
  function Midpoint(a: int, b: int): int {
    Truncate(RealMidpoint(a as real, b as real))
  }

  /** Generic `Lerp` for an integer element type: `T(lerp(...))` truncates. */
  function Lerp(a: int, b: int, t: real): int {
    Truncate(RealLerp(a as real, b as real, t))
  }

  /** The integer midpoint is the sum halved with Go's truncating division, not the
      rounded midpoint: `Midpoint(1, 4)` is 2. */
  lemma {:induction false} MidpointTruncates(a: int, b: int)
    ensures Midpoint(a, b) == GoDiv(a + b, 2)
    ensures Midpoint(a, b) == Midpoint(b, a)
    ensures Midpoint(1, 4) == 2 && Midpoint(-1, -4) == -2
  {
    assert RealMidpoint(a as real, b as real) == (a + b) as real / 2.0;
    GoHalfTruncates(a + b);
    GoHalfTruncates(5);
    GoHalfTruncates(-5);
  }

  lemma LerpEndpoints(a: int, b: int)
    ensures Lerp(a, b, 0.0) == a
    ensures Lerp(a, b, 1.0) == b
  {
    RealLerpProperties(a as real, b as real, 0.0);
    TruncateOfInteger(a);
    TruncateOfInteger(b);
  }
}
