/** Conversion of a float64 result back to the element type of the package
    (constraints.go): `Cast` rounds for the built-in integer kinds, and
    `isIntValue` tells whether a value is a whole number. */
module Constraints {
  import opened Math

  /** The element kinds admitted by the `Number` constraint. `Defined` is a type
      declared with one of them as underlying type (`type Px int`), which the `~`
      in the constraint admits as well. */
  datatype Kind = Int | Int8 | Int16 | Int32 | Int64 | Float32 | Float64 | Defined(underlying: Kind)

  /** `isIntType`: a type switch on the zero value. Only the built-in integer types
      match a case that answers true; a defined type reaches the default branch. */
  predicate IsIntType(k: Kind) {
    match k
    case Float64 | Float32 => false
    case Int | Int64 | Int32 | Int16 | Int8 => true
    case Defined(_) => false
  }

  /** Whether the kind stores integers, seen through any defined type. */
  predicate IsIntegerKind(k: Kind) {
    match k
    case Float64 | Float32 => false
    case Int | Int64 | Int32 | Int16 | Int8 => true
    case Defined(u) => IsIntegerKind(u)
  }

  /** Go's conversion `T(a)` of a float64: truncation for integer kinds, the value
      itself for float kinds. */
  function Convert(a: real, k: Kind): real {
    if IsIntegerKind(k) then Truncate(a) as real else a
  }

  /** `math.Round`: the nearest integer, halves rounded away from zero. */
  function Round(a: real): (n: int)
    ensures Abs(n as real - a) <= 0.5
    ensures Abs(n as real - a) == 0.5 ==> Abs(n as real) > Abs(a)
    ensures (0.0 <= a ==> 0 <= n) && (a <= 0.0 ==> n <= 0)
  {
    if a >= 0.0 then (a + 0.5).Floor else -((-a + 0.5).Floor)
  }

  /** `Cast`: rounds when the element kind is a built-in integer type. */
  function Cast(a: real, k: Kind): real {
    if IsIntType(k) then Round(a) as real else Convert(a, k)
  }

  /** `isIntValue`: the float64 projection equals its truncation to int64. */
  predicate IsIntValue(v: real) {
    v == Truncate(v) as real
  }

  lemma IsIntTypeCases()
    ensures IsIntType(Int) && IsIntType(Int8) && IsIntType(Int16) && IsIntType(Int32) && IsIntType(Int64)
    ensures !IsIntType(Float32) && !IsIntType(Float64)
    ensures !IsIntType(Defined(Int)) && IsIntegerKind(Defined(Int))
  {
  }

  /** The rounding cases exercised by the package's tests. */
  lemma CastExamples()
    ensures Cast(1.0, Int) == 1.0 && Cast(1.2, Int) == 1.0 && Cast(1.6, Int) == 2.0
    ensures Cast(-0.3, Int) == 0.0 && Cast(-0.51, Int) == -1.0
    ensures Cast(2.5, Int) == 3.0 && Cast(-2.5, Int) == -3.0
    ensures Cast(1.0, Float64) == 1.0 && Cast(1.6, Float64) == 1.6 && Cast(-15.68, Float64) == -15.68
  {
  }

  /** For an integer kind the cast moves the value by at most one half. */
  lemma CastWithinHalf(a: real, k: Kind)
    requires IsIntType(k)
    ensures Abs(Cast(a, k) - a) <= 0.5
    ensures IsIntValue(Cast(a, k))
  {
    TruncateOfInteger(Round(a));
  }

  /** For a float kind the cast returns its argument. */
  lemma CastFloatIsIdentity(a: real, k: Kind)
    requires !IsIntegerKind(k)
    ensures Cast(a, k) == a
  {
  }

  /** A whole number is returned unchanged by every kind. */
  lemma CastOfWholeNumber(n: int, k: Kind)
    ensures Cast(n as real, k) == n as real
  {
    TruncateOfInteger(n);
    if n >= 0 {
      assert (n as real + 0.5).Floor == n;
    } else {
      assert (-(n as real) + 0.5).Floor == -n;
    }
  }

  /** A defined integer type is not rounded but truncated, by the conversion `T(a)`. */
  lemma CastDefinedTypeTruncates()
    ensures Cast(1.6, Defined(Int)) == 1.0 && Cast(-0.51, Defined(Int)) == 0.0
    ensures Cast(1.6, Int) == 2.0
  {
  }

  /** `isIntValue` holds exactly of the whole numbers. */
  lemma IsIntValueIsWholeNumber(v: real)
    ensures IsIntValue(v) <==> v == v.Floor as real
  {
    if v < 0.0 && v == v.Floor as real {
      assert (-v).Floor == -v.Floor;
    }
  }

  lemma IsIntValueOfInteger(n: int)
    ensures IsIntValue(n as real)
  {
    TruncateOfInteger(n);
  }

  lemma IsIntValueExamples()
    ensures IsIntValue(1.0) && IsIntValue(-2.0) && IsIntValue(23.0)
    ensures !IsIntValue(189.2) && !IsIntValue(-9.3333) && !IsIntValue(1.000001)
  {
  }
}
