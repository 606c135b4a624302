/** `Map` of internal/slices.go, which is also the `transform` helper of
    polygon.go: a fresh output slice of the same length, filled element by element. */
module Slices {

  /** The value `Map` computes, defined one element at a time from the back. */
  function Mapped<E, T>(input: seq<E>, fn: E -> T): (output: seq<T>)
    ensures |output| == |input|
  {
    if |input| == 0 then [] else Mapped(input[..|input| - 1], fn) + [fn(input[|input| - 1])]
  }

  /** Each output element is the function applied to the input element at the same
      index, so order is kept. */
  lemma {:induction false} MappedAt<E, T>(input: seq<E>, fn: E -> T)
    ensures forall i :: 0 <= i < |input| ==> Mapped(input, fn)[i] == fn(input[i])
  {
    if |input| > 0 {
      MappedAt(input[..|input| - 1], fn);
    }
  }

  /** Mapping twice is mapping once with the composed function. */
  lemma {:induction false} MappedComposes<E, T, U>(input: seq<E>, f: E -> T, g: T -> U)
    ensures Mapped(Mapped(input, f), g) == Mapped(input, x => g(f(x)))
  {
    var once := Mapped(input, f);
    MappedAt(input, f);
    MappedAt(once, g);
    MappedAt(input, x => g(f(x)));
  }

  /** The loop of `Map`: the output buffer is allocated with the input's length and
      written at each index; the input sequence is a value and is not changed. */
  method Map<E, T(0)>(input: seq<E>, fn: E -> T) returns (output: seq<T>)
    ensures output == Mapped(input, fn)
    ensures |output| == |input| && forall i :: 0 <= i < |input| ==> output[i] == fn(input[i])
  {
    var buffer := new T[|input|];
    for i := 0 to |input|
      invariant buffer[..i] == Mapped(input[..i], fn)
    {
      buffer[i] := fn(input[i]);
      assert input[..i + 1][..i] == input[..i];
    }
    assert input[..|input|] == input;
    output := buffer[..];
    MappedAt(input, fn);
  }
}
