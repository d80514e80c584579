/** The result type that every stage of the pipeline returns (src/util/either.ts).
    An `Either<T, E>` is either `Ok(value)` or `Err(error)`; the combinators build
    new results and never change the one they are called on. */
module Either {

  /** The `T | null` that `unwrapOrNull` returns. */
  datatype Option<+T> = None | Some(value: T)

  datatype Either<+T, +E> = Ok(value: T) | Err(error: E) {

    /** `isOk()`: the flag the value was built with. */
    predicate IsOk() { Ok? }

    /** `isErr()`: the negation of the flag the value was built with. */
    predicate IsErr() { !Ok? }

    /** `map(f)`: apply `f` to a success value, pass an error through. */
    function Map<U>(f: T -> U): (r: Either<U, E>)
      ensures r.IsOk() == IsOk()
    {
      if IsOk() then Ok(f(Unwrap())) else Err(error)
    }

    /** `mapErr(f)`: apply `f` to an error, pass a success value through. */
    function MapErr<F>(f: E -> F): (r: Either<T, F>)
      ensures r.IsErr() == IsErr()
    {
      if IsErr() then Err(f(UnwrapErr())) else Ok(value)
    }

    /** `unwrap()`: throws on an `Err`, so here it may only be called on an `Ok`. */
    function Unwrap(): (r: T)
      requires IsOk()
      ensures this == Ok(r)
    {
      value
    }

    /** `unwrapErr()`: throws on an `Ok`, so here it may only be called on an `Err`. */
    function UnwrapErr(): (r: E)
      requires IsErr()
      ensures this == Err(r)
    {
      error
    }

    /** `expect(message)`: like `unwrap`, but the thrown error carries `message`. */
    function Expect(message: string): (r: T)
      requires IsOk()
      ensures this == Ok(r)
    {
      value
    }

    /** `expectErr(message)`: like `unwrapErr`, with `message` in the thrown error. */
    function ExpectErr(message: string): (r: E)
      requires IsErr()
      ensures this == Err(r)
    {
      error
    }

    /** `unwrapOrNull()`: the success value, or null (`None`) for an error. */
    function UnwrapOrNull(): (r: Option<T>)
      ensures r.Some? <==> IsOk()
    {
      if IsOk() then Some(value) else None
    }
  }

  /** The two observers are complementary on every value. */
  lemma OkIsNotErr<T, E>(x: Either<T, E>)
    ensures x.IsOk() <==> !x.IsErr()
  {
  }

  /** `ok(v).unwrap() == v` and `err(e).unwrapErr() == e`: unwrapping undoes construction. */
  lemma UnwrapInvertsConstruction<T, E>(v: T, e: E)
    ensures Either<T, E>.Ok(v).Unwrap() == v
    ensures Either<T, E>.Err(e).UnwrapErr() == e
  {
  }

  /** Construction undoes unwrapping: a result is rebuilt from its own contents. */
  lemma ConstructionInvertsUnwrap<T, E>(x: Either<T, E>)
    ensures x.IsOk() ==> x == Ok(x.Unwrap())
    ensures x.IsErr() ==> x == Err(x.UnwrapErr())
  {
  }

  /** `map` applies the function to a success value and returns an error unchanged. */
  lemma MapOnBothSides<T, E, U>(v: T, e: E, f: T -> U)
    ensures Either<T, E>.Ok(v).Map(f) == Ok(f(v))
    ensures Either<T, E>.Err(e).Map(f) == Err(e)
  {
  }

  /** `mapErr` applies the function to an error and returns a success value unchanged. */
  lemma MapErrOnBothSides<T, E, F>(v: T, e: E, f: E -> F)
    ensures Either<T, E>.Err(e).MapErr(f) == Err(f(e))
    ensures Either<T, E>.Ok(v).MapErr(f) == Ok(v)
  {
  }

  /** `map` is a functor: mapping the identity changes nothing, and two maps are one
      map of the composition. */
  lemma MapFunctor<T, E, U, V>(x: Either<T, E>, f: T -> U, g: U -> V)
    ensures x.Map(y => y) == x
    ensures x.Map(f).Map(g) == x.Map(y => g(f(y)))
  {
  }

  /** `map` and `mapErr` act on different sides, so their order does not matter. */
  lemma MapAndMapErrCommute<T, E, U, F>(x: Either<T, E>, f: T -> U, g: E -> F)
    ensures x.Map(f).MapErr(g) == x.MapErr(g).Map(f)
  {
  }

  /** `unwrapOrNull` gives the value for `Ok` and null for `Err`. */
  lemma UnwrapOrNullCases<T, E>(x: Either<T, E>)
    ensures x.IsOk() ==> x.UnwrapOrNull() == Some(x.Unwrap())
    ensures x.IsErr() ==> x.UnwrapOrNull() == None
  {
  }

  /** `expect` and `expectErr` return what `unwrap` and `unwrapErr` return, whatever the message. */
  lemma ExpectAgreesWithUnwrap<T, E>(x: Either<T, E>, message: string)
    ensures x.IsOk() ==> x.Expect(message) == x.Unwrap()
    ensures x.IsErr() ==> x.ExpectErr(message) == x.UnwrapErr()
  {
  }
}
