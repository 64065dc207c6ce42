/** `ResultOrError<TResult, TError>`: either a result or an error, never both. */
module ResultOrErrors {

  datatype ResultOrError<R, E> = OfResult(result: R) | OfError(error: E) {

    /** `HasError()`: the value was built with the error constructor. */
    predicate HasError() {
      OfError?
    }

    /** `GetError()`; the source throws on a result value, so it is a precondition here. */
    function GetError(): E
      requires HasError()
    {
      error
    }

    /** `GetResult()`; the source throws on an error value, so it is a precondition here. */
    function GetResult(): R
      requires !HasError()
    {
      result
    }

    /** `MapErrorType<TErrorCheck>(map)`: `isChecked` stands for the runtime test `_error is TErrorCheck`. */
    function MapErrorType(isChecked: E -> bool, mapper: E -> R): (r: ResultOrError<R, E>)
      ensures HasError() && isChecked(GetError()) ==> !r.HasError() && r.GetResult() == mapper(GetError())
      ensures !(HasError() && isChecked(GetError())) ==> r == this
    {
      if HasError() && isChecked(error) then OfResult(mapper(error)) else this
    }

    /** `MapResult<TNewResult>(map)`. */
    function MapResult<R2>(mapper: R -> R2): (r: ResultOrError<R2, E>)
      ensures HasError() <==> r.HasError()
      ensures HasError() ==> r.GetError() == GetError()
      ensures !HasError() ==> r.GetResult() == mapper(GetResult())
    {
      if HasError() then OfError(error) else OfResult(mapper(result))
    }
  }

  /** `HasError()` is true exactly for the values built with the error constructor, and the
      accessor of each variant gives back what its constructor was given. */
  lemma HasErrorIffErrorConstructor<R, E>(x: ResultOrError<R, E>)
    ensures x.HasError() <==> exists e :: x == OfError(e)
    ensures x.HasError() ==> x == OfError(x.GetError())
    ensures !x.HasError() ==> x == OfResult(x.GetResult())
  {
    if x.HasError() {
      assert x == OfError(x.error);
    }
  }

  /** `MapResult` never applies its function to an error value: whatever `map` is, the error
      passes through unchanged. */
  lemma MapResultIgnoresMapOnError<R, E, R2>(e: E, f: R -> R2, g: R -> R2)
    ensures ResultOrError<R, E>.OfError(e).MapResult(f) == OfError(e)
    ensures ResultOrError<R, E>.OfError(e).MapResult(f) == ResultOrError<R, E>.OfError(e).MapResult(g)
  {
  }

  /** `MapResult` composes: mapping twice is mapping once with the composition. */
  lemma MapResultComposes<R, E, R2, R3>(x: ResultOrError<R, E>, f: R -> R2, g: R2 -> R3)
    ensures x.MapResult(f).MapResult(g) == x.MapResult(r => g(f(r)))
  {
  }

  /** `MapErrorType` on a result value is the identity, whatever the check and the map. */
  lemma MapErrorTypeOnResult<R, E>(r: R, isChecked: E -> bool, mapper: E -> R)
    ensures ResultOrError<R, E>.OfResult(r).MapErrorType(isChecked, mapper) == OfResult(r)
  {
  }

  /** When the check matches every error (the `MapErrorType<IError>` that ends the controllers'
      chains), the output has no error, so the `GetResult()` that follows is always safe. */
  lemma MapErrorTypeTotalCheckClearsError<R, E>(x: ResultOrError<R, E>, isChecked: E -> bool, mapper: E -> R)
    requires forall e :: isChecked(e)
    ensures !x.MapErrorType(isChecked, mapper).HasError()
  {
  }

  /** The controllers' chain `MapResult(ok).MapErrorType<Internal>(internal).MapErrorType<IError>(conflict).GetResult()`:
      a result becomes `ok` of it, an error that passes the first check becomes `internal` of it,
      and every other error becomes `conflict` of it. */
  lemma ControllerChain<R, E, A>(x: ResultOrError<R, E>, ok: R -> A, isInternal: E -> bool, internal: E -> A, conflict: E -> A)
    ensures !x.MapResult(ok).MapErrorType(isInternal, internal).MapErrorType(_ => true, conflict).HasError()
    ensures var out := x.MapResult(ok).MapErrorType(isInternal, internal).MapErrorType(_ => true, conflict).GetResult();
            match x
            case OfResult(r) => out == ok(r)
            case OfError(e) => out == if isInternal(e) then internal(e) else conflict(e)
  {
  }
}
