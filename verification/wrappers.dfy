/** Failure-compatible wrappers used throughout the model: an optional value
    (a Python `None` or a present value) and a result that is either a value
    or a structured error (a raised exception). */
module Wrappers {

  datatype Option<+T> = None | Some(value: T) {
    predicate IsFailure() { None? }

    function PropagateFailure<U>(): Option<U>
      requires None?
    {
      None
    }

    function Extract(): T
      requires Some?
    {
      value
    }
  }

  datatype Result<+T, +E> = Ok(value: T) | Err(error: E) {
    predicate IsFailure() { Err? }

    function PropagateFailure<U>(): Result<U, E>
      requires Err?
    {
      Err(error)
    }

    function Extract(): T
      requires Ok?
    {
      value
    }
  }

  /** The outcome of a validator: it passes, or it fails carrying every error it collected. */
  datatype Outcome<+E> = Pass | Fail(errors: seq<E>)

  /** A validator raises exactly when it collected at least one error. */
  function RaiseIfAny<E>(errors: seq<E>): (r: Outcome<E>)
    ensures r.Pass? <==> |errors| == 0
    ensures r.Fail? ==> r.errors == errors
  {
    if |errors| == 0 then Pass else Fail(errors)
  }
}
