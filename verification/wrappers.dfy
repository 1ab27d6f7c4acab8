/** The two wrapper types every module of the model shares: an optional
    value (a JavaScript field that may be `undefined`) and a result that
    carries either a value or the error an operation throws. Both support
    Dafny's `:-` operator, so a thrown error propagates to the caller. */
module Wrappers {

  datatype Option<+T> = None | Some(value: T) {

    /** An absent value stops a `:-` chain. */
    predicate IsFailure() {
      None?
    }

    function PropagateFailure<U>(): Option<U>
      requires None?
    {
      None
    }

    function Extract(): T
      requires Some?
    {
      value
    }

    /** The wrapped value, or `default` when there is none (JavaScript's `x ?? d`). */
    function GetOr(default: T): T {
      match this
      case Some(v) => v
      case None => default
    }
  }

  datatype Result<+R, +E> = Success(value: R) | Failure(error: E) {

    predicate IsFailure() {
      Failure?
    }

    function PropagateFailure<U>(): Result<U, E>
      requires Failure?
    {
      Failure(error)
    }

    function Extract(): R
      requires Success?
    {
      value
    }
  }
}
