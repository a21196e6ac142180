/** Failure-compatible wrappers shared by every module of the model. */
module Wrappers {

  /** A value that may be absent (JavaScript `undefined`). */
  datatype Option<+T> = None | Some(value: T) {
    /** The value, or `default` in place of undefined. */
    function GetOr(default: T): T { if Some? then value else default }
  }

  /** Either a value or the error the JavaScript code would throw. */
  datatype Result<+T, +E> = Success(value: T) | Failure(error: E) {
    predicate IsFailure() { Failure? }

    function PropagateFailure<U>(): Result<U, E>
      requires Failure?
    {
      Failure(error)
    }

    function Extract(): T
      requires Success?
    {
      value
    }
  }

  /** A step that either completes or throws. */
  datatype Outcome<+E> = Pass | Fail(error: E) {
    predicate IsFailure() { Fail? }

    function PropagateFailure<U>(): Result<U, E>
      requires Fail?
    {
      Failure(error)
    }
  }
}
