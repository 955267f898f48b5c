/** Failure-compatible result types used by both decoders of this model. */
module Wrappers {

  datatype Option<+T> = None | Some(value: T)

  /** A value or the error that aborted the computation (an exception in the original program). */
  datatype Result<+T, +E> = Success(value: T) | Failure(error: E) {

    predicate IsFailure() {
      Failure?
    }

    function PropagateFailure<U>(): Result<U, E>
      requires Failure?
    {
      Failure(error)
    }

    function Extract(): T
      requires Success?
    {
      value
    }
  }

  /** A check that either passes or carries the error it raises; usable with `:-`. */
  datatype Outcome<+E> = Pass | Fail(error: E) {

    predicate IsFailure() {
      Fail?
    }

    function PropagateFailure<U>(): Result<U, E>
      requires Fail?
    {
      Failure(error)
    }
  }
}
