/** Failure-compatible result types shared by every module of the model. */
module Wrappers {

  /** Some value, or nothing (a NULL result or "not found" in the original program). */
  datatype Option<+T> = None | Some(value: T)

  /** A value, or the reason it could not be produced (a non-zero return code). */
  datatype Result<+T, +E> = Success(value: T) | Failure(error: E) {

    predicate IsFailure() {
      Failure?
    }

    function PropagateFailure<U>(): Result<U, E>
      requires Failure?
    {
      Failure(error)
    }

    function Extract(): T
      requires Success?
    {
      value
    }
  }
}
