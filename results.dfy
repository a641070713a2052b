/** Failure-compatible wrappers shared by the parsers and the crate engine. */
module Results {

  /** A value that may be missing, e.g. a local the source reads before assigning it. */
  datatype Option<+T> = None | Some(value: T)

  /** Either a value or the reason the run stopped. */
  datatype Result<+T, +E> = Success(value: T) | Failure(error: E) {
    predicate IsFailure() {
      Failure?
    }

    function PropagateFailure<U>(): Result<U, E>
      requires Failure?
    {
      Failure(error)
    }

    function Extract(): T
      requires Success?
    {
      value
    }
  }
}
