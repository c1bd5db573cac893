/** The two failure-carrying types every other module uses. */
module Wrappers {

  datatype Option<+T> = None | Some(value: T)

  /** A handler either produces its result or is refused; a refused handler commits nothing. */
  datatype Result<+T, +E> = Success(value: T) | Failure(error: E) {
    predicate IsFailure() {
      Failure?
    }

    function PropagateFailure<U>(): Result<U, E>
      requires Failure?
    {
      Failure(error)
    }

    function Extract(): T
      requires Success?
    {
      value
    }
  }
}
