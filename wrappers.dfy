/** Failure-compatible wrappers shared by every module of the model. */
module Wrappers {

  /** A value that may be absent: PHP's `null` next to a real value. */
  datatype Option<+T> = None | Some(value: T)

  /** The outcome of an operation that may throw: a result or the exception it raises. */
  datatype Result<+T, +E> = Ok(value: T) | Err(error: E) {
    predicate IsFailure() { Err? }

    function PropagateFailure<U>(): Result<U, E>
      requires Err?
    {
      Err(error)
    }

    function Extract(): T
      requires Ok?
    {
      value
    }
  }
}
