/** Failure-compatible result types used across the model. */
module Wrappers {

  /** A value that may be absent: a missing file, a missing key, a failed lookup. */
  datatype Option<+T> = None | Some(value: T)

  /** The outcome of an operation that the source lets raise an exception. */
  datatype Result<+T> = Ok(value: T) | Err(message: string)
  {
    predicate IsFailure() {
      Err?
    }

    function PropagateFailure<U>(): Result<U>
      requires Err?
    {
      Err(message)
    }

    function Extract(): T
      requires Ok?
    {
      value
    }
  }
}
