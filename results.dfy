/** Failure-carrying values for the operations of the demo that can throw. */
module Results {

  datatype Option<+T> = None | Some(value: T)

  /** What an operation that throws or returns a value produces. */
  datatype Result<+T, +E> = Success(value: T) | Failure(error: E)

  /** What an operation that throws or returns nothing produces. */
  datatype Outcome<+E> = Pass | Fail(error: E)
}
