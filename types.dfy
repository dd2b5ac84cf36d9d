/** Failure-carrying values shared by the modules of the model. */
module Types {

  /** A value that may be absent: Python's `None` or a string. */
  datatype Option<+T> = None | Some(value: T)

  /** The result of an operation that may raise instead of returning. */
  datatype Result<+T, +E> = Success(value: T) | Failure(error: E)
}
