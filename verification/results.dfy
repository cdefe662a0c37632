/** Failure-carrying return values shared by the whole model. */
module Results {

  /** A value that may be absent: Python's `None` versus a value. */
  datatype Option<+T> = None | Some(value: T)

  /** The outcome of an operation that may raise: a value, or the error it raises. */
  datatype Result<+T, +E> = Success(value: T) | Failure(error: E)
}
