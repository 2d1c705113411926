/** Failure-carrying values shared by every module of the model. */
module Results {

  /** A value that may be absent: Python's `None` or a dictionary key that is missing. */
  datatype Option<+T> = None | Some(value: T)

  /** The outcome of an operation that can raise: `Ok` carries the value, `Err` the exception. */
  datatype Result<+T, +E> = Ok(value: T) | Err(error: E)
}
