/** Failure-carrying values used throughout the model. */
module Results {

  /** A Java reference that may be null: `None` plays the role of `null`. */
  datatype Option<+T> = None | Some(value: T)

  /** The value a Java call returns, or the exception it throws instead. */
  datatype Result<+T, +E> = Ok(value: T) | Err(error: E)

  /** A check that either returns normally or throws. */
  datatype Outcome<+E> = Pass | Fail(error: E)
}
