/** Failure-carrying return values: Go's `(value, error)` pairs and nil pointers. */
module Results {

  /** A value that may be absent (a nil pointer or a parse that failed). */
  datatype Option<+T> = None | Some(value: T)

  /** A value or the error that replaced it. */
  datatype Result<+T, +E> = Ok(value: T) | Err(error: E)
}
