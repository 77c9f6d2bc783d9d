/** Option and Result types used for the error paths of the handlers. */
module Results {

  /** A value that may be absent: a missing dictionary key, a JavaScript `undefined`. */
  datatype Option<+T> = None | Some(value: T)

  /** The outcome of an operation that may raise. */
  datatype Result<+T, +E> = Ok(value: T) | Err(error: E)
}
