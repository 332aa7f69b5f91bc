/** Failure-carrying wrappers shared by every module of the model. */
module Results {

  /** A value that may be absent: a missing cell (NaN) of a pandas column. */
  datatype Option<+T> = None | Some(value: T)

  /** The outcome of an operation of the source that can raise or report an error. */
  datatype Result<+T, +E> = Ok(value: T) | Err(error: E)
}
