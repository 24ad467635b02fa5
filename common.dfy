/** Option and Result values shared by every part of the model. */
module Common {

  /** A value that may be absent (Python's None, JavaScript's null). */
  datatype Option<+T> = None | Some(value: T)

  /** The outcome of a request handler: a response or an HTTP error. */
  datatype Result<+R, +E> = Success(value: R) | Failure(error: E)
}
