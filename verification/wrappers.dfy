/** Failure-carrying wrappers shared by every module of the model. */
module Wrappers {

  /** A value that may be absent: a missing document, an unset optional field. */
  datatype Option<+T> = None | Some(value: T)

  /** The outcome of an operation that may fail with an error value. */
  datatype Result<+R, +E> = Success(value: R) | Failure(error: E)

  /** An HTTP reply as the controllers send it: a status code with either a body or an error text. */
  datatype Reply<+T> = Ok(status: int, body: T) | Fail(status: int, error: string)
}
