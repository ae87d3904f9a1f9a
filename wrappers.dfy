/** Option and Result, shared by every module of the model. */
module Wrappers {

  /** A value that may be absent, as `undefined` is in the source. */
  datatype Option<+T> = None | Some(value: T)

  /** The outcome of an operation that may throw or reject: `Failure` carries the message. */
  datatype Result<+R> = Success(value: R) | Failure(error: string)
}
