/** Optional values and results shared by every module of the model. */
module Wrappers {

  /** A value that may be absent: JavaScript's `null` / `undefined` where the source tests for it. */
  datatype Option<+T> = None | Some(value: T)

  /** The outcome of an operation that may throw; `error` carries the message or error code. */
  datatype Result<+T> = Success(value: T) | Failure(error: string)
}
