/** Small failure-carrying datatypes shared by the whole model. */
module Wrappers {

  /** A value that may be absent: JavaScript's `null`/`undefined` or a missing field. */
  datatype Option<+T> = None | Some(value: T)

  /** The value of an operation, or the error it throws. */
  datatype Result<+T, +E> = Ok(value: T) | Err(error: E)

  /** The outcome of one HTTP request: the response body, or a rejected promise
      (network error, non-2xx status, unreadable body). */
  datatype Remote<+T> = Reply(data: T) | NoReply
}
