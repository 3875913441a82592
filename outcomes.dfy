/** Optional values, internal results and handler replies shared by every blueprint. */
module Outcomes {

  datatype Option<T> = None | Some(value: T)

  /** The result of a helper that either returns a value or raises; the
      failure carries the name of the Python exception class. */
  datatype Result<T> = Success(value: T) | Failure(exception: string)

  /** A handler's reply: a success status with its payload, or an error
      status with the "error" (or "message") text of the JSON body.  For a
      500 reply built from str(e) the message names the exception class. */
  datatype Response<T> = Ok(status: int, body: T) | Err(status: int, message: string)

  /** A reply whose success payload is the "message" text of the JSON body. */
  type Reply = Response<string>
}
