/** Optional values, the outcome of an operation that may raise an exception,
    and the ids the tables use. */
module Wrappers {

  /** `Guid.NewGuid()` values; each store hands them out from a counter. */
  type Guid = nat

  /** A value that may be absent: `null` in the service. */
  datatype Option<+T> = None | Some(value: T)

  /** The outcome of a call that either returns a value or raises an exception;
      `error` is the exception's message. */
  datatype Result<+T> = Success(value: T) | Failure(error: string)
}
