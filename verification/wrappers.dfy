/** Option and Result, standing in for the `T | null` returns and the thrown
    errors of the TypeScript source. */
module Wrappers {

  /** A value that may be absent: `null` / `undefined` in the source. */
  datatype Option<+T> = None | Some(value: T)

  /** The outcome of an operation that may throw: `Failure` carries the
      message of the `Error` the source would throw. */
  datatype Result<+R, +E> = Success(value: R) | Failure(error: E)
}
