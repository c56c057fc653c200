/** Failure-carrying values shared by the other modules. */
module Wrappers {

  /** A value that may be absent (TypeScript's `T | undefined`). */
  datatype Option<+T> = None | Some(value: T)

  /** Either a computed value or the error that stopped the computation. */
  datatype Result<+T, +E> = Ok(value: T) | Err(error: E)
}
