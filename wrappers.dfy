/** Absence and failure as values: `null` results and thrown errors of the source. */
module Wrappers {

  /** A value that may be missing; stands for a TypeScript `T | null`. */
  datatype Option<+T> = None | Some(value: T)

  /** The outcome of an operation that may throw: its value, or the error it raised. */
  datatype Result<+R, +E> = Success(value: R) | Failure(error: E)
}
