/** Absent values and error outcomes, as JavaScript's `undefined`/`null` and thrown or
    callback-reported errors appear in the modelled code. */
module Wrappers {

  /** A value that may be missing (`undefined` or `null` in the source). */
  datatype Option<+T> = None | Some(value: T)

  /** The outcome of an operation that can fail: a thrown exception, a rejected promise
      or an error passed to a callback. */
  datatype Result<+T, +E> = Success(value: T) | Failure(error: E)
}
