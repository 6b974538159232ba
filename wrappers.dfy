/** Optional values and results with an error, used for JavaScript's `undefined`
    and for the failures the client reports. */
module Wrappers {

  /** A value that may be missing (`undefined` in the client's configuration and payloads). */
  datatype Option<+T> = None | Some(value: T)

  /** The outcome of an operation that either yields a value or fails with an error. */
  datatype Result<+T, +E> = Ok(value: T) | Err(error: E)
}
