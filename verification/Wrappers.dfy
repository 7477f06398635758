/** Results of operations that may have no value or may fail. */
module Wrappers {

  /** A value that may be absent: Go's nil pointers, TypeScript's null and undefined. */
  datatype Option<+T> = None | Some(value: T)

  /** The outcome of an operation that returns either a value or an error. */
  datatype Result<+T, +E> = Ok(value: T) | Err(error: E)
}
