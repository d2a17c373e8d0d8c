/** Option and Result values used for the error paths of the dispatch system. */
module Wrappers {

  datatype Option<+T> = None | Some(value: T)

  /** The outcome of an operation that either yields a value or fails with an error (a thrown
      exception in the Java service). */
  datatype Result<+T, +E> = Ok(value: T) | Err(error: E)
}
