/** Failure-carrying results: `Option` for a lookup that may miss, `Result` for an
    operation that raises one of several exceptions in the Java code. */
module Wrappers {

  datatype Option<+T> = None | Some(value: T)

  datatype Result<+T, +E> = Success(value: T) | Failure(error: E)
}
