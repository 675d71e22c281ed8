/** Failure-carrying datatypes used wherever the renderer or the game would
    `unwrap`, `expect` or `panic!`: the error path becomes a value. */
module Wrappers {

  datatype Option<+T> = None | Some(value: T)

  datatype Result<+R, +E> = Success(value: R) | Failure(error: E)

  /** The outcome of an operation that returns nothing on success. */
  datatype Outcome<+E> = Pass | Fail(error: E)
}
