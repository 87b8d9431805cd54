/** Option, Result and Outcome: the failure-carrying values the pipeline's stages return. */
module Wrappers {

  datatype Option<+T> = None | Some(value: T)

  /** The value of a stage, or the error that aborts the whole run. */
  datatype Result<+R, +E> = Success(value: R) | Failure(error: E)

  /** A check that either passes or fails with an error. */
  datatype Outcome<+E> = Pass | Fail(error: E)
}
