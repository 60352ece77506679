/** Option and Result values, used for SQL NULLs and for thrown errors. */
module Wrappers {

  datatype Option<+T> = None | Some(value: T)

  datatype Result<+R, +E> = Success(value: R) | Failure(error: E)

  /** A step that either completes or fails with an error and no value. */
  datatype Outcome<+E> = Pass | Fail(error: E)
}
