/** Failure-compatible result types shared by every module of the model. */
module Wrappers {

  datatype Option<+T> = None | Some(value: T)

  /** `Failure` stands for a Java exception that aborts the current operation. */
  datatype Result<+R, +E> = Success(value: R) | Failure(error: E)
}
