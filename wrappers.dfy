/** Failure-aware result types shared by the modules of this model. */
module Wrappers {

  /** A value that may be missing; `None` stands for pandas' NaN where a column holds one. */
  datatype Option<+T> = None | Some(value: T)

  /** The value of a computation, or the error the Python code would raise instead. */
  datatype Result<+T, +E> = Success(value: T) | Failure(error: E)

  /** The outcome of a state-changing step that returns nothing but may fail. */
  datatype Outcome<+E> = Pass | Fail(error: E)
}
