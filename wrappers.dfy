/** The `Option` and `Result` datatypes shared by the modules of this model. */
module Wrappers {

  datatype Option<+T> = None | Some(value: T)

  /** The outcome of a script run: a value, or the exception that ended the run. */
  datatype Result<+R, +E> = Success(value: R) | Failure(error: E)
}
