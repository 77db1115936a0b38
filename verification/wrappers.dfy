/** Option and Result shared by the modules of this model. */
module Wrappers {

  /** A value that may be absent: `null`/`undefined` in the original program. */
  datatype Option<+T> = None | Some(value: T)

  /** The outcome of a step that may throw: `Err` carries the exception. */
  datatype Result<+R, +E> = Ok(value: R) | Err(error: E)
}
