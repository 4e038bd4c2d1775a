/** Error results shared by the container wrappers and the application object. */
module Outcomes {

  /** The exceptions the modelled operations raise to their caller. */
  datatype Error = KeyError | ValueError | IndexError | TypeError | RuntimeError

  datatype Option<+T> = None | Some(value: T)

  /** A value, or the exception raised instead of returning it. */
  datatype Result<+T> = Ok(value: T) | Err(error: Error)

  /** The outcome of an operation that returns nothing on success. */
  datatype Outcome = Pass | Fail(error: Error)
}
