/** Option, Result and Outcome: the model's stand-ins for Java's null and for
    thrown exceptions. */
module Wrappers {

  /** A nullable Java reference. */
  datatype Option<+T> = None | Some(value: T)

  /** A value or the exception that replaced it. */
  datatype Result<+R, +E> = Ok(value: R) | Err(error: E)

  /** A void call that either returns normally or throws. */
  datatype Outcome<+E> = Pass | Fail(error: E)
}
