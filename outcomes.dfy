/** Failure-carrying wrappers shared by every module of the model. */
module Outcomes {

  /** A Java reference that may be null: `None` stands for `null`. */
  datatype Option<+T> = None | Some(value: T)

  /** A call that either returns a value or raises the exception `error`. */
  datatype Result<+T, +E> = Ok(value: T) | Err(error: E)
}
