/** Failure-carrying results shared by every stage of the rule engine. */
module Wrappers {

  /** An optional value; `None` stands for JavaScript's `null` where a result may be absent. */
  datatype Option<+T> = None | Some(value: T)

  /** A value or the error that aborted the computation (a thrown `Error` in the source). */
  datatype Result<+T, +E> = Ok(value: T) | Err(error: E)
}
