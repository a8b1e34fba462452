/** Failure-compatible wrappers shared by every module of the tracker model. */
module Wrappers {

  /** A value that may be absent: Python's None or a present value. */
  datatype Option<+T> = None | Some(value: T) {
    function GetOr(default: T): T {
      if Some? then value else default
    }
  }

  /** A computation that either yields a value or raises an error. */
  datatype Result<+T, +E> = Ok(value: T) | Err(error: E)

  /** A computation with no value that either completes or raises an error. */
  datatype Outcome<+E> = Pass | Fail(error: E)
}
