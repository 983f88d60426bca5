/** Failure-carrying wrappers shared by every module of the model. */
module Common {

  /** A value that may be absent: Python's `None`, TypeScript's `undefined` or an optional field. */
  datatype Option<+T> = None | Some(value: T) {

    /** The wrapped value, or `default` when absent. */
    function GetOr(default: T): T {
      match this
      case Some(v) => v
      case None => default
    }
  }

  /** The outcome of a call that can raise: `Ok` carries the value, `Err` what was raised. */
  datatype Result<+T, +E> = Ok(value: T) | Err(error: E)
}
