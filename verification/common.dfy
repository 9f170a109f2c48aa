/** Failure-carrying wrappers shared by every module of the model. */
module Common {

  /** A value that may be absent: JavaScript's `undefined`/`null` on one side, a value on the other. */
  datatype Option<+T> = None | Some(value: T)
  {
    function GetOr(default: T): T
    {
      match this
      case Some(v) => v
      case None => default
    }
  }

  /** The outcome of an operation that either returns a value or throws an error of kind `E`. */
  datatype Result<+T, +E> = Ok(value: T) | Err(error: E)
}
