/** Failure-carrying values shared by every component of the model. */
module Wrappers {

  /** A value that may be absent: JavaScript's `undefined`/`null`, SQL's
      NULL, or a Python lookup that found nothing. */
  datatype Option<+T> = None | Some(value: T) {
    function GetOr(default: T): T {
      match this
      case Some(v) => v
      case None => default
    }
  }

  /** The outcome of an operation that can raise or reject. */
  datatype Result<+T, +E> = Ok(value: T) | Err(error: E)
}
