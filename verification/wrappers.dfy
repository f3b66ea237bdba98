/** Option and Result, the failure-carrying values used throughout the model
    (a JavaScript `undefined`/`null` becomes `None`, a thrown exception an `Err`). */
module Wrappers {

  datatype Option<+T> = None | Some(value: T) {
    function GetOr(default: T): T {
      match this
      case Some(v) => v
      case None => default
    }
  }

  datatype Result<+T, +E> = Ok(value: T) | Err(error: E)
}
