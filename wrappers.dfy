/** Option and Result: absent values and operations that can fail (a thrown error or a rejected promise). */
module Wrappers {

  datatype Option<+T> = None | Some(value: T) {
    function GetOr(default: T): T {
      match this
      case Some(v) => v
      case None => default
    }
  }

  /** `Err` carries the error's message, as `error.message` would. */
  datatype Result<+T> = Ok(value: T) | Err(msg: string)
}
