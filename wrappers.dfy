/** Option and Result, the two failure-carrying types of the model. */
module Wrappers {

  datatype Option<+T> = None | Some(value: T) {
    function GetOr(default: T): T {
      match this
      case Some(v) => v
      case None => default
    }
  }

  /** `anyhow::Result<T>`: a value or an error message. */
  datatype Result<+T> = Ok(value: T) | Err(msg: string)
}
