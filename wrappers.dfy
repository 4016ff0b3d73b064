/** Option and Result values used for the absent values and thrown errors of the
    modelled JavaScript. */
module Wrappers {

  /** `null` / `undefined` versus a present value. */
  datatype Option<+T> = None | Some(value: T) {
    function GetOr(default: T): T {
      match this
      case Some(v) => v
      case None => default
    }
  }

  /** A value or the error a JavaScript function would throw. */
  datatype Result<+T, +E> = Ok(value: T) | Err(error: E)
}
