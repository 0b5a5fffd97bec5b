/** Option and Result values used across the model in place of JavaScript's
    `null`/`undefined` and thrown errors. */
module Wrappers {

  datatype Option<+T> = None | Some(value: T) {
    /** The wrapped value, or `default` when absent (JavaScript's `??`). */
    function GetOr(default: T): T {
      match this
      case Some(v) => v
      case None => default
    }
  }

  datatype Result<+R, +E> = Ok(value: R) | Err(error: E)
}
