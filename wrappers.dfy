/** Option and Result: `null`/`undefined` returns and thrown errors of the modelled code. */
module Wrappers {

  datatype Option<+T> = None | Some(value: T) {
    /** The value, or `default` for `None` (JavaScript's `??`). */
    function GetOr(default: T): T {
      match this
      case Some(v) => v
      case None => default
    }
  }

  /** A computation that either returns a value or throws `Error(message)`. */
  datatype Result<+T> = Ok(value: T) | Err(message: string)
}
