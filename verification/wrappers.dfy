/** Option and Result values used across the model: `Option` stands for a
    JavaScript value that may be `null`/`undefined`, `Result` for a promise
    that either resolves with a value or rejects with an error message. */
module Wrappers {

  datatype Option<+T> = None | Some(value: T) {

    /** The carried value, or `default` when there is none (JavaScript's `??`). */
    function GetOr(default: T): T {
      match this
      case Some(v) => v
      case None => default
    }
  }

  datatype Result<+T> = Ok(value: T) | Err(message: string)
}
