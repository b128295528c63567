/** Option and Result values standing for JavaScript's null returns and thrown errors. */
module Wrappers {
  datatype Option<+T> = None | Some(value: T) {
    function GetOr(default: T): T {
      match this
      case Some(v) => v
      case None => default
    }
  }

  /** The outcome of an operation that may throw: its value, or the error's message. */
  datatype Result<+T> = Ok(value: T) | Threw(message: string)
}
