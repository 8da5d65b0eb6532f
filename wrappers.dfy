/** Option and Result: the model's stand-ins for JavaScript's null/undefined and for thrown errors. */
module Wrappers {

  datatype Option<+T> = None | Some(value: T) {
    function GetOr(default: T): T {
      match this
      case Some(v) => v
      case None => default
    }
  }

  datatype Result<+T, +E> = Ok(value: T) | Err(error: E)

  /** A JavaScript `Error` object as the core uses it: its message and its optional `code` property. */
  datatype JsError = JsError(message: string, code: Option<string>)
}
