/** Option and Result values, and the Python exception kinds that the pipeline raises. */
module Outcomes {

  datatype Option<+T> = None | Some(value: T) {
    function GetOr(default: T): T {
      match this
      case Some(v) => v
      case None => default
    }
  }

  /** The exception kinds raised by the core, each with its message. */
  datatype Error =
    | KeyError(msg: string)
    | ValueError(msg: string)
    | IndexError(msg: string)
    | FileNotFoundError(msg: string)

  datatype Result<+T> = Ok(value: T) | Err(error: Error)
}
