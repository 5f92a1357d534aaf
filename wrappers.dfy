/** Option and Result types shared by the modules of the model. */
module Wrappers {

  datatype Option<T> = None | Some(value: T) {
    function GetOr(default: T): T {
      match this
      case Some(v) => v
      case None => default
    }
  }

  /** An operation that either produces a value or reports an error. */
  datatype Result<T, E> = Ok(value: T) | Err(error: E)
}
