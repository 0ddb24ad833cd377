/** Failure-carrying values shared by every module of the model. */
module Wrappers {

  datatype Option<+T> = None | Some(value: T) {
    /** The value, or `default` when there is none (`dict.get(key, default)`). */
    function GetOr(default: T): T {
      match this
      case Some(v) => v
      case None => default
    }
  }

  /** The outcome of a call that may raise a Python exception: either the
      value it returned, or the text of the exception it raised (`str(e)`). */
  datatype Raise<+T> = Ok(value: T) | Raised(message: string)
}
