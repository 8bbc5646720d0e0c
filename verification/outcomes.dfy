/** Failure-carrying result types shared by every module of the model.
    A Python exception or a "polite refusal" message of the bot both become `Err`. */
module Outcomes {

  datatype Option<T> = None | Some(value: T) {
    /** The wrapped value, or `default` when there is none. */
    function GetOr(default: T): T {
      match this
      case Some(v) => v
      case None => default
    }
  }

  datatype Result<T, E> = Ok(value: T) | Err(error: E)
}
