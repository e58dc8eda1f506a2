/** Option and Result, the two failure-carrying wrappers the model uses for
    nullable columns and for handler replies. */
module Wrappers {

  /** A nullable value: `None` plays Python's `None`. */
  datatype Option<+T> = None | Some(value: T) {

    /** The wrapped value, or `default` when there is none. */
    function GetOr(default: T): T {
      match this
      case Some(v) => v
      case None => default
    }
  }

  /** A reply that either carries a value or an error. */
  datatype Result<+T, +E> = Ok(value: T) | Err(error: E)
}
