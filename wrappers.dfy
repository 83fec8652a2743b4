/**
 * Option and Result, the two wrappers the rest of the model uses for
 * nullable fields, absent keys and operations that can fail.
 */
module Wrappers {

  datatype Option<T> = None | Some(value: T) {
    /** The value, or `default` when there is none (Python's `x or default` on a nullable field). */
    function GetOr(default: T): T {
      if Some? then value else default
    }
  }

  datatype Result<T, E> = Ok(value: T) | Err(error: E)
}
