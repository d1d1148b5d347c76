/** Failure-compatible wrappers shared by every stage of the front end. */
module Wrappers {

  /** The conventional Some/None datatype, used for Rust's `Option`. */
  datatype Option<+T> = None | Some(value: T) {

    /** Returns the value encapsulated in Some or a default value if None */
    function GetOr(default: T): T {
      match this
      case Some(v) => v
      case None => default
    }
  }

  /** Success or failure, used for Rust's `Result`. */
  datatype Result<+T, +E> = Ok(value: T) | Err(error: E)
}
