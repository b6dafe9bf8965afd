/** Failure-compatible wrappers shared by the ledger modules. */
module Wrappers {

  /** A value that may be missing: JSON `null`/`undefined` on the wire. */
  datatype Option<+T> = None | Some(value: T) {

    /** The wrapped value, or `default` when missing (JavaScript's `??`). */
    function GetOr(default: T): T {
      match this
      case Some(v) => v
      case None => default
    }
  }

  /** Either a value or an error. */
  datatype Result<+T, +E> = Ok(value: T) | Err(error: E)
}
