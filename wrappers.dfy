/** Option and Result, the two failure-carrying shapes the ledger code returns. */
module Wrappers {

  /** An optional value: `Option<T>` in the source. */
  datatype Option<+T> = None | Some(value: T) {

    /** The held value, or `default` when there is none (`unwrap_or`). */
    function GetOr(default: T): T {
      match this
      case Some(v) => v
      case None => default
    }
  }

  /** A value or an error: `anyhow::Result<T>` in the source. */
  datatype Result<+T, +E> = Success(value: T) | Failure(error: E)
}
