/** Option and Result, the failure-carrying types the ledger model is built on. */
module Wrappers {

  /** A value that may be absent: a missing row, a NaT timestamp, an argument not supplied. */
  datatype Option<+T> = None | Some(value: T) {

    /** The value, or `default` when absent. */
    function GetOr(default: T): T {
      match this
      case Some(v) => v
      case None => default
    }
  }

  /** Either a value or the error that stopped the computation. */
  datatype Result<+R, +E> = Success(value: R) | Failure(error: E)
}
