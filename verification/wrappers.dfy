/** Option and Result, the two failure-carrying shapes the model uses in place of
    JavaScript's null/undefined and thrown errors. */
module Wrappers {

  /** A JSON field or nullable column: None stands for both undefined and null. */
  datatype Option<+T> = None | Some(value: T) {

    /** The contained value, or `default` when there is none. */
    function GetOr(default: T): T {
      match this
      case Some(v) => v
      case None => default
    }
  }

  /** The outcome of a route or a page action: a value, or the error that stopped it. */
  datatype Result<+R, +E> = Success(value: R) | Failure(error: E)
}
