/** The optional-value datatype used across the model for a request field
    that is absent (`undefined`), for a SQL `NULL` column and for "no row
    found". A request field sent as JSON `null` is not one of its values. */
module Wrappers {

  datatype Option<+T> = None | Some(value: T) {

    /** Returns the wrapped value, or `default` when there is none. */
    function GetOr(default: T): T {
      match this
      case Some(v) => v
      case None => default
    }
  }
}
