/** Option stands in for the pandas missing value (NaN / None) throughout the model. */
module Wrappers {

  datatype Option<+T> = None | Some(value: T)

  /** The value, or `default` when it is missing. */
  function GetOr<T>(o: Option<T>, default: T): T
  {
    match o
    case Some(v) => v
    case None => default
  }
}
