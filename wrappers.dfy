/** Option and Outcome: absent values and Python exceptions as data. */
module Wrappers {

  datatype Option<+T> = None | Some(value: T)

  /** The result of a Python call that either returns a value or raises. */
  datatype Outcome<+T> = Returned(value: T) | Raised(error: string)
}
