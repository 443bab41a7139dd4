/** A value that may be missing: a request parameter that was not sent, a query that failed. */
module Wrappers {
  datatype Option<+T> = None | Some(value: T)
}
