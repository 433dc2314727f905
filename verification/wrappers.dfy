/** The optional value a database query returns: a record, or nothing. */
module Wrappers {
  datatype Option<+T> = None | Some(value: T)
}
