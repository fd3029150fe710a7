/** The optional value used for SQL rows that may be missing and for Python's `None` returns. */
module Wrappers {
  datatype Option<+T> = None | Some(value: T)
}
