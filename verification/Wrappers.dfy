/** A value that may be missing, as Python's `Optional`. */
module Wrappers {
  datatype Option<+T> = None | Some(value: T)
}
