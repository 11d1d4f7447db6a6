/** A value that may be missing: a null pointer or a refused request. */
module Wrappers {
  datatype Option<+T> = None | Some(value: T)
}
