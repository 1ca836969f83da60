/** A value that may be missing: a null column, a closed queue, a refused request. */
module Wrappers {
  datatype Option<+T> = None | Some(value: T)
}
