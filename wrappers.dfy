/** Optional values, standing for Python's `None`-or-value. */
module Wrappers {
  datatype Option<T> = None | Some(value: T)
}
