/** Optional values, standing for the C code's `bool` result plus out-parameter. */
module Wrappers {
  datatype Option<T> = None | Some(value: T)
}
