/** Optional values, for parses that can fail and steps that can panic. */
module Wrappers {
  datatype Option<T> = None | Some(value: T)
}
