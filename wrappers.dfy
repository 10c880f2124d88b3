/** Optional values: a lookup that finds nothing, or a request that was rejected. */
module Wrappers {
  datatype Option<+T> = None | Some(value: T)
}
