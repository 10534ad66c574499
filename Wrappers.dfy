/** Optional values: the model's stand-in for a lookup that may fail. */
module Wrappers {
  datatype Option<+T> = None | Some(value: T)
}
