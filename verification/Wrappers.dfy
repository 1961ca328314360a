/** Optional values, used wherever the modelled code returns None, NULL or raises. */
module Wrappers {
  datatype Option<+T> = None | Some(value: T)
}
