/** Optional values: a fetch outcome that may be missing, a key that may be absent. */
module Wrappers {
  datatype Option<+T> = None | Some(value: T)
}
