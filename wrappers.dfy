/** Optional values: a request field that may be missing, a search that may fail. */
module Wrappers {
  datatype Option<+T> = None | Some(value: T)
}
