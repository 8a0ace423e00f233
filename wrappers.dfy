/** Optional values: a form field that may be missing, a storage slot that may be empty. */
module Wrappers {
  datatype Option<+T> = None | Some(value: T)
}
