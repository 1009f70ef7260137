/** Optional values: a key that may be missing, a file that may not open. */
module Wrappers {

  datatype Option<+T> = None | Some(value: T)
}
