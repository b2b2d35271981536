/** Optional values, used wherever the source returns NULL / null for "absent". */
module Wrappers {
  datatype Option<+T> = None | Some(value: T)
}
