/** Optional values, used for nullable columns and for `None` results. */
module Wrappers {
  datatype Option<+T> = None | Some(value: T)
}
