/** Optional values, used for the results that the application may or may not produce. */
module Wrappers {
  datatype Option<+T> = None | Some(value: T)
}
