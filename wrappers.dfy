/** Optional values: the source returns `None` where a value is missing. */
module Wrappers {

  datatype Option<+T> = None | Some(value: T)
}
