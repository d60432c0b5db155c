/** Optional values, used for the error half of a fetch result and for parsers. */
module Wrappers {
  datatype Option<+T> = None | Some(value: T)
}
