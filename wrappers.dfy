/** Optional values, standing for the source's `null` fields and its parse failures. */
module Wrappers {
  datatype Option<+T> = None | Some(value: T)
}
