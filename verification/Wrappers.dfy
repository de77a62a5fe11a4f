/** Optional values, used for fields that may be missing and for results that may be absent. */
module Wrappers {

  datatype Option<+T> = None | Some(value: T)
}
