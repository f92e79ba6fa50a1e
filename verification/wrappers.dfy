/** Optional value, used for JSON fields that may be absent from a response. */
module Wrappers {

  datatype Option<+T> = None | Some(value: T)
}
