/** Optional values, used wherever a lookup or a decoder may find
    nothing. */
module Wrappers {

  datatype Option<+T> = None | Some(value: T)
}
