/** Optional values, for parameters the caller may leave out and for searches
    that may find nothing. */
module Wrappers {

  datatype Option<+T> = None | Some(value: T)

}
