/** Optional values, standing in for the NULLs of the C bridge. */
module Wrappers {

  datatype Option<+T> = None | Some(value: T)

}
