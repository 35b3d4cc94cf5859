/** Optional values, standing for the null pointers of the source. */
module Wrappers {

  datatype Option<+T> = None | Some(value: T)
}
