/** Optional values: a nullable column, or a key that a request may leave out. */
module Wrappers {

  datatype Option<+T> = None | Some(value: T)
}
