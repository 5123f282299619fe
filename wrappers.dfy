/** Optional values: a store read that finds no row, a `find` that finds no element. */
module Wrappers {

  datatype Option<+T> = None | Some(value: T)
}
