/** Optional values: an empty cell of a table is `None`. */
module Wrappers {
  datatype Option<+T> = None | Some(value: T)
}
