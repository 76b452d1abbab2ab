/** Optional values: the presence of a query parameter, the result of a search. */
module Wrappers {
  datatype Option<+T> = None | Some(value: T)
}
