/** Optional values: a field the catalog service may leave out, or a filter that is not set. */
module Wrappers {
  datatype Option<+T> = None | Some(value: T)
}
