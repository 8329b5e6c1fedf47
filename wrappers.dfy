/** Optional values: Ruby's `nil` or a value. */
module Wrappers {
  datatype Option<T> = None | Some(value: T)
}
