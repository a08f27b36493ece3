/** Optional values, used where the Go code has a nil pointer or a panic. */
module Wrappers {

  datatype Option<+T> = None | Some(value: T)
}
