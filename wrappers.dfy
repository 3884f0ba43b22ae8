/** Optional values: Go's nil pointers, nil interfaces and nil maps. */
module Wrappers {

  datatype Option<+T> = None | Some(value: T)
}
