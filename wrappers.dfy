/** Optional values: the model's stand-in for Go's nil pointers and for
    "no error" results. */
module Wrappers {

  datatype Option<+T> = None | Some(value: T)
}
