/** Optional values: `None` stands for a Go nil slice, map or pointer. */
module Wrappers {

  datatype Option<+T> = None | Some(value: T)
}
