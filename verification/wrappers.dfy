/** Optional values: `None` stands for the nil pointer the Go code returns when nothing is found. */
module Wrappers {
  datatype Option<+T> = None | Some(value: T)
}
