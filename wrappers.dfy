/** Optional values; `None` also stands for a C# `null` string reference. */
module Wrappers {

  datatype Option<+T> = None | Some(value: T)
}
