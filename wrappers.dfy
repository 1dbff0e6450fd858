/** Optional values: `None` stands for the source's NULL pointer or "not found". */
module Wrappers {
  datatype Option<+T> = None | Some(value: T)
}
