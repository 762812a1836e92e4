/** Optional values, in place of the source's sentinel returns and null pointers. */
module Wrappers {
  datatype Option<+T> = None | Some(value: T)
}
