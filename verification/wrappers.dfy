/** Optional value: `None` when a search finds nothing. */
module Wrappers {

  /** `None` when a search finds nothing, `Some(v)` otherwise. */
  datatype Option<+T> = None | Some(value: T)
}
