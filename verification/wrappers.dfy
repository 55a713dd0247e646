/** Optional values, used wherever the renderer can produce no meaningful result. */
module Wrappers {

  /** `None` marks a result that has no finite value (or a parse that failed). */
  datatype Option<+T> = None | Some(value: T)
}
