/** Optional values: a missing prop, a JavaScript `undefined`, a NaN result. */
module Wrappers {
  datatype Option<+T> = None | Some(value: T)
}
