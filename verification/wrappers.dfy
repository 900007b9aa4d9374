/** Optional values, standing in for the Java `null` returns of the auction engine. */
module Wrappers {

  /** `None` plays the part of `null`; `Some(v)` of a non-null reference. */
  datatype Option<+T> = None | Some(value: T)
}
