/** Optional values, and the JavaScript truthiness test the handlers apply to them. */
module Wrappers {

  /** A value that may be absent: `null`/`undefined` in the application. */
  datatype Option<+T> = None | Some(value: T)

  /** `!!x` for a value that is a string or absent: only a present, non-empty string is truthy. */
  predicate IsTruthy(x: Option<string>)
  {
    x.Some? && x.value != ""
  }
}
