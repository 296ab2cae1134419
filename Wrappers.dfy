/** Optional values and thrown-or-not outcomes shared by the other modules. */
module Wrappers {

  /** A value that may be absent (Go's zero "not set", JavaScript's undefined). */
  datatype Option<+T> = None | Some(value: T)

  /** The outcome of a call that may throw: `Fail` carries the thrown message. */
  datatype Outcome<+E> = Pass | Fail(error: E)
}
