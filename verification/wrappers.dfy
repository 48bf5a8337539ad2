/** The optional-value type used wherever the browser holds `None`. */
module Wrappers {

  /** A value that may be absent, as Python's `None` is. */
  datatype Option<+T> = None | Some(value: T)
}
