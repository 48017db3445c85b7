/** The optional-value datatype used for nil-or-value results. */
module Wrappers {
  datatype Option<+T> = None | Some(value: T)
}
