/** The optional-value wrapper used for parse results. */
module Wrappers {
  datatype Option<+T> = None | Some(value: T)
}
