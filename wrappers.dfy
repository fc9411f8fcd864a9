/** The optional-value type used wherever the source has a nullable result. */
module Wrappers {
  datatype Option<+T> = None | Some(value: T)
}
