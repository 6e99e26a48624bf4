/** The optional-value datatype shared by the parsing code. */
module Wrappers {
  datatype Option<+T> = None | Some(value: T)
}
