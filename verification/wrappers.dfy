/** The optional-value datatype used for "did not parse" and "not found". */
module Wrappers {

  datatype Option<+T> = None | Some(value: T)
}
