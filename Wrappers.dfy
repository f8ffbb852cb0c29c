/** The optional-value datatype used for the source's error returns. */
module Wrappers {

  datatype Option<+T> = None | Some(value: T)
}
