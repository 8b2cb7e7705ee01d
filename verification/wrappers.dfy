/** The optional-value datatype used for lookups and validation outcomes. */
module Wrappers {

  datatype Option<+T> = None | Some(value: T)
}
