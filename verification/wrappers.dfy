/** The optional-value datatype used for nullable source columns and for lookups. */
module Wrappers {

  datatype Option<+T> = None | Some(value: T)
}
