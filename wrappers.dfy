/** The optional-value datatype used throughout the model. */
module Wrappers {

  /** A value that may be absent: a NULL column, a failed stat(), a missing table. */
  datatype Option<+T> = None | Some(value: T)
}
