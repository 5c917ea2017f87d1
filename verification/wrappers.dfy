/** A value that may be absent. */
module Wrappers {

  /** A value that is present (`Some`) or absent (`None`). */
  datatype Option<+T> = None | Some(value: T)
}
