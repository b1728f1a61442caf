/** What several modules share. */
module Basics {

  type Byte = bv8

  /** A value that may be missing. */
  datatype Option<T> = None | Some(value: T)
}
