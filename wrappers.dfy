/** A value that may be missing. */
module Wrappers {

  /** A cell or an input that may be missing (pandas' NaN, a file that does not exist). */
  datatype Option<+T> = None | Some(value: T)
}
