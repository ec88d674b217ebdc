/** A value or none, for the null results and absent fields of the source. */
module Wrappers {
  datatype Option<+T> = None | Some(value: T)
}
