/** The optional value used for nullable columns and for oracle answers. */
module Wrappers {
  datatype Option<+T> = None | Some(value: T)
}
