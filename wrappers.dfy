/** The optional value used wherever the scripts test for null, undefined or a missing match. */
module Wrappers {

  datatype Option<+T> = None | Some(value: T)
}
