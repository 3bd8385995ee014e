/** The optional value used for absent request fields and lookup misses. */
module Wrappers {

  datatype Option<+T> = None | Some(value: T)
}
