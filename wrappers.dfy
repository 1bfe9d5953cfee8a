/** The optional value used wherever the Go code has nil or a fatal error. */
module Wrappers {

  datatype Option<+T> = None | Some(value: T)
}
