/** A value that may be absent: nil pointers and missing keys. */
module Wrappers {

  datatype Option<+T> = None | Some(value: T)
}
