/** An optional value: a snapshot that may be missing, a validation that may fail. */
module Wrappers {

  datatype Option<+T> = None | Some(value: T)
}
