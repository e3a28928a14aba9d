/** A value that may be absent, for all modules. */
module Wrappers {

  datatype Option<T> = None | Some(value: T)
}
