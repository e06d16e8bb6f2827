/** The optional value used where the source returns `None` or reads a dict with `.get`. */
module Wrappers {
  datatype Option<+T> = None | Some(value: T)
}
