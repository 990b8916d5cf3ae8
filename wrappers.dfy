/** The optional value shared by the other modules. */
module Wrappers {

  /** A value that may be absent, as `Array.prototype.find` returns `undefined`. */
  datatype Option<+T> = None | Some(value: T)
}
