/** Small helper datatypes shared by the other modules. */
module Wrappers {

  /** A value that may be absent (JavaScript's `null` / `undefined`). */
  datatype Option<+T> = None | Some(value: T)
}
