/** Option, shared by every module of the model. */
module Wrappers {

  /** A value that may be absent: JavaScript's `undefined`/`null` or a "not found". */
  datatype Option<+T> = None | Some(value: T)
}
