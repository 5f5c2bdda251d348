/** The optional value used for the form's possibly-undefined state. */
module Wrappers {

  /** `undefined` / `null` is None; a present value is Some. */
  datatype Option<+T> = None | Some(value: T)
}
