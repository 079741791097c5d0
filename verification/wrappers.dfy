/** The optional value used throughout the model for JavaScript's `undefined`. */
module Wrappers {

  /** A value that may be absent: a slot that was not filled, a count field
      missing from a payload, a session flag that was never set. */
  datatype Option<+T> = None | Some(value: T)
}
