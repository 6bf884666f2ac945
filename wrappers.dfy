/** Small failure-compatible wrappers shared by every module of the model. */
module Wrappers {

  /** `None` stands for JavaScript's `undefined` or a failed match. */
  datatype Option<+T> = None | Some(value: T)

  /** A position in a string together with what was found there. */
  datatype Hit<+T> = Hit(pos: nat, value: T)
}
