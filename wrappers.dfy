/** The optional value used for JavaScript's `undefined` and for a parse
    that fails. */
module Wrappers {
  datatype Option<+T> = None | Some(value: T)
}
