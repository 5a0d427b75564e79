/** The optional-value type shared by the other modules. */
module Wrappers {

  /** A value that may be absent: JavaScript's `undefined` result of a lookup
      or an unset record field. */
  datatype Option<+T> = None | Some(value: T)
}
