/** The optional value used wherever the source returns `null` or an invalid date. */
module Wrappers {
  datatype Option<+T> = None | Some(value: T)
}
