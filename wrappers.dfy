/** The optional value used wherever JavaScript yields null, undefined or NaN. */
module Wrappers {
  datatype Option<T> = None | Some(value: T)
}
