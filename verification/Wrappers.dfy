/** The stock option type: a value or its absence (a NULL pointer in the source). */
module Wrappers {
  datatype Option<+T> = None | Some(value: T)
}
