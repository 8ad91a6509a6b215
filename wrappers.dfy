/** The optional value used where the script's computation throws or yields NaN. */
module Wrappers {
  datatype Option<+T> = None | Some(value: T)
}
