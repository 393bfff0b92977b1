/** Python's `None` next to a value, as an explicit datatype. */
module Wrappers {
  datatype Option<+T> = None | Some(value: T)
}
