/** Python's `None`-or-value, as used for the remembered device id and the current row. */
module Wrappers {
  datatype Option<+T> = None | Some(value: T)
}
