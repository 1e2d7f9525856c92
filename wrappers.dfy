/** Python's `None`-or-value results, as used by `sanitize_input`. */
module Wrappers {

  datatype Option<+T> = None | Some(value: T)
}
