/** Python's `None`-or-value results, as used for an average that may be undefined. */
module Wrappers {

  datatype Option<T> = None | Some(value: T)
}
