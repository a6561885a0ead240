/** Python's `None`-or-value, as used for an optional confidence score or a
    regex search that may find nothing. */
module Wrappers {

  datatype Option<T> = None | Some(value: T)
}
