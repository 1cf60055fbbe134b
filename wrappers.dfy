/** A value that may be absent: a JSON field that can be `null`, or a number
    that can be `NaN`. */
module Wrappers {
  datatype Option<T> = None | Some(value: T)
}
