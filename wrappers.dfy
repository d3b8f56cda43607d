/** The absence value the URL parsers return in place of Python's `None`. */
module Wrappers {
  datatype Option<T> = None | Some(value: T)
}
