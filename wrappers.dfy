/** The Some/None datatype used for nullable values (Python's None). */
module Wrappers {
  datatype Option<+T> = None | Some(value: T)
}
