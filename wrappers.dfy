/** Option, the stand-in for Python's `None` (and for pandas' NaN in table cells). */
module Wrappers {

  datatype Option<+T> = None | Some(value: T)
}
