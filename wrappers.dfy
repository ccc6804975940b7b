/** Option: a value, or the absence of one (used for the operations of the sorter that throw). */
module Wrappers {
  datatype Option<+T> = None | Some(value: T)
}
