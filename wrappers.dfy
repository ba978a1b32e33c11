/** The usual optional value, used for "maybe an index" and "maybe an explicit ordering". */
module Wrappers {
  datatype Option<+T> = None | Some(value: T)
}
