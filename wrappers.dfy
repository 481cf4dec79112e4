/** The result of a lookup: Java's `null` for a miss becomes `None`. */
module Wrappers {
  datatype Option<+T> = None | Some(value: T)
}
