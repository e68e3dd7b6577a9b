/** An optional value: a missing row, an absent record, a null reference. */
module Wrappers {
  datatype Option<+T> = None | Some(value: T)
}
