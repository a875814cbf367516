/** The optional values that registers, polls and partial encoders answer with. */
module Wrappers {
  datatype Option<+T> = None | Some(value: T)
}
