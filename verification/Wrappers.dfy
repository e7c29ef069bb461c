/** The types the models share. */
module Wrappers {
  datatype Option<+T> = None | Some(value: T)

  type Byte = n: nat | n < 256
}
