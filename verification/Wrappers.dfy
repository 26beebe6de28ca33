/** What several components share: an optional value and a byte. */
module Wrappers {

  /** The conventional Some/None datatype, for reads that may fail. */
  datatype Option<+T> = None | Some(value: T)

  type Byte = b: int | 0 <= b < 256
}
