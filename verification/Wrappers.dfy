/** Shared value types: optional values and bytes. */
module Wrappers {

  datatype Option<+T> = None | Some(value: T)

  type byte = b: int | 0 <= b < 0x100
}
