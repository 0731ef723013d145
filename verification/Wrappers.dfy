/**
 Values that may be absent, and Go's integer limits.
 */
module Wrappers {
  datatype Option<T> = None | Some(value: T)

  const MAX_UINT64: nat := 0xFFFF_FFFF_FFFF_FFFF
  const MAX_INT: nat := 0x7FFF_FFFF_FFFF_FFFF
}
