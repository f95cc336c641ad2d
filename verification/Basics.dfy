// What several of the modelled files share: bytes, the widths of size_t and uint32_t, and a value
// that may be missing.
module Basics {
  type byte = bv8

  const SIZE_MOD := 0x1_0000_0000_0000_0000
  const U32_MOD := 0x1_0000_0000

  datatype Option<T> = None | Some(value: T)

  function Min(x: nat, y: nat): nat {
    if x < y then x else y
  }
}
