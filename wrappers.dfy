/** Small helper types shared by the other modules. */
module Wrappers {

  /** A value that may be absent: the model's stand-in for a nullable pointer. */
  datatype Option<+T> = None | Some(value: T)

  /** Unsigned integer ranges of the C++ types the source uses. */
  const UINT32_LIMIT: nat := 0x1_0000_0000
  const UINT64_LIMIT: nat := 0x1_0000_0000_0000_0000

  function Min(a: nat, b: nat): nat
  {
    if a <= b then a else b
  }
}
