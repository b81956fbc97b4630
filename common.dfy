// Shared value types and fixed-width integer bounds used by every layer of the stack.
module Common {

  datatype Option<T> = None | Some(value: T)

  /** 2^32: the modulus of TCP sequence numbers and of 32-bit unsigned arithmetic. */
  const U32: nat := 0x1_0000_0000

  /** 2^64: the modulus of the source's uint64_t / size_t arithmetic. */
  const U64: nat := 0x1_0000_0000_0000_0000

  function Min(a: int, b: int): int
  {
    if a <= b then a else b
  }
}
