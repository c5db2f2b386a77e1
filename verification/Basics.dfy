/** Shared vocabulary: optional values, exceptions as outcomes, and machine-word ranges. */
module Basics {

  datatype Option<+T> = None | Some(value: T)

  /** The result of an operation that may throw. */
  datatype Outcome<+T> = Value(value: T) | Thrown

  type U8 = n: nat | n < 0x100
  type U32 = n: nat | n < 0x1_0000_0000
  type U64 = n: nat | n < 0x1_0000_0000_0000_0000
  type U128 = n: nat | n < 0x1_0000_0000_0000_0000_0000_0000_0000_0000

  const U32_MAX: nat := 0xFFFF_FFFF
  const U64_MAX: nat := 0xFFFF_FFFF_FFFF_FFFF
  const TWO_128: nat := 0x1_0000_0000_0000_0000_0000_0000_0000_0000
  const TWO_256: nat :=
    0x1_0000_0000_0000_0000_0000_0000_0000_0000_0000_0000_0000_0000_0000_0000_0000_0000

  /** A 32-byte string, identified with its big-endian value (see module Bytes); the encoders state
      the bound 2^256 where it matters. */
  type Hash256 = nat

  function Min(a: int, b: int): int { if a <= b then a else b }
  function Max(a: int, b: int): int { if a >= b then a else b }
}
