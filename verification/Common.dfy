/** Vocabulary shared by every module: bytes, optional values and 64-bit bounds. */
module Common {

  /** A byte string, the source's `Vec<u8>`. */
  type Bytes = seq<bv8>

  /** Block hashes, public keys and addresses are byte strings compared for equality. */
  type Hash = Bytes

  datatype Option<+T> = None | Some(value: T)

  /** The largest value of an unsigned 64-bit integer. */
  const U64_MAX: nat := 0xFFFF_FFFF_FFFF_FFFF

  function Min(a: int, b: int): int { if a <= b then a else b }

  function Max(a: int, b: int): int { if a <= b then b else a }

  /** `u64::saturating_mul`. */
  function SaturatingMul(a: nat, b: nat): nat { Min(a * b, U64_MAX) }

  /** `u64::saturating_add`. */
  function SaturatingAdd(a: nat, b: nat): nat { Min(a + b, U64_MAX) }
}
