/** Types shared by every component: optional values, results, bytes and 32-bit words. */
module Prelude {

  datatype Option<+T> = None | Some(value: T)

  datatype Result<+T, +E> = Ok(value: T) | Err(error: E)

  newtype byte = x: int | 0 <= x < 256

  type Bytes = seq<byte>

  const U32_LIMIT: nat := 0x1_0000_0000

  /** An unsigned 32-bit counter; every operation that can wrap writes the wrap out. */
  type u32 = x: nat | x < 0x1_0000_0000

  type u16 = x: nat | x < 0x1_0000

  type u64 = x: nat | x < 0x1_0000_0000_0000_0000

  function Pow2(k: nat): (p: nat)
    ensures p >= 1
  {
    if k == 0 then 1 else 2 * Pow2(k - 1)
  }

  /** A snowflake in its text form; ids are only ever compared. */
  datatype Id = Id(text: string)

  /** In nanoseconds. */
  const MILLISECOND: int := 1_000_000

  function Max0(x: int): nat
  {
    if x < 0 then 0 else x
  }
}
