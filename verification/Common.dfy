/** Value types and machine integers shared by the models. */
module Common {

  datatype Option<+T> = None | Some(value: T)

  /** The source's exceptions: a constructor or accessor either yields a value or throws. */
  datatype Result<+T> = Ok(value: T) | Thrown(reason: string)

  const TWO_64 := 0x1_0000_0000_0000_0000
  const TWO_63 := 0x8000_0000_0000_0000

  newtype uint32 = x: int | 0 <= x < 0x1_0000_0000
  newtype uint64 = x: int | 0 <= x < 0x1_0000_0000_0000_0000
  newtype int64 = x: int | -0x8000_0000_0000_0000 <= x < 0x8000_0000_0000_0000

  /** `static_cast<std::uint64_t>` of a signed 64-bit value: reduction modulo 2^64. */
  function AsUnsigned(x: int64): (r: uint64)
    ensures (r as int - x as int) % TWO_64 == 0
  {
    if x >= 0 then x as uint64 else (x as int + TWO_64) as uint64
  }

  /** Unsigned subtraction, which wraps modulo 2^64 instead of failing. */
  function WrappingSub(a: uint64, b: uint64): (r: uint64)
    ensures (r as int - (a as int - b as int)) % TWO_64 == 0
  {
    if a >= b then a - b else (a as int - b as int + TWO_64) as uint64
  }

  function Max(a: int, b: int): int { if a < b then b else a }

  function Min(a: int, b: int): int { if a < b then a else b }
}
