/**
 * Fixed-width unsigned integers of the firmware (uint8_t, uint16_t, uint32_t)
 * and the wrap-around arithmetic C performs on them.
 */
module Uint {

  const U8Limit: int := 0x100
  const U16Limit: int := 0x1_0000
  const U32Limit: int := 0x1_0000_0000

  newtype u8 = x: int | 0 <= x < 0x100
  newtype u16 = x: int | 0 <= x < 0x1_0000
  newtype u32 = x: int | 0 <= x < 0x1_0000_0000

  /** `a += b` on two uint16_t values: the sum taken modulo 2^16. */
  function Add16(a: u16, b: u16): (r: u16)
    ensures r as int == (a as int + b as int) % U16Limit
    ensures a as int + b as int < U16Limit ==> r as int == a as int + b as int
    ensures a as int + b as int >= U16Limit ==> r as int == a as int + b as int - U16Limit
  {
    if a as int + b as int < U16Limit then a + b else (a as int + b as int - U16Limit) as u16
  }

  /** `x++` on a uint16_t. */
  function Inc16(a: u16): (r: u16)
    ensures a as int < U16Limit - 1 ==> r as int == a as int + 1
    ensures a as int == U16Limit - 1 ==> r == 0
  {
    Add16(a, 1)
  }

  /** `++x` on a uint8_t. */
  function Inc8(a: u8): (r: u8)
    ensures r as int == (a as int + 1) % U8Limit
    ensures a as int < U8Limit - 1 ==> r as int == a as int + 1
    ensures a as int == U8Limit - 1 ==> r == 0
  {
    if a as int < U8Limit - 1 then a + 1 else 0
  }

  /** `a - b` on two uint32_t values: the difference taken modulo 2^32. */
  function Sub32(a: u32, b: u32): (r: u32)
    ensures r as int == (a as int - b as int) % U32Limit
    ensures b <= a ==> r == a - b
    ensures a < b ==> r as int == a as int - b as int + U32Limit
  {
    if b <= a then a - b else (a as int - b as int + U32Limit) as u32
  }
}
