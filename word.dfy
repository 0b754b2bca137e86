/** AVR integer widths. `uint8_t` and `uint16_t` values are integers in
    range; `unsigned int` arithmetic is 16 bits wide on the target and
    wraps, and a store into a `uint8_t` keeps the low byte. */
module Word {

  const WORD: int := 0x1_0000
  const BYTE: int := 0x100

  type u8 = x: int | 0 <= x < BYTE
  type u16 = x: int | 0 <= x < WORD

  /** 16-bit wrapping subtraction: the true difference, or the difference
      plus 2^16 when it would be negative. */
  function Sub16(a: u16, b: u16): (r: u16)
    ensures r == if a >= b then a - b else a - b + WORD
  {
    (a - b) % WORD
  }

  /** 16-bit wrapping addition. */
  function Add16(a: u16, b: u16): (r: u16)
    ensures r == if a + b < WORD then a + b else a + b - WORD
  {
    (a + b) % WORD
  }

  /** The low byte of a 16-bit value. */
  function Low8(x: u16): (r: u8)
    ensures r == x % BYTE
  {
    x % BYTE
  }

  /** Subtracting then adding back the same amount is the identity. */
  lemma AddSub16(a: u16, b: u16)
    ensures Sub16(Add16(a, b), a) == b
  {
  }
}
