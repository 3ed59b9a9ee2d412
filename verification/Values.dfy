/** Values every component shares: options, and integers of the wire's widths. */
module Values {

  datatype Option<+T> = None | Some(value: T)

  type u8 = n: int | 0 <= n < 0x100

  type u16 = n: int | 0 <= n < 0x1_0000

  /** A wasm32 value. */
  type u32 = n: int | 0 <= n <= 0xFFFF_FFFF

  const U32_MAX: nat := 0xFFFF_FFFF
}
