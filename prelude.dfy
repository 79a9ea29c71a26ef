/** Types shared by the firmware model: Rust's `Option` and the fixed-width
    unsigned integers the firmware's counters are declared with. */
module Prelude {

  /** Rust's `Option<T>`. */
  datatype Option<T> = None | Some(value: T)

  /** Rust's `u8`. */
  type U8 = x: int | 0 <= x < 0x100

  /** Rust's `u32`. */
  type U32 = x: int | 0 <= x < 0x1_0000_0000

  const U32Max: U32 := 0xFFFF_FFFF
}
