/** Small shared vocabulary: an optional value and the unsigned integer
    widths the original program works with. */
module Wrappers {

  /** The usual Some/None datatype. */
  datatype Option<+T> = None | Some(value: T)

  /** Unsigned integer widths, as subset types of `int`: arithmetic on them is
      unbounded, so every wrap-around or truncation is written out where it
      matters. */
  type u8 = x: int | 0 <= x < 0x100
  type u16 = x: int | 0 <= x < 0x1_0000
  type u32 = x: int | 0 <= x < 0x1_0000_0000
}
