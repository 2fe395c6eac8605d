/** Fixed-width integer types of Common/Types.h and the usual Option wrapper. */
module Types {
  newtype u8 = x: int | 0 <= x < 0x100
  newtype u32 = x: int | 0 <= x < 0x1_0000_0000

  datatype Option<+T> = None | Some(value: T)
}
