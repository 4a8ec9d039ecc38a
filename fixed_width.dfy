/** Fixed-width unsigned integer types of the firmware, and an Option type. */
module FixedWidth {
  type uint8 = x: int | 0 <= x < 0x100
  type uint16 = x: int | 0 <= x < 0x1_0000
  type uint64 = x: int | 0 <= x < 0x1_0000_0000_0000_0000

  const UINT64_MODULUS: int := 0x1_0000_0000_0000_0000

  datatype Option<T> = None | Some(value: T)
}
