/** Machine integers as ranges of `int`. */
module Bytes {
  type byte = b: int | 0 <= b < 0x100
  type uint8 = u: int | 0 <= u < 0x100
  type uint16 = u: int | 0 <= u < 0x1_0000
  type uint32 = u: int | 0 <= u < 0x1_0000_0000
  type uint64 = u: int | 0 <= u < 0x1_0000_0000_0000_0000
  type int8 = i: int | -0x80 <= i < 0x80
  type int16 = i: int | -0x8000 <= i < 0x8000
  type int32 = i: int | -0x8000_0000 <= i < 0x8000_0000
  type int64 = i: int | -0x8000_0000_0000_0000 <= i < 0x8000_0000_0000_0000
}
