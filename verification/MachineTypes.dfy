/** Integers of the machine's widths, and conversion to them. */
module MachineTypes {

  const TWO_31 := 0x8000_0000
  const TWO_32 := 0x1_0000_0000

  type Byte = b: int | 0 <= b < 256
  type Int16 = x: int | -0x8000 <= x < 0x8000
  type Int32 = x: int | -0x8000_0000 <= x < 0x8000_0000
  type Uint32 = x: int | 0 <= x < 0x1_0000_0000

  function ToInt32(x: int): Int32 {
    (x + TWO_31) % TWO_32 - TWO_31
  }

  function ToUint32(x: int): Uint32 {
    x % TWO_32
  }
}
