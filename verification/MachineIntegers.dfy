/** The bounds of the source's fixed-width integers, written out where they matter. */
module MachineIntegers {
  const I64_MIN := -0x8000_0000_0000_0000
  const I64_MAX := 0x7FFF_FFFF_FFFF_FFFF
  const U64_MAX := 0xFFFF_FFFF_FFFF_FFFF
}
