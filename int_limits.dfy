/** The ranges of the Alpha integer types
    (src/java/me/pavlina/alco/language/IntLimits.java). */
module IntLimits {

  const I8Min: int := -0x80
  const I8Max: int := 0x7f
  const I16Min: int := -0x8000
  const I16Max: int := 0x7fff
  const I32Min: int := -0x8000_0000
  const I32Max: int := 0x7fff_ffff
  const I64Min: int := -0x8000_0000_0000_0000
  const I64Max: int := 0x7fff_ffff_ffff_ffff
  const U8Max: int := 0xff
  const U16Max: int := 0xffff
  const U32Max: int := 0xffff_ffff
  const U64Max: int := 0xffff_ffff_ffff_ffff
}
