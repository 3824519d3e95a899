/** The fixed-point scale and the integer ceilings the admission documents share. */
module Limits {

  const MICRO := 1_000_000
  const MAX_UINT32 := 0xFFFF_FFFF
  const MAX_UINT64 := 0xFFFF_FFFF_FFFF_FFFF
}
