/** The fixed-width C integer types the setup code passes around. */
module CTypes {

  /** One past the largest `uint32_t`. */
  const Uint32Limit: int := 0x1_0000_0000

  /** A `uint32_t` value. */
  type Uint32 = x: int | 0 <= x < Uint32Limit
}
