/** Fixed-width integer types from `<stdint.h>` used by the byte array. */
module StdInt {

  /** `uint8_t`: an unsigned 8-bit byte. */
  newtype uint8 = x: int | 0 <= x < 256
}
