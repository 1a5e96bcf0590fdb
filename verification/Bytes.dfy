/** Bytes and the optional value shared by every other module. */
module Bytes {

  /** A C `uint8_t`: shifts and masks drop the bits that leave the byte. */
  type byte = bv8

  /** A byte where the program only counts with it. */
  type Octet = x: int | 0 <= x < 256

  datatype Option<+T> = None | Some(value: T)

  /** A C `uint16_t` used as 16 flags, least significant first. */
  type Bits = v: seq<bool> | |v| == 16
    witness [false, false, false, false, false, false, false, false, false, false, false, false, false, false, false, false]

  const NO_BITS: Bits :=
    [false, false, false, false, false, false, false, false, false, false, false, false, false, false, false, false]
}
