/** Fixed-width C integer types used by the firmware, as subsets of int. */
module MachineInts {

  type UInt8 = x: int | 0 <= x < 0x100
  type Int8 = x: int | -0x80 <= x < 0x80
  type UInt32 = x: int | 0 <= x < 0x1_0000_0000

  /** A 6-byte hardware (MAC) address. */
  type Mac = s: seq<UInt8> | |s| == 6 witness [0, 0, 0, 0, 0, 0]

  const ZeroMac: Mac := [0, 0, 0, 0, 0, 0]

  /** C's conversion of an integer to uint8_t: the one byte congruent to it modulo 2^8.
      Dafny's % is Euclidean, so this is right for negative values too. */
  function ToUInt8(x: int): (b: UInt8)
    ensures (x - b) % 0x100 == 0
    ensures 0 <= x < 0x100 ==> b == x
  {
    x % 0x100
  }

  /** Reading a stored byte back as int8_t (two's complement). */
  function AsInt8(b: UInt8): (s: Int8)
    ensures (s - b) % 0x100 == 0
    ensures s < 0 <==> b >= 0x80
  {
    if b < 0x80 then b else b - 0x100
  }

  /** An int8_t stored into a uint8_t slot and read back as int8_t is unchanged. */
  lemma Int8RoundTrip(s: Int8)
    ensures AsInt8(ToUInt8(s)) == s
  {
  }

  /** A byte read as int8_t and stored back is the same byte. */
  lemma UInt8RoundTrip(b: UInt8)
    ensures ToUInt8(AsInt8(b)) == b
  {
  }
}
