/** Small facts about the bits of one octet. */
module OctetBits {
  lemma ByteRoundTrip(n: nat)
    requires n < 256
    ensures (n as bv8) as nat == n
  {
  }

  lemma LowBits(b: bv8)
    requires b < 0x80
    ensures (0x80 | b) & 0x7f == b
  {
  }

  lemma PlainBits(b: bv8)
    requires b < 0x80
    ensures (0 | b) & 0x7f == b && (0 | b) & 0x80 == 0
  {
  }

  lemma MaskBitSet(b: bv8)
    ensures (0x80 | b) & 0x80 != 0
  {
  }
}
