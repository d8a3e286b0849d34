/** Bytes, as numbers where sizes are computed from them and as bit vectors where they are XORed. */
module Bytes {
  type byte = b: int | 0 <= b < 256
  type octet = bv8
  type uint32 = n: int | 0 <= n < 0x1_0000_0000

  function Xor(a: octet, b: octet): octet {
    a ^ b
  }

  lemma XorAssociates(a: octet, b: octet, c: octet)
    ensures Xor(Xor(a, b), c) == Xor(a, Xor(b, c))
  {
  }
}
