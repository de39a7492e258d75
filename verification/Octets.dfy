/** Bytes as a Uint8Array holds them, and as the checksum takes them. */
module Octets {
  type Octet = b: int | 0 <= b < 0x100

  type Bytes = seq<Octet>

  function AsBits(bytes: Bytes): (bits: seq<bv8>)
    ensures |bits| == |bytes|
  {
    seq(|bytes|, i requires 0 <= i < |bytes| => bytes[i] as bv8)
  }

  /** A 32-bit word as an unsigned number. */
  function Number(w: bv32): (n: nat)
    ensures n < 0x1_0000_0000
  {
    w as nat
  }

  /** A word is what its number says. */
  lemma NumberBack(w: bv32)
    ensures Number(w) as bv32 == w
  {
  }
}
