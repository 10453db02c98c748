/** Bytes as numbers. */
module Words {
  lemma ByteHolds(b: int)
    requires 0 <= b < 256
    ensures (b as bv8) as int == b
  {
  }
}
