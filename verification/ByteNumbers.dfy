/** Numbers that fit a byte. */
module ByteNumbers {
  lemma ByteIs(v: nat)
    requires v < 256
    ensures (v as bv8) as nat == v
  {
  }
}
