/** Page table entries: the bits that say whether a page has been written and whether it holds anything. */
module PageTable {
  const DIRTY_BIT: bv64 := 1 << 55
  const PRESENT_BIT: bv64 := 1 << 63
  const SWAP_BIT: bv64 := 1 << 62

  predicate IsDirty(entry: bv64) { entry & DIRTY_BIT != 0 }

  predicate IsPresent(entry: bv64) { entry & PRESENT_BIT != 0 }

  predicate IsSwapped(entry: bv64) { entry & SWAP_BIT != 0 }

  predicate IsTouched(entry: bv64) { IsPresent(entry) || IsSwapped(entry) }

  /** An entry counts as dirty by its bit 55 alone. */
  lemma DirtyExact(entry: bv64)
    ensures IsDirty(entry) <==> ((entry << 8) >> 63) != 0
  {
  }

  lemma PresentExact(entry: bv64)
    ensures IsPresent(entry) <==> (entry >> 63) != 0
  {
  }

  lemma SwappedExact(entry: bv64)
    ensures IsSwapped(entry) <==> ((entry << 1) >> 63) != 0
  {
  }

  /** And as touched by its two top bits. */
  lemma TouchedExact(entry: bv64)
    ensures IsTouched(entry) <==> (entry >> 63) != 0 || ((entry << 1) >> 63) != 0
  {
    PresentExact(entry);
    SwappedExact(entry);
  }
}
