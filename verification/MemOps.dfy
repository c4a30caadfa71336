/** The leader's log of changes to its heap mappings, which the workers repeat. */
module MemOps {
  import opened Pages

  datatype MemOp = Mmap(area: RealArea, prot: int) | Munmap(area: RealArea)

  /** The kernel changes whole pages. */
  function OpPages(op: MemOp): PteRange { MemArea2PgRange(op.area) }
}
