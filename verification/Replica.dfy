/** The worker's memory as an incremental replica of the leader's: what a worker sees after entering
    a parallel region, over any sequence of mappings, allocations, writes and regions. All workers
    receive the same broadcasts, so one worker stands for each of them. */
module Replica {
  import opened Basics
  import opened Pages
  import opened PageTable
  import opened PageScan
  import opened MemOps

  /** A reduce area, and the byte that its memory is set to on a worker. */
  datatype ReduceArea = ReduceArea(area: RealArea, identity: bv8)

  /** `written` are the bytes of live blocks that the leader has written since their allocation, and
      `strayed` the bytes outside the reduce areas that the worker has changed since it last
      entered a region. `dirty`, `present` and `swapped` are what the leader's page table says. */
  datatype World = World(leader: Memory, worker: Memory, stack: Area, blocks: seq<RealArea>,
                         mapped: set<nat>, dirty: set<nat>, present: set<nat>, swapped: set<nat>, written: set<nat>,
                         log: seq<MemOp>, reduces: seq<ReduceArea>, inRegion: bool, strayed: set<nat>)

  datatype Event =
    | Map(area: RealArea, prot: int) | Unmap(area: RealArea)
    | Alloc(block: RealArea) | Free(k: nat)
    | SwapOut(page: nat) | SwapIn(page: nat)
    | Write(x: nat, v: bv8)
    | Enter(reduces: seq<ReduceArea>)
    | WorkerWrite(x: nat, v: bv8)
    | Exit(result: Memory)

  predicate Live(blocks: seq<RealArea>, x: nat) {
    exists k :: 0 <= k < |blocks| && InArea(blocks[k], x)
  }

  predicate InReduce(reduces: seq<ReduceArea>, x: nat) {
    exists k :: 0 <= k < |reduces| && InArea(reduces[k].area, x)
  }

  predicate LogPage(log: seq<MemOp>, p: nat) {
    exists k :: 0 <= k < |log| && InRange(OpPages(log[k]), p)
  }

  function Clear(mem: Memory, r: PteRange): Memory {
    (x: nat) => if InRange(r, PageOf(x)) then 0 else mem(x)
  }

  /** A worker maps what was mapped, afresh, and reserves what was unmapped. */
  function ReplayBytes(mem: Memory, log: seq<MemOp>): Memory {
    if log == [] then mem else Clear(ReplayBytes(mem, log[..|log| - 1]), OpPages(log[|log| - 1]))
  }

  function Visits(blocks: seq<RealArea>): (v: seq<Option<RealArea>>)
    ensures |v| == |blocks|
  {
    seq(|blocks|, k requires 0 <= k < |blocks| => Some(blocks[k]))
  }

  function Areas(reduces: seq<ReduceArea>): (a: seq<RealArea>)
    ensures |a| == |reduces|
  {
    seq(|reduces|, k requires 0 <= k < |reduces| => reduces[k].area)
  }

  /** A page table entry with the three bits that matter: bits 55, 63 and 62. */
  function Entry(dirty: bool, present: bool, swapped: bool): bv64 {
    (if dirty then 0x0080_0000_0000_0000 else 0) | (if present then 0x8000_0000_0000_0000 else 0)
    | (if swapped then 0x4000_0000_0000_0000 else 0)
  }

  lemma EntryBits(dirty: bool, present: bool, swapped: bool)
    ensures IsDirty(Entry(dirty, present, swapped)) == dirty
    ensures IsTouched(Entry(dirty, present, swapped)) == (present || swapped)
  {
  }

  function Ptes(w: World): nat -> bv64 {
    (p: nat) => Entry(p in w.dirty, p in w.present, p in w.swapped)
  }

  predicate SentPage(w: World, reduces: seq<ReduceArea>, p: nat) {
    Sent(Visits(w.blocks), Ptes(w), Areas(reduces), p)
  }

  /** The worker after the broadcasts: the log replayed, the stack and the sent pages installed. */
  function Received(w: World, reduces: seq<ReduceArea>): Memory {
    var replayed := ReplayBytes(w.worker, w.log);
    (x: nat) => if InArea(w.stack, x) || SentPage(w, reduces, PageOf(x)) then w.leader(x) else replayed(x)
  }

  /** Reduce areas are set to their identities, one after the other. */
  function SetIdentities(mem: Memory, reduces: seq<ReduceArea>): Memory {
    if reduces == [] then mem
    else
      var rest := SetIdentities(mem, reduces[..|reduces| - 1]);
      var last := reduces[|reduces| - 1];
      (x: nat) => if InArea(last.area, x) then last.identity else rest(x)
  }

  function Bytes(a: Area): set<nat> {
    set x: nat | a.begin <= x < a.begin + a.size && InArea(a, x)
  }

  function RangePages(r: PteRange): set<nat> {
    set p: nat | r.begin <= p < r.begin + r.count && InRange(r, p)
  }

  function ReduceBytes(reduces: seq<ReduceArea>): (s: set<nat>)
    ensures forall x :: x in s <==> InReduce(reduces, x)
  {
    if reduces == [] then {}
    else
      var n := |reduces| - 1;
      assert forall k :: 0 <= k < n ==> reduces[..n][k] == reduces[k];
      ReduceBytes(reduces[..n]) + Bytes(reduces[n].area)
  }

  /** The pages that a write to all reduce areas makes dirty. */
  function ReducePages(reduces: seq<ReduceArea>): set<nat> {
    set x | x in ReduceBytes(reduces) :: PageOf(x)
  }

  /** What `verify_reduces_no_overlap` checks. */
  predicate NoOverlap(reduces: seq<ReduceArea>) {
    forall j, k :: 0 <= j < k < |reduces| ==> !Overlap(reduces[j].area, reduces[k].area)
  }

  predicate Enabled(w: World, e: Event) {
    match e
    case Map(a, _) => RangePages(MemArea2PgRange(a)) !! w.mapped
    case Unmap(a) =>
      var pages := RangePages(MemArea2PgRange(a));
      pages <= w.mapped && forall p :: p in pages ==> !LivePage(Visits(w.blocks), p)
    case Alloc(b) =>
      && RangePages(MemArea2PgRange(b)) <= w.mapped
      && (forall k :: 0 <= k < |w.blocks| ==> !Overlap(w.blocks[k], b))
    case Free(k) => k < |w.blocks|
    case SwapOut(p) => p in w.present
    case SwapIn(p) => p in w.swapped
    case Write(x, _) => Live(w.blocks, x) || InArea(w.stack, x)
    case Enter(reduces) =>
      && !w.inRegion && NoOverlap(reduces)
      && (forall x :: x in w.strayed && x in w.written ==> PageOf(x) in w.dirty)
    case WorkerWrite(_, _) => w.inRegion
    case Exit(_) => w.inRegion
  }

  function Apply(w: World, e: Event): World
    requires Enabled(w, e)
  {
    match e
    case Map(a, prot) =>
      var r := MemArea2PgRange(a);
      w.(leader := Clear(w.leader, r), mapped := w.mapped + RangePages(r), dirty := w.dirty + RangePages(r),
         present := w.present - RangePages(r), swapped := w.swapped - RangePages(r), log := w.log + [Mmap(a, prot)])
    case Unmap(a) =>
      var r := MemArea2PgRange(a);
      w.(leader := Clear(w.leader, r), mapped := w.mapped - RangePages(r), dirty := w.dirty - RangePages(r),
         present := w.present - RangePages(r), swapped := w.swapped - RangePages(r), log := w.log + [Munmap(a)])
    case Alloc(b) => w.(blocks := w.blocks + [b], written := w.written - Bytes(b))
    case Free(k) => w.(blocks := w.blocks[..k] + w.blocks[k + 1..], written := w.written - Bytes(w.blocks[k]))
    case SwapOut(p) => w.(present := w.present - {p}, swapped := w.swapped + {p})
    case SwapIn(p) => w.(present := w.present + {p}, swapped := w.swapped - {p})
    case Write(x, v) =>
      w.(leader := (y: nat) => if y == x then v else w.leader(y),
         dirty := w.dirty + {PageOf(x)}, present := w.present + {PageOf(x)}, swapped := w.swapped - {PageOf(x)},
         written := if Live(w.blocks, x) then w.written + {x} else w.written)
    case Enter(reduces) =>
      w.(worker := SetIdentities(Received(w, reduces), reduces), dirty := {}, log := [],
         reduces := reduces, inRegion := true, strayed := {})
    case WorkerWrite(x, v) =>
      w.(worker := (y: nat) => if y == x then v else w.worker(y),
         strayed := if InReduce(w.reduces, x) then w.strayed else w.strayed + {x})
    case Exit(result) =>
      w.(leader := (y: nat) => if InReduce(w.reduces, y) then result(y) else w.leader(y), inRegion := false,
         dirty := w.dirty + ReducePages(w.reduces), present := w.present + ReducePages(w.reduces),
         swapped := w.swapped - ReducePages(w.reduces),
         written := w.written + set x | x in ReduceBytes(w.reduces) && Live(w.blocks, x))
  }

  // ---------------------------------------------------------------- the invariant

  /** In a region the bytes of its reduce areas are the worker's own. */
  predicate Reducing(w: World, x: nat) { w.inRegion && InReduce(w.reduces, x) }

  /** The page holds something, in memory or swapped out. */
  predicate Touched(w: World, p: nat) { p in w.present || p in w.swapped }

  predicate Agree(w: World, x: nat) {
    w.worker(x) == w.leader(x)
  }

  /** Written bytes of live blocks are on touched pages; and on a clean page, outside the reduce areas
      of the current region, the copies agree unless the worker itself has changed its own. */
  ghost predicate Inv(w: World) {
    && (forall x :: x in w.written ==> Live(w.blocks, x) && Touched(w, PageOf(x)))
    && (forall p :: LivePage(Visits(w.blocks), p) ==> p in w.mapped)
    && (forall p :: p in w.mapped && LogPage(w.log, p) ==> p in w.dirty)
    && (forall x :: x in w.written && PageOf(x) !in w.dirty && x !in w.strayed && !Reducing(w, x) ==> Agree(w, x))
  }

  lemma {:induction false} ReplayElsewhere(mem: Memory, log: seq<MemOp>, x: nat)
    requires !LogPage(log, PageOf(x))
    ensures ReplayBytes(mem, log)(x) == mem(x)
  {
    if log != [] {
      var n := |log| - 1;
      assert forall k :: 0 <= k < n ==> log[..n][k] == log[k];
      ReplayElsewhere(mem, log[..n], x);
    }
  }

  lemma {:induction false} IdentitiesSet(mem: Memory, reduces: seq<ReduceArea>, x: nat)
    ensures !InReduce(reduces, x) ==> SetIdentities(mem, reduces)(x) == mem(x)
    ensures NoOverlap(reduces) ==> forall k :: 0 <= k < |reduces| && InArea(reduces[k].area, x) ==>
              SetIdentities(mem, reduces)(x) == reduces[k].identity
  {
    if reduces != [] {
      var n := |reduces| - 1;
      assert forall k :: 0 <= k < n ==> reduces[..n][k] == reduces[k];
      IdentitiesSet(mem, reduces[..n], x);
      if NoOverlap(reduces) && InArea(reduces[n].area, x) {
        forall k | 0 <= k < n ensures !InArea(reduces[k].area, x) { assert !Overlap(reduces[k].area, reduces[n].area); }
      }
    }
  }

  lemma LiveOnPage(blocks: seq<RealArea>, x: nat)
    requires Live(blocks, x)
    ensures LivePage(Visits(blocks), PageOf(x))
  {
    var k :| 0 <= k < |blocks| && InArea(blocks[k], x);
    OuterExact(blocks[k], PageOf(x));
    assert Visits(blocks)[k] == Some(blocks[k]);
  }

  /** A page that is skipped holds bytes of reduce areas only. */
  lemma SkippedIsReduced(reduces: seq<ReduceArea>, x: nat)
    requires Skipped(Areas(reduces), PageOf(x))
    ensures InReduce(reduces, x)
  {
    var k :| 0 <= k < |reduces| && InInner(Areas(reduces)[k], PageOf(x));
    InnerExact(reduces[k].area, PageOf(x));
  }

  /** A written byte that is outside the reduce areas either is sent or is on a clean page. */
  lemma {:induction false} SentOrClean(w: World, reduces: seq<ReduceArea>, x: nat)
    requires Inv(w) && x in w.written && !InReduce(reduces, x)
    ensures SentPage(w, reduces, PageOf(x)) || PageOf(x) !in w.dirty
  {
    LiveOnPage(w.blocks, x);
    EntryBits(PageOf(x) in w.dirty, PageOf(x) in w.present, PageOf(x) in w.swapped);
    if Skipped(Areas(reduces), PageOf(x)) { SkippedIsReduced(reduces, x); }
  }

  /** After entering a region, every byte that the leader has written in a live block, and every byte
      of the stack, is the same on the worker, and every byte of a reduce area is its identity. */
  lemma {:induction false} AfterEnter(w: World, reduces: seq<ReduceArea>, x: nat)
    requires Inv(w) && Enabled(w, Enter(reduces))
    ensures var w' := Apply(w, Enter(reduces));
            && ((x in w'.written || InArea(w.stack, x)) && !InReduce(reduces, x) ==> w'.worker(x) == w'.leader(x))
            && (forall k :: 0 <= k < |reduces| && InArea(reduces[k].area, x) ==> w'.worker(x) == reduces[k].identity)
  {
    var mem := Received(w, reduces);
    IdentitiesSet(mem, reduces, x);
    if x in w.written && !InReduce(reduces, x) && !SentPage(w, reduces, PageOf(x)) {
      SentOrClean(w, reduces, x);
      LiveOnPage(w.blocks, x);
      ReplayElsewhere(w.worker, w.log, x);
      assert Agree(w, x);
    }
  }

  /** A page that is swapped out is sent like one that is present: if it is dirty and in a live block,
      unless it lies wholly in a reduce area. */
  lemma {:induction false} SwappedIsSent(w: World, reduces: seq<ReduceArea>, p: nat)
    requires p in w.swapped
    ensures SentPage(w, reduces, p) <==>
            LivePage(Visits(w.blocks), p) && p in w.dirty && !Skipped(Areas(reduces), p)
  {
    EntryBits(p in w.dirty, p in w.present, p in w.swapped);
  }

  /** What entering a region does to a written byte outside the reduce areas and the stack: it is
      brought up to date if and only if its page is dirty on the leader or the copies agree already.
      So the worker's own stray changes are harmless exactly on pages that the leader dirties too. */
  lemma {:induction false} UpdatedExactlyWhen(w: World, reduces: seq<ReduceArea>, x: nat)
    requires Inv(w) && x in w.written && !InReduce(reduces, x) && !InArea(w.stack, x)
    ensures SetIdentities(Received(w, reduces), reduces)(x) == w.leader(x) <==> PageOf(x) in w.dirty || Agree(w, x)
  {
    IdentitiesSet(Received(w, reduces), reduces, x);
    SentOrClean(w, reduces, x);
    LiveOnPage(w.blocks, x);
    EntryBits(PageOf(x) in w.dirty, PageOf(x) in w.present, PageOf(x) in w.swapped);
    if Skipped(Areas(reduces), PageOf(x)) { SkippedIsReduced(reduces, x); }
    if PageOf(x) !in w.dirty { ReplayElsewhere(w.worker, w.log, x); }
  }

  /** Which bytes count as written: a write adds a live byte, the exit the live bytes of the reduce areas,
      and only the allocation or the freeing of its block takes a byte out. */
  lemma {:induction false} WrittenExactly(w: World, e: Event, x: nat)
    requires Enabled(w, e)
    ensures x in Apply(w, e).written <==>
            match e
            case Write(y, _) => x in w.written || (x == y && exists k :: 0 <= k < |w.blocks| && InArea(w.blocks[k], x))
            case Exit(_) => x in w.written || (InReduce(w.reduces, x) && Live(w.blocks, x))
            case Alloc(b) => x in w.written && !InArea(b, x)
            case Free(k) => x in w.written && !InArea(w.blocks[k], x)
            case _ => x in w.written
  {
  }

  /** What the kernel's page table says after an event: writing brings a page in and makes it dirty, swapping
      moves it, mapping makes it dirty and empty, and only entering a region clears the dirty bits. */
  lemma {:induction false} PageTableExactly(w: World, e: Event, p: nat)
    requires Enabled(w, e)
    ensures p in Apply(w, e).dirty <==>
            match e
            case Map(a, _) => p in w.dirty || InRange(MemArea2PgRange(a), p)
            case Unmap(a) => p in w.dirty && !InRange(MemArea2PgRange(a), p)
            case Write(x, _) => p in w.dirty || p == PageOf(x)
            case Exit(_) => p in w.dirty || p in ReducePages(w.reduces)
            case Enter(_) => false
            case _ => p in w.dirty
    ensures p in Apply(w, e).swapped <==>
            match e
            case Map(a, _) => p in w.swapped && !InRange(MemArea2PgRange(a), p)
            case Unmap(a) => p in w.swapped && !InRange(MemArea2PgRange(a), p)
            case Write(x, _) => p in w.swapped && p != PageOf(x)
            case Exit(_) => p in w.swapped && p !in ReducePages(w.reduces)
            case SwapOut(q) => p in w.swapped || p == q
            case SwapIn(q) => p in w.swapped && p != q
            case _ => p in w.swapped
  {
  }

  // ---------------------------------------------------------------- every event keeps it

  lemma LogSnoc(log: seq<MemOp>, op: MemOp, p: nat)
    ensures LogPage(log + [op], p) <==> LogPage(log, p) || InRange(OpPages(op), p)
  {
    var more := log + [op];
    assert more[|log|] == op && forall k :: 0 <= k < |log| ==> more[k] == log[k];
  }

  lemma {:induction false} MapOk(w: World, a: RealArea, prot: int)
    requires Inv(w) && Enabled(w, Map(a, prot))
    ensures Inv(Apply(w, Map(a, prot)))
  {
    var w', r := Apply(w, Map(a, prot)), MemArea2PgRange(a);
    forall p | p in w'.mapped && LogPage(w'.log, p) ensures p in w'.dirty {
      LogSnoc(w.log, Mmap(a, prot), p);
      assert InRange(r, p) ==> p in RangePages(r);
    }
    forall x | x in w.written
      ensures Touched(w', PageOf(x))
      ensures PageOf(x) !in w'.dirty && x !in w.strayed && !Reducing(w, x) ==> Agree(w', x)
    {
      LiveOnPage(w.blocks, x);
      assert PageOf(x) !in RangePages(r);
      assert Agree(w, x) ==> Agree(w', x);
    }
  }

  lemma {:induction false} UnmapOk(w: World, a: RealArea)
    requires Inv(w) && Enabled(w, Unmap(a))
    ensures Inv(Apply(w, Unmap(a)))
  {
    var w', r := Apply(w, Unmap(a)), MemArea2PgRange(a);
    forall p | p in w'.mapped && LogPage(w'.log, p) ensures p in w'.dirty {
      LogSnoc(w.log, Munmap(a), p);
      assert InRange(r, p) ==> p in RangePages(r);
    }
    forall x | x in w.written
      ensures Touched(w', PageOf(x))
      ensures PageOf(x) !in w'.dirty && x !in w.strayed && !Reducing(w, x) ==> Agree(w', x)
    {
      LiveOnPage(w.blocks, x);
      assert PageOf(x) !in RangePages(r);
      assert Agree(w, x) ==> Agree(w', x);
    }
  }

  lemma LiveSnoc(blocks: seq<RealArea>, b: RealArea, p: nat)
    requires LivePage(Visits(blocks + [b]), p)
    ensures LivePage(Visits(blocks), p) || p in RangePages(MemArea2PgRange(b))
  {
    var v, n := Visits(blocks + [b]), |blocks|;
    var k :| 0 <= k < |v| && v[k].Some? && InRange(MemArea2PgRange(v[k].value), p);
    if k < n {
      assert Visits(blocks)[k] == v[k];
    } else {
      assert v[k].value == b;
      var r := MemArea2PgRange(b);
      assert InRange(r, p) && p in RangePages(r);
    }
  }

  lemma {:induction false} AllocOk(w: World, b: RealArea)
    requires Inv(w) && Enabled(w, Alloc(b))
    ensures Inv(Apply(w, Alloc(b)))
  {
    var w' := Apply(w, Alloc(b));
    forall p | LivePage(Visits(w'.blocks), p) ensures p in w'.mapped { LiveSnoc(w.blocks, b, p); }
    forall x | x in w'.written ensures Live(w'.blocks, x) && (Agree(w, x) ==> Agree(w', x)) {
      var k :| 0 <= k < |w.blocks| && InArea(w.blocks[k], x);
      assert w'.blocks[k] == w.blocks[k];
    }
  }

  lemma FreePages(blocks: seq<RealArea>, k: nat, p: nat)
    requires k < |blocks| && LivePage(Visits(blocks[..k] + blocks[k + 1..]), p)
    ensures LivePage(Visits(blocks), p)
  {
    var rest := blocks[..k] + blocks[k + 1..];
    var j :| 0 <= j < |rest| && InRange(MemArea2PgRange(rest[j]), p);
    var i := if j < k then j else j + 1;
    assert rest[j] == blocks[i] && Visits(blocks)[i] == Some(blocks[i]);
  }

  lemma FreeBytes(blocks: seq<RealArea>, k: nat, x: nat)
    requires k < |blocks| && Live(blocks, x) && x !in Bytes(blocks[k])
    ensures Live(blocks[..k] + blocks[k + 1..], x)
  {
    assert !InArea(blocks[k], x);
    var j :| 0 <= j < |blocks| && InArea(blocks[j], x);
    var rest := blocks[..k] + blocks[k + 1..];
    assert rest[if j < k then j else j - 1] == blocks[j];
  }

  lemma {:induction false} FreeOk(w: World, k: nat)
    requires Inv(w) && Enabled(w, Free(k))
    ensures Inv(Apply(w, Free(k)))
  {
    var w' := Apply(w, Free(k));
    forall p | LivePage(Visits(w'.blocks), p) ensures p in w'.mapped { FreePages(w.blocks, k, p); }
    forall x | x in w'.written ensures Live(w'.blocks, x) { FreeBytes(w.blocks, k, x); }
    forall x | x in w'.written ensures Agree(w, x) ==> Agree(w', x) {
    }
  }

  /** Swapping pages out and in changes no byte. */
  lemma {:induction false} SwapOk(w: World, e: Event)
    requires Inv(w) && Enabled(w, e) && (e.SwapOut? || e.SwapIn?)
    ensures Inv(Apply(w, e))
  {
    var w' := Apply(w, e);
    forall x | x in w.written ensures Touched(w', PageOf(x)) && (Agree(w, x) ==> Agree(w', x)) {
      assert Touched(w, PageOf(x));
    }
  }

  lemma {:induction false} WriteOk(w: World, x: nat, v: bv8)
    requires Inv(w) && Enabled(w, Write(x, v))
    ensures Inv(Apply(w, Write(x, v)))
  {
    var w' := Apply(w, Write(x, v));
    forall y | y in w'.written && PageOf(y) !in w'.dirty ensures y in w.written && (Agree(w, y) ==> Agree(w', y)) {
    }
  }

  lemma {:induction false} EnterOk(w: World, reduces: seq<ReduceArea>)
    requires Inv(w) && Enabled(w, Enter(reduces))
    ensures Inv(Apply(w, Enter(reduces)))
  {
    var w' := Apply(w, Enter(reduces));
    forall x | x in w'.written && !InReduce(reduces, x) ensures Agree(w', x) {
      AfterEnter(w, reduces, x);
    }
  }

  lemma {:induction false} WorkerWriteOk(w: World, x: nat, v: bv8)
    requires Inv(w) && Enabled(w, WorkerWrite(x, v))
    ensures Inv(Apply(w, WorkerWrite(x, v)))
  {
    var w' := Apply(w, WorkerWrite(x, v));
    forall y | y in w'.written && y !in w'.strayed && !InReduce(w.reduces, y) ensures Agree(w, y) ==> Agree(w', y) {
    }
  }

  /** The reduction at the end of a region dirties every page with a reduce byte, so that what the
      last sync skipped there is sent, or skipped again, by the next one. */
  lemma {:induction false} ExitOk(w: World, result: Memory)
    requires Inv(w) && Enabled(w, Exit(result))
    ensures Inv(Apply(w, Exit(result)))
  {
    var w' := Apply(w, Exit(result));
    forall x | x in w'.written
      ensures Live(w'.blocks, x) && Touched(w', PageOf(x))
      ensures PageOf(x) !in w'.dirty ==> x in w.written && !InReduce(w.reduces, x) && (Agree(w, x) ==> Agree(w', x))
    {
      assert InReduce(w.reduces, x) ==> x in ReduceBytes(w.reduces) && PageOf(x) in ReducePages(w.reduces);
    }
  }

  lemma {:induction false} EventOk(w: World, e: Event)
    requires Inv(w) && Enabled(w, e)
    ensures Inv(Apply(w, e))
  {
    match e
    case Map(a, prot) => MapOk(w, a, prot);
    case Unmap(a) => UnmapOk(w, a);
    case Alloc(b) => AllocOk(w, b);
    case Free(k) => FreeOk(w, k);
    case SwapOut(_) => SwapOk(w, e);
    case SwapIn(_) => SwapOk(w, e);
    case Write(x, v) => WriteOk(w, x, v);
    case Enter(reduces) => EnterOk(w, reduces);
    case WorkerWrite(x, v) => WorkerWriteOk(w, x, v);
    case Exit(result) => ExitOk(w, result);
  }

  // ---------------------------------------------------------------- over whole runs

  predicate ValidRun(w: World, events: seq<Event>)
    decreases |events|
  {
    events == [] || (Enabled(w, events[0]) && ValidRun(Apply(w, events[0]), events[1..]))
  }

  function After(w: World, events: seq<Event>): World
    requires ValidRun(w, events)
    decreases |events|
  {
    if events == [] then w else After(Apply(w, events[0]), events[1..])
  }

  /** Nothing is mapped yet; the two memories may hold anything. */
  function Boot(leader: Memory, worker: Memory, stack: Area): World {
    World(leader, worker, stack, [], {}, {}, {}, {}, {}, [], [], false, {})
  }

  lemma {:induction false} RunOk(w: World, events: seq<Event>)
    requires Inv(w) && ValidRun(w, events)
    ensures Inv(After(w, events))
    decreases |events|
  {
    if events != [] {
      EventOk(w, events[0]);
      RunOk(Apply(w, events[0]), events[1..]);
    }
  }

  /** The leader maps a page and writes a byte of a block on it. */
  function WriteEvents(): seq<Event> {
    [Map(Area(PAGE_SIZE, PAGE_SIZE), 3), Alloc(Area(PAGE_SIZE, 1)), Write(PAGE_SIZE, 5)]
  }

  /** It runs a region in which the worker changes the byte. */
  function StrayEvents(result: Memory): seq<Event> {
    [Enter([]), WorkerWrite(PAGE_SIZE, 7), Exit(result)]
  }

  lemma FirstPage()
    ensures RangePages(MemArea2PgRange(Area(PAGE_SIZE, PAGE_SIZE))) == {1}
    ensures RangePages(MemArea2PgRange(Area(PAGE_SIZE, 1))) == {1} && PageOf(PAGE_SIZE) == 1
  {
    PageAtLeast(PAGE_SIZE, 1);
    PageAtLeast(PAGE_SIZE, 2);
    PageAtLeast(2 * PAGE_SIZE - 1, 1);
    PageAtLeast(2 * PAGE_SIZE - 1, 2);
  }

  lemma {:induction false} OneEvent(w: World, e: Event, rest: seq<Event>)
    requires Enabled(w, e) && ValidRun(Apply(w, e), rest)
    ensures ValidRun(w, [e] + rest) && After(w, [e] + rest) == After(Apply(w, e), rest)
  {
    assert ([e] + rest)[1..] == rest;
  }

  lemma {:induction false} ThreeEvents(w: World, a: Event, b: Event, c: Event, more: seq<Event>)
    requires Enabled(w, a) && Enabled(Apply(w, a), b) && Enabled(Apply(Apply(w, a), b), c)
    requires ValidRun(Apply(Apply(Apply(w, a), b), c), more)
    ensures ValidRun(w, [a, b, c] + more)
    ensures After(w, [a, b, c] + more) == After(Apply(Apply(Apply(w, a), b), c), more)
  {
    OneEvent(Apply(Apply(w, a), b), c, more);
    OneEvent(Apply(w, a), b, [c] + more);
    OneEvent(w, a, [b] + ([c] + more));
    assert [a] + ([b] + ([c] + more)) == [a, b, c] + more;
  }

  lemma {:induction false} WritesByte(leader: Memory, worker: Memory, stack: Area, more: seq<Event>) returns (w: World)
    ensures w.written == {PAGE_SIZE} && w.leader(PAGE_SIZE) == 5 && w.blocks == [Area(PAGE_SIZE, 1)]
    ensures !w.inRegion && w.strayed == {} && w.stack == stack
    ensures ValidRun(w, more) ==>
              && ValidRun(Boot(leader, worker, stack), WriteEvents() + more)
              && After(Boot(leader, worker, stack), WriteEvents() + more) == After(w, more)
  {
    FirstPage();
    var e, w0 := WriteEvents(), Boot(leader, worker, stack);
    var w1 := Apply(w0, e[0]);
    var w2 := Apply(w1, e[1]);
    assert InArea(w2.blocks[0], PAGE_SIZE);
    w := Apply(w2, e[2]);
    if ValidRun(w, more) { ThreeEvents(w0, e[0], e[1], e[2], more); }
  }

  lemma {:induction false} StrayChange(w: World, result: Memory)
    requires w.written == {PAGE_SIZE} && w.leader(PAGE_SIZE) == 5 && w.blocks == [Area(PAGE_SIZE, 1)]
    requires !w.inRegion && w.strayed == {}
    ensures ValidRun(w, StrayEvents(result))
    ensures var w' := After(w, StrayEvents(result));
            && w'.written == {PAGE_SIZE} && w'.dirty == {} && w'.leader(PAGE_SIZE) == 5 && w'.worker(PAGE_SIZE) == 7
            && w'.log == [] && w'.strayed == {PAGE_SIZE} && w'.stack == w.stack
  {
    var e := StrayEvents(result);
    ThreeEvents(w, e[0], e[1], e[2], []);
    assert e + [] == e;
    assert After(w, e).written == w.written;
  }

  /** A stray change on a page that the leader leaves clean does survive: the assumption on entering
      a region cannot be dropped. */
  lemma {:induction false} StraySurvives(leader: Memory, worker: Memory, stack: Area, result: Memory)
    requires !InArea(stack, PAGE_SIZE)
    ensures ValidRun(Boot(leader, worker, stack), WriteEvents() + StrayEvents(result))
    ensures var w := After(Boot(leader, worker, stack), WriteEvents() + StrayEvents(result));
            && PAGE_SIZE in w.written && PageOf(PAGE_SIZE) !in w.dirty && !Agree(w, PAGE_SIZE)
            && !Enabled(w, Enter([])) && Received(w, [])(PAGE_SIZE) != w.leader(PAGE_SIZE)
  {
    var w0 := WritesByte(leader, worker, stack, StrayEvents(result));
    StrayChange(w0, result);
    var w := After(w0, StrayEvents(result));
    EntryBits(false, PageOf(PAGE_SIZE) in w.present, PageOf(PAGE_SIZE) in w.swapped);
  }

  /** However the leader has mapped, unmapped, allocated, freed and written, and however many regions
      have been run: when a region is entered, the worker's copy of every byte that the leader has
      written in a live block, and of the stack, is the leader's, except that the reduce areas hold
      their identities. */
  lemma {:induction false} Coherent(leader: Memory, worker: Memory, stack: Area, events: seq<Event>,
                                    reduces: seq<ReduceArea>, x: nat)
    requires ValidRun(Boot(leader, worker, stack), events)
    requires Enabled(After(Boot(leader, worker, stack), events), Enter(reduces))
    ensures var w := Apply(After(Boot(leader, worker, stack), events), Enter(reduces));
            && (x in w.written || InArea(w.stack, x) ==>
                  if InReduce(reduces, x)
                  then exists k ::
                         0 <= k < |reduces| && InArea(reduces[k].area, x) && w.worker(x) == reduces[k].identity
                  else w.worker(x) == w.leader(x))
  {
    var w := After(Boot(leader, worker, stack), events);
    RunOk(Boot(leader, worker, stack), events);
    AfterEnter(w, reduces, x);
  }

  // ---------------------------------------------------------------- memory that nobody has written

  function PageBytes(a: RealArea): set<nat> { Bytes(PgRange2MemArea(MemArea2PgRange(a))) }

  lemma {:induction false} PageBytesExact(e: Event)
    ensures e.Map? || e.Unmap? ==>
              forall x: nat :: x in PageBytes(e.area) <==> InRange(MemArea2PgRange(e.area), PageOf(x))
  {
    if e.Map? || e.Unmap? {
      forall x: nat ensures x in PageBytes(e.area) <==> InRange(MemArea2PgRange(e.area), PageOf(x)) {
        RangeBytes(MemArea2PgRange(e.area), x);
      }
    }
  }

  /** The bytes that have been mapped and that neither copy's program has written since. */
  function NextFresh(w: World, e: Event, bytes: set<nat>): (next: set<nat>)
    requires Enabled(w, e)
    ensures e.Map? ==> forall x: nat :: x in next <==> x in bytes || InRange(MemArea2PgRange(e.area), PageOf(x))
    ensures e.Unmap? ==> forall x: nat :: x in next <==> x in bytes && !InRange(MemArea2PgRange(e.area), PageOf(x))
  {
    PageBytesExact(e);
    match e
    case Map(a, _) => bytes + PageBytes(a)
    case Unmap(a) => bytes - PageBytes(a)
    case Write(x, _) => bytes - {x}
    case WorkerWrite(x, _) => if InReduce(w.reduces, x) then bytes else bytes - {x}
    case Exit(_) => bytes - ReduceBytes(w.reduces)
    case _ => bytes
  }

  function Fresh(w: World, events: seq<Event>, bytes: set<nat>): set<nat>
    requires ValidRun(w, events)
    decreases |events|
  {
    if events == [] then bytes else Fresh(Apply(w, events[0]), events[1..], NextFresh(w, events[0], bytes))
  }

  /** A byte is fresh after one more event if and only if it has just been mapped, or was fresh and has
      neither been unmapped nor written, by a program or by a reduction. */
  lemma {:induction false} FreshExactly(w: World, events: seq<Event>, e: Event, bytes: set<nat>, x: nat)
    requires ValidRun(w, events) && Enabled(After(w, events), e)
    ensures ValidRun(w, events + [e])
    ensures x in Fresh(w, events + [e], bytes) <==>
            var before := x in Fresh(w, events, bytes);
            match e
            case Map(a, _) => before || InRange(MemArea2PgRange(a), PageOf(x))
            case Unmap(a) => before && !InRange(MemArea2PgRange(a), PageOf(x))
            case Write(y, _) => before && x != y
            case WorkerWrite(y, _) => before && (x != y || InReduce(After(w, events).reduces, y))
            case Exit(_) => before && !InReduce(After(w, events).reduces, x)
            case _ => before
    decreases |events|
  {
    if events == [] {
      assert [] + [e] == [e] && [e][1..] == [];
      assert ValidRun(Apply(w, e), []);
    } else {
      assert (events + [e])[1..] == events[1..] + [e];
      FreshExactly(Apply(w, events[0]), events[1..], e, NextFresh(w, events[0], bytes), x);
    }
  }

  /** They read as zero on the leader, and on the worker once it has repeated the mapping, except that
      the reduce areas of the current region are its own. */
  ghost predicate Zeroed(w: World, bytes: set<nat>) {
    forall x :: x in bytes ==>
      w.leader(x) == 0 && (!Reducing(w, x) && !LogPage(w.log, PageOf(x)) ==> w.worker(x) == 0)
  }

  lemma {:induction false} ReplayCleared(mem: Memory, log: seq<MemOp>, x: nat)
    requires LogPage(log, PageOf(x))
    ensures ReplayBytes(mem, log)(x) == 0
  {
    var n := |log| - 1;
    if !InRange(OpPages(log[n]), PageOf(x)) {
      var k :| 0 <= k < |log| && InRange(OpPages(log[k]), PageOf(x));
      assert log[..n][k] == log[k];
      ReplayCleared(mem, log[..n], x);
    }
  }

  lemma {:induction false} RemapZeroed(w: World, e: Event, bytes: set<nat>)
    requires (e.Map? || e.Unmap?) && Enabled(w, e) && Zeroed(w, bytes)
    ensures Zeroed(Apply(w, e), NextFresh(w, e, bytes))
  {
    var w', op := Apply(w, e), if e.Map? then Mmap(e.area, e.prot) else Munmap(e.area);
    forall x | x in NextFresh(w, e, bytes)
      ensures w'.leader(x) == 0 && (!Reducing(w', x) && !LogPage(w'.log, PageOf(x)) ==> w'.worker(x) == 0)
    {
      RangeBytes(OpPages(op), x);
      LogSnoc(w.log, op, PageOf(x));
    }
  }

  /** What a worker holds of a fresh byte after entering. */
  lemma {:induction false} EntersZero(w: World, reduces: seq<ReduceArea>, bytes: set<nat>, x: nat)
    requires Enabled(w, Enter(reduces)) && Zeroed(w, bytes) && x in bytes && !InReduce(reduces, x)
    ensures Apply(w, Enter(reduces)).worker(x) == 0
  {
    IdentitiesSet(Received(w, reduces), reduces, x);
    if LogPage(w.log, PageOf(x)) {
      ReplayCleared(w.worker, w.log, x);
    } else {
      ReplayElsewhere(w.worker, w.log, x);
    }
  }

  lemma {:induction false} EventZeroed(w: World, e: Event, bytes: set<nat>)
    requires Enabled(w, e) && Zeroed(w, bytes)
    ensures Zeroed(Apply(w, e), NextFresh(w, e, bytes))
  {
    match e
    case Map(_, _) => RemapZeroed(w, e, bytes);
    case Unmap(_) => RemapZeroed(w, e, bytes);
    case Enter(reduces) =>
      forall x | x in bytes && !InReduce(reduces, x) ensures Apply(w, e).worker(x) == 0 {
        EntersZero(w, reduces, bytes, x);
      }
    case _ =>
  }

  lemma {:induction false} RunZeroed(w: World, events: seq<Event>, bytes: set<nat>)
    requires ValidRun(w, events) && Zeroed(w, bytes)
    ensures Zeroed(After(w, events), Fresh(w, events, bytes))
    decreases |events|
  {
    if events != [] {
      EventZeroed(w, events[0], bytes);
      RunZeroed(Apply(w, events[0]), events[1..], NextFresh(w, events[0], bytes));
    }
  }

  /** Memory that has been mapped and that nobody has written since, in a live block or not: when a
      region is entered it reads as zero on the leader and on the worker, except that the worker's
      reduce areas hold their identities. */
  lemma {:induction false} FreshReadsZero(leader: Memory, worker: Memory, stack: Area, events: seq<Event>,
                                          reduces: seq<ReduceArea>, x: nat)
    requires ValidRun(Boot(leader, worker, stack), events)
    requires Enabled(After(Boot(leader, worker, stack), events), Enter(reduces))
    requires x in Fresh(Boot(leader, worker, stack), events, {})
    ensures var w := Apply(After(Boot(leader, worker, stack), events), Enter(reduces));
            && w.leader(x) == 0
            && (if InReduce(reduces, x)
                then exists k ::
                       0 <= k < |reduces| && InArea(reduces[k].area, x) && w.worker(x) == reduces[k].identity
                else w.worker(x) == 0)
  {
    var w := After(Boot(leader, worker, stack), events);
    RunZeroed(Boot(leader, worker, stack), events, {});
    if InReduce(reduces, x) {
      IdentitiesSet(Received(w, reduces), reduces, x);
    } else {
      EntersZero(w, reduces, Fresh(Boot(leader, worker, stack), events, {}), x);
    }
  }
}
