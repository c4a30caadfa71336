/** Entering a parallel region on the wire: the broadcasts that the leader posts, and a worker that
    posts the same ones, each with a size that it derives from what it has received before. */
module Wire {
  import opened Pages
  import opened PageScan
  import opened MemOps
  import opened Elements
  import opened Replica
  import BigMpi
  import MappingLog

  const SIZEOF_SIZE_T: nat := 8
  const SIZEOF_MEM_AREA: nat := 16
  const SIZEOF_PTE_RANGE: nat := 16
  const SIZEOF_MEM_OP: nat := 48
  const SIZEOF_ADDRESS: nat := 8

  datatype Payload =
    | EnterParallelTag
    | Number(n: nat)
    | Ops(ops: seq<MemOp>)
    | Content(bytes: seq<bv8>)
    | AreaList(areas: seq<Area>)
    | RangeList(ranges: seq<PteRange>)
    | Context

  /** A broadcast from the root: the byte counts of the calls it is made of, and what it carries. */
  datatype Broadcast = Broadcast(counts: seq<nat>, payload: Payload)

  // ---------------------------------------------------------------- what the leader posts

  function SendMemOps(ops: seq<MemOp>): seq<Broadcast> {
    [Broadcast([SIZEOF_SIZE_T], Number(|ops|)), Broadcast([|ops| * SIZEOF_MEM_OP], Ops(ops))]
  }

  function SendStack(mem: Memory, stack: Area): seq<Broadcast> {
    [Broadcast([stack.size], Content(BytesAt(mem, stack)))]
  }

  function SendAreas(mem: Memory, areas: seq<Area>): seq<Broadcast> {
    if areas == [] then []
    else [Broadcast(BigMpi.ChunkCounts(areas[0].size), Content(BytesAt(mem, areas[0])))] + SendAreas(mem, areas[1..])
  }

  function SendDirtyPage(mem: Memory, areas: seq<Area>): seq<Broadcast> {
    [Broadcast([SIZEOF_SIZE_T], Number(|areas|)),
     Broadcast(BigMpi.ChunkCounts(|areas| * SIZEOF_MEM_AREA), AreaList(areas))]
    + SendAreas(mem, areas)
  }

  function SendZeroedPage(ranges: seq<PteRange>): seq<Broadcast> {
    [Broadcast([SIZEOF_SIZE_T], Number(|ranges|)),
     Broadcast(BigMpi.ChunkCounts(|ranges| * SIZEOF_PTE_RANGE), RangeList(ranges))]
  }

  function Everything(ops: seq<MemOp>, mem: Memory, stack: Area, areas: seq<Area>, ranges: seq<PteRange>)
    : seq<Broadcast>
  {
    [Broadcast([1], EnterParallelTag)] + (SendMemOps(ops) + (SendStack(mem, stack)
    + (SendDirtyPage(mem, areas) + (SendZeroedPage(ranges) + [Broadcast([SIZEOF_ADDRESS], Context)]))))
  }

  // ---------------------------------------------------------------- what the worker does with it

  function Overwrite(mem: Memory, a: Area, bytes: seq<bv8>): Memory
    requires |bytes| == a.size
  {
    (x: nat) => if InArea(a, x) then bytes[x - a.begin] else mem(x)
  }

  function Install(mem: Memory, leader: Memory, areas: seq<Area>): Memory {
    if areas == [] then mem else Install(Overwrite(mem, areas[0], BytesAt(leader, areas[0])), leader, areas[1..])
  }

  function ClearAll(mem: Memory, ranges: seq<PteRange>): Memory {
    if ranges == [] then mem else ClearAll(Clear(mem, ranges[0]), ranges[1..])
  }

  /** A worker. `inbox` is what the root's broadcasts have in store for it. */
  class Worker {
    var mem: Memory
    var mapping: MappingLog.Mapping
    var inbox: seq<Broadcast>
    const stack: Area

    constructor (mem: Memory, mapping: MappingLog.Mapping, stack: Area, inbox: seq<Broadcast>)
      ensures this.mem == mem && this.mapping == mapping && this.stack == stack && this.inbox == inbox
    {
      this.mem, this.mapping, this.stack, this.inbox := mem, mapping, stack, inbox;
    }

    /** Collectives match in the order they are posted, and the sizes have to be equal: every call
        below is made with a size computed from received data, and this is checked for each. */
    method Post(counts: seq<nat>) returns (payload: Payload)
      requires inbox != [] && inbox[0].counts == counts
      modifies this`inbox
      ensures payload == old(inbox)[0].payload && inbox == old(inbox)[1..]
    {
      payload := inbox[0].payload;
      inbox := inbox[1..];
    }

    /** `recv_and_perform_mem_ops`. */
    method RecvAndPerformMemOps(ghost ops: seq<MemOp>, ghost rest: seq<Broadcast>)
      requires inbox == SendMemOps(ops) + rest && |ops| * SIZEOF_MEM_OP < BigMpi.INT_MAX
      modifies this`inbox, this`mem, this`mapping
      ensures inbox == rest && mem == ReplayBytes(old(mem), ops)
      ensures mapping == MappingLog.ReplayMapping(old(mapping), ops)
    {
      var size := Post([SIZEOF_SIZE_T]);
      var byteCount := SIZEOF_MEM_OP * size.n;
      var memOps := Post([byteCount]);
      assert inbox == rest;
      for i := 0 to size.n
        invariant inbox == rest && mem == ReplayBytes(old(mem), ops[..i])
        invariant mapping == MappingLog.ReplayMapping(old(mapping), ops[..i])
      {
        assert ops[..i + 1][..i] == ops[..i];
        mem := Clear(mem, OpPages(memOps.ops[i]));
        mapping := MappingLog.OnWorker(mapping, memOps.ops[i]);
      }
      assert ops[..|ops|] == ops;
    }

    method RecvStack(ghost leader: Memory, ghost rest: seq<Broadcast>)
      requires inbox == SendStack(leader, stack) + rest
      modifies this`inbox, this`mem
      ensures inbox == rest && mem == Overwrite(old(mem), stack, BytesAt(leader, stack))
    {
      var content := Post([stack.size]);
      mem := Overwrite(mem, stack, content.bytes);
      assert inbox == rest;
    }

    /** `recv_dirty_page`, with the broadcasts of `sync_areas` in the order they are posted. */
    method RecvDirtyPage(ghost leader: Memory, ghost areas: seq<Area>, ghost rest: seq<Broadcast>)
      requires inbox == SendDirtyPage(leader, areas) + rest
      modifies this`inbox, this`mem
      ensures inbox == rest && mem == Install(old(mem), leader, areas)
    {
      var count := Post([SIZEOF_SIZE_T]);
      var list := Post(BigMpi.ChunkCounts(count.n * SIZEOF_MEM_AREA));
      assert inbox == SendAreas(leader, areas) + rest;
      SyncAreas(list.areas, leader, rest);
    }

    method SyncAreas(areas: seq<Area>, ghost leader: Memory, ghost rest: seq<Broadcast>)
      requires inbox == SendAreas(leader, areas) + rest
      modifies this`inbox, this`mem
      ensures inbox == rest && mem == Install(old(mem), leader, areas)
    {
      for i := 0 to |areas|
        invariant inbox == SendAreas(leader, areas[i..]) + rest
        invariant Install(mem, leader, areas[i..]) == Install(old(mem), leader, areas)
      {
        assert areas[i..][0] == areas[i] && areas[i..][1..] == areas[i + 1..];
        var content := Post(BigMpi.ChunkCounts(areas[i].size));
        mem := Overwrite(mem, areas[i], content.bytes);
        assert inbox == SendAreas(leader, areas[i + 1..]) + rest;
      }
    }

    /** `recv_zero_page`. */
    method RecvZeroPage(ghost ranges: seq<PteRange>, ghost rest: seq<Broadcast>)
      requires inbox == SendZeroedPage(ranges) + rest
      modifies this`inbox, this`mem
      ensures inbox == rest && mem == ClearAll(old(mem), ranges)
    {
      var size := Post([SIZEOF_SIZE_T]);
      var list := Post(BigMpi.ChunkCounts(size.n * SIZEOF_PTE_RANGE));
      assert inbox == rest;
      for i := 0 to |list.ranges|
        invariant inbox == rest && ClearAll(mem, ranges[i..]) == ClearAll(old(mem), ranges)
      {
        assert ranges[i..][0] == ranges[i] && ranges[i..][1..] == ranges[i + 1..];
        mem := Clear(mem, list.ranges[i]);
      }
    }

    /** The command loop's branch for `rpc_tag::enter_parallel`. */
    method EnterParallel(ghost ops: seq<MemOp>, ghost leader: Memory, ghost areas: seq<Area>,
                         ghost ranges: seq<PteRange>)
      requires inbox == Everything(ops, leader, stack, areas, ranges) && |ops| * SIZEOF_MEM_OP < BigMpi.INT_MAX
      modifies this`inbox, this`mem, this`mapping
      ensures inbox == [] && mapping == MappingLog.ReplayMapping(old(mapping), ops)
      ensures mem == ClearAll(Install(Overwrite(ReplayBytes(old(mem), ops), stack, BytesAt(leader, stack)),
                                      leader, areas), ranges)
    {
      var last := [Broadcast([SIZEOF_ADDRESS], Context)];
      var tag := Post([1]);
      RecvAndPerformMemOps(
        ops, SendStack(leader, stack) + (SendDirtyPage(leader, areas) + (SendZeroedPage(ranges) + last)));
      RecvStack(leader, SendDirtyPage(leader, areas) + (SendZeroedPage(ranges) + last));
      RecvDirtyPage(leader, areas, SendZeroedPage(ranges) + last);
      RecvZeroPage(ranges, last);
      var context := Post([SIZEOF_ADDRESS]);
    }
  }

  // ---------------------------------------------------------------- the effect, byte by byte

  predicate InAreas(areas: seq<Area>, x: nat) {
    exists k :: 0 <= k < |areas| && InArea(areas[k], x)
  }

  lemma {:induction false} InstallAt(mem: Memory, leader: Memory, areas: seq<Area>, x: nat)
    ensures Install(mem, leader, areas)(x) == if InAreas(areas, x) then leader(x) else mem(x)
  {
    if areas != [] {
      InstallAt(Overwrite(mem, areas[0], BytesAt(leader, areas[0])), leader, areas[1..], x);
      assert forall k :: 0 < k < |areas| ==> areas[k] == areas[1..][k - 1];
      if InAreas(areas[1..], x) {
        var k :| 0 <= k < |areas| - 1 && InArea(areas[1..][k], x);
        assert InArea(areas[k + 1], x);
      }
    }
  }

  lemma {:induction false} ClearAllAt(mem: Memory, ranges: seq<PteRange>, x: nat)
    ensures ClearAll(mem, ranges)(x) == if InRuns(ranges, PageOf(x)) then 0 else mem(x)
  {
    if ranges != [] {
      ClearAllAt(Clear(mem, ranges[0]), ranges[1..], x);
      assert forall k :: 0 < k < |ranges| ==> ranges[k] == ranges[1..][k - 1];
      if InRuns(ranges[1..], PageOf(x)) {
        var k :| 0 <= k < |ranges| - 1 && InRange(ranges[1..][k], PageOf(x));
        assert InRange(ranges[k + 1], PageOf(x));
      }
    }
  }

  function AreasOf(runs: seq<PteRange>): (areas: seq<Area>)
    ensures |areas| == |runs|
  {
    seq(|runs|, k requires 0 <= k < |runs| => PgRange2MemArea(runs[k]))
  }

  lemma AreasOfRuns(runs: seq<PteRange>, x: nat)
    ensures InAreas(AreasOf(runs), x) <==> InRuns(runs, PageOf(x))
  {
    forall k | 0 <= k < |runs| ensures InArea(AreasOf(runs)[k], x) <==> InRange(runs[k], PageOf(x)) {
      RangeBytes(runs[k], x);
    }
  }

  /** The dirty and the zero pages as the leader's scan finds them. */
  ghost predicate Scanned(w: World, reduces: seq<ReduceArea>, dirty: set<nat>, zero: set<nat>, bound: nat) {
    && (forall p :: p in dirty + zero ==> p < bound)
    && (forall p :: p in dirty <==> SentPage(w, reduces, p) && !PageZero(w.leader, p))
    && (forall p :: p in zero <==> SentPage(w, reduces, p) && PageZero(w.leader, p))
  }

  /** What the worker makes of the broadcasts is what the leader meant. */
  lemma {:induction false} DecodesToReceived(w: World, reduces: seq<ReduceArea>, dirty: set<nat>, zero: set<nat>,
                                             bound: nat, x: nat)
    requires Scanned(w, reduces, dirty, zero, bound)
    ensures ClearAll(Install(Overwrite(ReplayBytes(w.worker, w.log), w.stack, BytesAt(w.leader, w.stack)), w.leader,
                             AreasOf(Runs(dirty, 0, bound))), Runs(zero, 0, bound))(x) == Received(w, reduces)(x)
  {
    var mem := Overwrite(ReplayBytes(w.worker, w.log), w.stack, BytesAt(w.leader, w.stack));
    var p := PageOf(x);
    RunsExact(dirty, 0, bound, p);
    RunsExact(zero, 0, bound, p);
    AreasOfRuns(Runs(dirty, 0, bound), x);
    InstallAt(mem, w.leader, AreasOf(Runs(dirty, 0, bound)), x);
    ClearAllAt(Install(mem, w.leader, AreasOf(Runs(dirty, 0, bound))), Runs(zero, 0, bound), x);
    assert p in dirty + zero ==> p < bound;
  }

  /** Entering a region from the leader's scan to the worker's identities: the worker posts exactly
      the broadcasts that the leader posts, and ends with the memory of the model's `Enter`. */
  method EnterRegion(w: World, mapping: MappingLog.Mapping, reduces: seq<ReduceArea>, lanes: nat)
    returns (mem: Memory, mapping': MappingLog.Mapping)
    requires lanes > 0 && WORDS % lanes == 0 && |w.log| * SIZEOF_MEM_OP < BigMpi.INT_MAX
    requires Enabled(w, Enter(reduces))
    ensures forall x :: mem(x) == Apply(w, Enter(reduces)).worker(x)
    ensures mapping' == MappingLog.ReplayMapping(mapping, w.log)
  {
    var dirty, zero, bound := GetZeroAndDirtyPages(Visits(w.blocks), Ptes(w), w.leader, Areas(reduces), lanes);
    var areas, ranges := AreasOf(Runs(dirty, 0, bound)), Runs(zero, 0, bound);
    var worker := new Worker(w.worker, mapping, w.stack, Everything(w.log, w.leader, w.stack, areas, ranges));
    worker.EnterParallel(w.log, w.leader, areas, ranges);
    forall x ensures worker.mem(x) == Received(w, reduces)(x) {
      DecodesToReceived(w, reduces, dirty, zero, bound, x);
    }
    mem, mapping' := worker.mem, worker.mapping;
    for i := 0 to |reduces|
      invariant forall x :: mem(x) == SetIdentities(Received(w, reduces), reduces[..i])(x)
    {
      assert reduces[..i + 1][..i] == reduces[..i];
      mem := InitReduceArea(mem, reduces[i]);
    }
    assert reduces[..|reduces|] == reduces;
  }

  /** The `memset` of `init_reduce_area_on_worker`. */
  function InitReduceArea(mem: Memory, reduce: ReduceArea): Memory {
    (x: nat) => if InArea(reduce.area, x) then reduce.identity else mem(x)
  }
}
