/** The leader's heap mappings: where `proxy_mmap` places them in the reserved heap, and the log that
    lets a worker repeat them. */
module MappingLog {
  import opened Basics
  import opened Pages
  import opened MemOps

  const STEP: nat := 0x4000_0000

  const PROT_NONE: int := 0

  datatype Protection = Unmapped | Mapped(prot: int)

  type Mapping = nat -> Protection

  function Protect(m: Mapping, r: PteRange, p: Protection): Mapping {
    (x: nat) => if InRange(r, PageOf(x)) then p else m(x)
  }

  /** What an operation does on the leader. */
  function OnLeader(m: Mapping, op: MemOp): (m': Mapping)
    ensures forall x: nat ::
              m'(x) == if InRange(MemArea2PgRange(op.area), PageOf(x))
                       then (if op.Mmap? then Mapped(op.prot) else Unmapped) else m(x)
  {
    Protect(m, OpPages(op), if op.Mmap? then Mapped(op.prot) else Unmapped)
  }

  /** The call operators of the logged parameters: on a worker an unmapped area stays occupied. */
  function OnWorker(m: Mapping, op: MemOp): (m': Mapping)
    ensures forall x: nat ::
              m'(x) == if InRange(MemArea2PgRange(op.area), PageOf(x))
                       then Mapped(if op.Mmap? then op.prot else PROT_NONE) else m(x)
  {
    Protect(m, OpPages(op), Mapped(if op.Mmap? then op.prot else PROT_NONE))
  }

  function ReplayMapping(m: Mapping, log: seq<MemOp>): Mapping {
    if log == [] then m else OnWorker(ReplayMapping(m, log[..|log| - 1]), log[|log| - 1])
  }

  /** The worker's heap is the leader's, with what is unmapped there reserved. */
  ghost predicate Mirrors(worker: Mapping, leader: Mapping, heap: Area) {
    forall x :: InArea(heap, x) ==> worker(x) == if leader(x).Unmapped? then Mapped(PROT_NONE) else leader(x)
  }

  lemma {:induction false} ReplaySnoc(worker: Mapping, leader: Mapping, heap: Area, log: seq<MemOp>, op: MemOp)
    requires Mirrors(ReplayMapping(worker, log), leader, heap)
    ensures Mirrors(ReplayMapping(worker, log + [op]), OnLeader(leader, op), heap)
  {
    assert (log + [op])[..|log|] == log;
  }

  /** `round_up`. */
  function RoundUp(n: nat, multiple: nat): nat {
    if multiple == 0 then n
    else if n % multiple == 0 then n
    else n + multiple - n % multiple
  }

  /** The next multiple of the step. */
  lemma RoundUpExact(n: nat)
    ensures RoundUp(n, STEP) % STEP == 0 && n <= RoundUp(n, STEP) < n + STEP
  {
  }

  /** An area handed out of the heap before `begin`, at a whole number of steps from its start. */
  predicate Inside(heap: Area, begin: nat, a: Area) {
    && heap.begin <= a.begin && a.begin + a.size <= begin
    && a.begin + a.size <= heap.begin + heap.size
    && (a.begin - heap.begin) % STEP == 0
  }

  ghost predicate Placed(heap: Area, begin: nat, returned: seq<Area>) {
    && (forall k :: 0 <= k < |returned| ==> Inside(heap, begin, returned[k]))
    && (forall j, k :: 0 <= j < k < |returned| ==> !Overlap(returned[j], returned[k]))
  }

  lemma PlacedSnoc(heap: Area, begin: nat, returned: seq<Area>, len: nat, next: nat)
    requires Placed(heap, begin, returned)
    requires heap.begin <= begin && begin + len <= heap.begin + heap.size && (begin - heap.begin) % STEP == 0
    requires begin + len <= next
    ensures Placed(heap, next, returned + [Area(begin, len)])
  {
  }

  lemma StepsAdd(from: nat, begin: nat, more: nat)
    requires from <= begin && (begin - from) % STEP == 0 && more % STEP == 0
    ensures (begin + more - from) % STEP == 0
  {
  }

  lemma OnlyStep(from: nat, begin: nat, p: nat)
    requires from <= begin <= p < begin + STEP && (begin - from) % STEP == 0 && (p - from) % STEP == 0
    ensures p == begin
  {
  }

  /** A change apart from the heap, which consists of whole pages, leaves its mapping alone. */
  lemma ApartFromHeap(pages: PteRange, op: MemOp, x: nat)
    requires !Overlap(op.area, PgRange2MemArea(pages)) && InArea(PgRange2MemArea(pages), x)
    ensures !InRange(OpPages(op), PageOf(x))
  {
    if InRange(OpPages(op), PageOf(x)) {
      OuterExact(op.area, PageOf(x));
      var y: nat :| InArea(op.area, y) && PageOf(y) == PageOf(x);
      RangeBytes(pages, x);
      RangeBytes(pages, y);
      assert false;
    }
  }

  /** The leader's side of the heap. `worker` is a worker's mapping at the last sync, `returned` all
      areas that have ever been handed out. */
  class Heap {
    const reserved: RealArea
    ghost const pages: PteRange
    var begin: nat
    var log: seq<MemOp>
    ghost var leader: Mapping
    ghost var worker: Mapping
    ghost var returned: seq<Area>

    ghost predicate Valid()
      reads this
    {
      && reserved == PgRange2MemArea(pages)
      && reserved.begin <= begin && (begin - reserved.begin) % STEP == 0
      && Mirrors(ReplayMapping(worker, log), leader, reserved)
      && Placed(reserved, begin, returned)
    }

    /** The heap is a range of pages. At first nothing of it is mapped, and the worker has reserved
        it. */
    constructor (reserved: RealArea, ghost pages: PteRange)
      requires reserved == PgRange2MemArea(pages)
      ensures Valid() && this.reserved == reserved && begin == reserved.begin && log == [] && returned == []
    {
      this.reserved, this.pages := reserved, pages;
      begin, log := reserved.begin, [];
      leader, worker, returned := (_: nat) => Unmapped, (_: nat) => Mapped(PROT_NONE), [];
    }

    /** The retry loop of `proxy_mmap`. `kernel` is what the kernel answers to each place: a refusal,
        as for every mapping of nothing, or where it has mapped, which may be elsewhere. The first step
        place that it accepts is found; if there is none, the reserved heap has run out and the
        program ends. */
    method FindPlace(kernel: nat -> Option<nat>, len: nat) returns (found: bool)
      requires Valid()
      modifies this`begin
      ensures Valid() && begin >= old(begin) && (begin - old(begin)) % STEP == 0
      ensures found ==> len > 0 && kernel(begin) == Some(begin) && begin + len <= reserved.begin + reserved.size
      ensures !found ==> begin + len > reserved.begin + reserved.size
      ensures forall p: nat :: old(begin) <= p < begin && (p - old(begin)) % STEP == 0 ==>
                len == 0 || kernel(p) != Some(p)
    {
      while begin + len <= reserved.begin + reserved.size
        invariant Valid() && begin >= old(begin) && (begin - old(begin)) % STEP == 0
        invariant forall p: nat :: old(begin) <= p < begin && (p - old(begin)) % STEP == 0 ==>
                    len == 0 || kernel(p) != Some(p)
        decreases reserved.begin + reserved.size - begin
      {
        if len > 0 && kernel(begin) == Some(begin) { return true; }
        StepsAdd(reserved.begin, begin, STEP);
        StepsAdd(old(begin), begin, STEP);
        forall p: nat | old(begin) <= p < begin + STEP && (p - old(begin)) % STEP == 0
          ensures len == 0 || kernel(p) != Some(p)
        {
          if begin <= p { OnlyStep(old(begin), begin, p); }
        }
        begin := begin + STEP;
      }
      found := false;
    }

    /** `proxy_mmap`. */
    method ProxyMmap(kernel: nat -> Option<nat>, len: nat, prot: int) returns (res: Option<nat>)
      requires Valid()
      modifies this
      ensures Valid() && worker == old(worker)
      // which place it is: the first one that the kernel accepts, at whole GiB steps
      ensures res.Some? ==> len > 0 && kernel(res.value) == res
      ensures res.Some? ==> old(begin) <= res.value && res.value + len <= reserved.begin + reserved.size
      ensures res.Some? ==> (res.value - reserved.begin) % 0x4000_0000 == 0
      ensures forall p: nat ::
                && old(begin) <= p && (p - old(begin)) % 0x4000_0000 == 0
                && p + len <= reserved.begin + reserved.size && (res.Some? ==> p < res.value)
                ==> len == 0 || kernel(p) != Some(p)
      // apart from all others
      ensures res.Some? ==> forall k, x: nat :: 0 <= k < |old(returned)| && InArea(old(returned)[k], x) ==>
                              !InArea(Area(res.value, len), x)
      // and what is recorded
      ensures returned == old(returned) + (if res.Some? then [Area(res.value, len)] else [])
      ensures log == old(log) + (if res.Some? then [Mmap(Area(res.value, len), prot)] else [])
      ensures leader == if res.Some? then OnLeader(old(leader), Mmap(Area(res.value, len), prot)) else old(leader)
      ensures res.Some? ==> begin >= res.value + len
    {
      var found := FindPlace(kernel, len);
      if !found { return None; }
      res := Some(begin);
      Record(len, prot);
    }

    /** The new mapping at `begin` is logged, and `begin` moves past it. */
    method Record(len: nat, prot: int)
      requires Valid() && len > 0 && begin + len <= reserved.begin + reserved.size
      modifies this
      ensures Valid() && worker == old(worker)
      ensures returned == old(returned) + [Area(old(begin), len)]
      ensures forall k, x: nat :: 0 <= k < |old(returned)| && InArea(old(returned)[k], x) ==>
                !InArea(Area(old(begin), len), x)
      ensures log == old(log) + [Mmap(Area(old(begin), len), prot)]
      ensures leader == OnLeader(old(leader), Mmap(Area(old(begin), len), prot))
      ensures begin >= old(begin) + len
    {
      var op := Mmap(Area(begin, len), prot);
      ReplaySnoc(worker, leader, reserved, log, op);
      RoundUpExact(len);
      StepsAdd(reserved.begin, begin, RoundUp(len, STEP));
      PlacedSnoc(reserved, begin, returned, len, begin + RoundUp(len, STEP));
      leader, log, returned := OnLeader(leader, op), log + [op], returned + [Area(begin, len)];
      begin := begin + RoundUp(len, STEP);
    }

    /** `proxy_munmap`. The kernel may refuse, and an area apart from the reserved heap is not logged. */
    method ProxyMunmap(area: RealArea) returns (ok: bool)
      requires Valid()
      modifies this
      ensures Valid() && begin == old(begin) && returned == old(returned) && worker == old(worker)
      ensures leader == if ok then OnLeader(old(leader), Munmap(area)) else old(leader)
      ensures log == if ok && (exists x: nat :: InArea(area, x) && InArea(reserved, x)) then old(log) + [Munmap(area)]
                     else old(log)
    {
      var op := Munmap(area);
      OverlapExact(area, reserved);
      if !Overlap(area, reserved) {
        ok :| true;
        if ok {
          forall x | InArea(reserved, x) ensures OnLeader(leader, op)(x) == leader(x) { ApartFromHeap(pages, op, x); }
          leader := OnLeader(leader, op);
        }
        return;
      }
      ok :| true;
      if ok {
        ReplaySnoc(worker, leader, reserved, log, op);
        leader, log := OnLeader(leader, op), log + [op];
      }
    }

    /** A sync sends the log and empties it; afterwards the worker's heap mirrors the leader's. */
    method Sync() returns (sent: seq<MemOp>)
      requires Valid()
      modifies this
      ensures Valid() && sent == old(log) && log == []
      ensures leader == old(leader) && returned == old(returned) && begin == old(begin)
      ensures worker == ReplayMapping(old(worker), sent)
      ensures forall x :: InArea(reserved, x) ==>
                worker(x) == if leader(x).Unmapped? then Mapped(PROT_NONE) else leader(x)
    {
      sent := log;
      worker := ReplayMapping(worker, log);
      log := [];
    }
  }
}
