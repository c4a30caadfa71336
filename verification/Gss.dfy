/** Guided self-scheduling: each chunk is one part in `procs` of what remains, at least `grain`. The
    C generator counts in 64-bit unsigned integers over [begin, end), the Fortran one in signed
    integers over [begin, end] inclusive. */
module Gss {
  import opened Basics

  const U64: int := 0x1_0000_0000_0000_0000

  datatype Task = Task(begin: int, end: int)

  /** The indices that a counting loop over [lo, hi) visits. */
  function Range(lo: int, hi: int): (s: seq<int>)
    ensures |s| == Max(0, hi - lo)
    ensures forall k :: 0 <= k < |s| ==> s[k] == lo + k
  {
    seq(Max(0, hi - lo), k => lo + k)
  }

  /** A range is its indices, one by one and in order. */
  lemma IsRange(v: seq<int>, lo: int, hi: int)
    ensures v == Range(lo, hi) <==> |v| == Max(0, hi - lo) && forall k :: 0 <= k < |v| ==> v[k] == lo + k
  {
    if |v| == Max(0, hi - lo) && forall k :: 0 <= k < |v| ==> v[k] == lo + k {
      assert forall k :: 0 <= k < |v| ==> v[k] == Range(lo, hi)[k];
    }
  }

  /** The counting loop over a task. */
  method RunTask(task: Task) returns (visited: seq<int>)
    ensures visited == Range(task.begin, task.end)
  {
    visited := [];
    var i := task.begin;
    while i < task.end
      invariant if task.begin <= task.end then i <= task.end else i == task.begin
      invariant task.begin <= i && visited == Range(task.begin, i)
    {
      visited := visited + [i];
      i := i + 1;
    }
  }

  /** Fortran's `do` loop over an inclusive range. */
  method RunDo(first: int, last: int) returns (visited: seq<int>)
    ensures visited == Range(first, last + 1)
  {
    visited := [];
    var i := first;
    while i <= last
      invariant if first <= last then i <= last + 1 else i == first
      invariant first <= i && visited == Range(first, i)
    {
      visited := visited + [i];
      i := i + 1;
    }
  }

  /** The loops over the tasks, one after the other. */
  method RunTasks(tasks: seq<Task>) returns (visited: seq<int>)
    ensures visited == Visited(tasks)
  {
    visited := [];
    for t := 0 to |tasks|
      invariant visited + Visited(tasks[t..]) == Visited(tasks)
    {
      assert tasks[t..][0] == tasks[t] && tasks[t..][1..] == tasks[t + 1..];
      var more := RunTask(tasks[t]);
      visited := visited + more;
    }
  }

  /** What the loops over the tasks visit, one task after the other. */
  function Visited(tasks: seq<Task>): seq<int> {
    if tasks == [] then [] else Range(tasks[0].begin, tasks[0].end) + Visited(tasks[1..])
  }

  /** One part in `procs` of what remains, rounded up. */
  function Share(remaining: nat, procs: nat): (n: nat)
    requires remaining > 0 && procs > 0
    ensures 1 <= n <= remaining
    decreases remaining
  {
    if remaining <= procs then 1 else 1 + Share(remaining - procs, procs)
  }

  /** The generators compute it with a division. */
  lemma {:induction false} ShareIs(remaining: nat, procs: nat)
    requires remaining > 0 && procs > 0
    ensures Share(remaining, procs) == (remaining - 1) / procs + 1
    decreases remaining
  {
    if remaining <= procs {
      DivUnique(remaining - 1, procs, 0);
    } else {
      ShareIs(remaining - procs, procs);
      var q := (remaining - procs - 1) / procs;
      DivUnique(remaining - 1, procs, q + 1);
    }
  }

  lemma DivUnique(a: nat, d: nat, q: nat)
    requires d > 0 && q * d <= a < q * d + d
    ensures a / d == q
  {
    var p := a / d;
    assert p * d <= a < p * d + d;
    if p < q { MulMonotone(p + 1, q, d); }
    if q < p { MulMonotone(q + 1, p, d); }
  }

  function Size(remaining: nat, procs: nat, grain: nat): (n: nat)
    requires remaining > 0 && procs > 0
    ensures 1 <= n <= remaining
  {
    Min(Max(Share(remaining, procs), grain), remaining)
  }

  function Chunks(begin: int, remaining: nat, procs: nat, grain: nat): seq<Task>
    requires procs > 0
    decreases remaining
  {
    if remaining == 0 then []
    else
      var n := Size(remaining, procs, grain);
      [Task(begin, begin + n)] + Chunks(begin + n, remaining - n, procs, grain)
  }

  lemma DivAtMost(a: nat, d: nat)
    requires d > 0
    ensures 0 <= a / d <= a
  {
    if d > 1 && a > 0 { DivLess(a, d); }
  }

  // ---------------------------------------------------------------- what the chunks are

  /** The chunks follow one another without gap or overlap and cover exactly the range. */
  lemma {:induction false} Partition(begin: int, remaining: nat, procs: nat, grain: nat)
    requires procs > 0
    ensures Visited(Chunks(begin, remaining, procs, grain)) == Range(begin, begin + remaining)
    decreases remaining
  {
    if remaining > 0 {
      var n := Size(remaining, procs, grain);
      Partition(begin + n, remaining - n, procs, grain);
      assert Range(begin, begin + n) + Range(begin + n, begin + remaining) == Range(begin, begin + remaining);
    }
  }

  /** The k-th index that the chunks visit is the k-th of the loop, and there are as many. */
  lemma VisitedInOrder(begin: int, remaining: nat, procs: nat, grain: nat)
    requires procs > 0
    ensures |Visited(Chunks(begin, remaining, procs, grain))| == remaining
    ensures forall k :: 0 <= k < remaining ==> Visited(Chunks(begin, remaining, procs, grain))[k] == begin + k
  {
    Partition(begin, remaining, procs, grain);
  }

  lemma MulMonotone(x: nat, y: nat, d: nat)
    requires x <= y
    ensures x * d <= y * d
  {
    assert (y - x) * d >= 0;
  }

  lemma MulCancel(x: nat, y: nat, d: nat)
    requires x * d < y * d
    ensures x < y
  {
    if x >= y {
      MulMonotone(y, x, d);
      assert false;
    }
  }

  lemma DivMonotone(a: nat, b: nat, d: nat)
    requires a <= b && d > 0
    ensures a / d <= b / d
  {
    assert a / d * d <= a <= b < (b / d + 1) * d;
    MulCancel(a / d, b / d + 1, d);
  }

  lemma ShareMonotone(a: nat, b: nat, procs: nat)
    requires 0 < a <= b && procs > 0
    ensures Share(a, procs) <= Share(b, procs)
  {
    ShareIs(a, procs);
    ShareIs(b, procs);
    DivMonotone(a - 1, b - 1, procs);
  }

  /** `u` starts where `t` ends and is no larger. */
  predicate Follows(t: Task, u: Task) {
    u.begin == t.end && u.end - u.begin <= t.end - t.begin
  }

  ghost predicate Chain(c: seq<Task>, bound: nat) {
    && (forall k :: 0 <= k < |c| ==> 0 < c[k].end - c[k].begin <= bound)
    && (forall j, k {:trigger c[j], c[k]} :: 0 <= j < k < |c| && k == j + 1 ==> Follows(c[j], c[k]))
  }

  lemma ChainCons(t: Task, c: seq<Task>, bound: nat)
    requires Chain(c, bound) && 0 < t.end - t.begin <= bound && (c != [] ==> Follows(t, c[0]))
    ensures Chain([t] + c, bound)
  {
  }

  lemma {:induction false} ChunkSizes(begin: int, remaining: nat, procs: nat, grain: nat, bound: nat)
    requires procs > 0 && (remaining > 0 ==> Share(remaining, procs) <= bound) && grain <= bound
    ensures Chain(Chunks(begin, remaining, procs, grain), bound)
    decreases remaining
  {
    if remaining > 0 {
      var n := Size(remaining, procs, grain);
      var rest := remaining - n;
      if rest > 0 { ShareMonotone(rest, remaining, procs); }
      ChunkSizes(begin + n, rest, procs, grain, bound);
      ChainCons(Task(begin, begin + n), Chunks(begin + n, rest, procs, grain), bound);
    }
  }

  /** No chunk is empty, each starts where the one before ends and is no larger, and none exceeds
      the larger of the grain and the first proportional share. */
  lemma ChunksShrink(begin: int, remaining: nat, procs: nat, grain: nat, k: nat)
    requires procs > 0 && k < |Chunks(begin, remaining, procs, grain)|
    ensures var c, bound := Chunks(begin, remaining, procs, grain), Max(grain, Share(remaining, procs));
            && 0 < c[k].end - c[k].begin <= bound
            && (k == 0 ==> c[k].begin == begin)
            && (k > 0 ==> c[k].begin == c[k - 1].end && c[k].end - c[k].begin <= c[k - 1].end - c[k - 1].begin)
            && (k == |c| - 1 ==> c[k].end == begin + remaining)
  {
    ChunkSizes(begin, remaining, procs, grain, Max(grain, Share(remaining, procs)));
    LastChunk(begin, remaining, procs, grain);
    var c := Chunks(begin, remaining, procs, grain);
    if k > 0 { assert Follows(c[k - 1], c[k]); }
  }

  lemma {:induction false} LastChunk(begin: int, remaining: nat, procs: nat, grain: nat)
    requires procs > 0 && remaining > 0
    ensures var c := Chunks(begin, remaining, procs, grain);
            c != [] && c[0].begin == begin && c[|c| - 1].end == begin + remaining
    decreases remaining
  {
    var n := Size(remaining, procs, grain);
    if n < remaining {
      LastChunk(begin + n, remaining - n, procs, grain);
    } else {
      assert Chunks(begin + n, 0, procs, grain) == [];
    }
  }

  lemma ShareBounds(remaining: nat, procs: nat)
    requires remaining > 0 && procs > 0
    ensures Share(remaining, procs) * procs >= remaining && (Share(remaining, procs) - 1) * procs < remaining
  {
    ShareIs(remaining, procs);
    var q := (remaining - 1) / procs;
    assert q * procs <= remaining - 1 < q * procs + procs;
    assert (q + 1) * procs == q * procs + procs;
  }

  /** The size of the chunk `t` is right when the range ends at `end`. */
  predicate Guided(t: Task, end: int, procs: nat, grain: nat) {
    var size, rest := t.end - t.begin, end - t.begin;
    && 0 < size <= rest && (size == rest || size >= grain) && size * procs >= rest
    && (size == 1 || size <= grain || (size - 1) * procs < rest)
  }

  lemma FirstGuided(begin: int, remaining: nat, procs: nat, grain: nat)
    requires procs > 0 && remaining > 0
    ensures Guided(Task(begin, begin + Size(remaining, procs, grain)), begin + remaining, procs, grain)
  {
    ShareBounds(remaining, procs);
    var n, share := Size(remaining, procs, grain), Share(remaining, procs);
    MulMonotone(share, n, procs);
  }

  lemma {:induction false} ChunkIsGuided(begin: int, remaining: nat, end: int, procs: nat, grain: nat, k: nat)
    requires procs > 0 && end == begin + remaining && k < |Chunks(begin, remaining, procs, grain)|
    ensures Guided(Chunks(begin, remaining, procs, grain)[k], end, procs, grain)
    decreases k
  {
    var n := Size(remaining, procs, grain);
    if k == 0 {
      FirstGuided(begin, remaining, procs, grain);
    } else {
      var more := Chunks(begin + n, remaining - n, procs, grain);
      assert Chunks(begin, remaining, procs, grain) == [Task(begin, begin + n)] + more;
      ChunkIsGuided(begin + n, remaining - n, end, procs, grain, k - 1);
      assert Chunks(begin, remaining, procs, grain)[k] == more[k - 1];
    }
  }

  /** Every chunk has the size that guided self-scheduling gives it: it is not empty; it takes the whole
      rest or at least the grain, and at least one part in `procs` of the rest; and it is no larger than
      it must be. */
  lemma ChunksGuided(begin: int, remaining: nat, procs: nat, grain: nat, k: nat)
    requires procs > 0 && k < |Chunks(begin, remaining, procs, grain)|
    ensures var t := Chunks(begin, remaining, procs, grain)[k];
            var size, rest := t.end - t.begin, begin + remaining - t.begin;
            && 0 < size <= rest && (size == rest || size >= grain) && size * procs >= rest
            && (size == 1 || size <= grain || (size - 1) * procs < rest)
  {
    ChunkIsGuided(begin, remaining, begin + remaining, procs, grain, k);
  }

  // ---------------------------------------------------------------- how many chunks there are

  function Count(remaining: nat, procs: nat, grain: nat): nat
    requires procs > 0
  {
    |Chunks(0, remaining, procs, grain)|
  }

  lemma {:induction false} CountAnywhere(begin: int, remaining: nat, procs: nat, grain: nat)
    requires procs > 0
    ensures |Chunks(begin, remaining, procs, grain)| == Count(remaining, procs, grain)
    decreases remaining
  {
    if remaining > 0 {
      var n := Size(remaining, procs, grain);
      CountAnywhere(begin + n, remaining - n, procs, grain);
      CountAnywhere(n, remaining - n, procs, grain);
    }
  }

  function Pow2(k: nat): nat {
    if k == 0 then 1 else 2 * Pow2(k - 1)
  }

  /** While at least `half` remains, each chunk takes at least one part in `procs` of `half`, so
      `steps` chunks bring the rest below `half` if `steps` such parts would. */
  lemma {:induction false} Halving(remaining: nat, procs: nat, grain: nat, half: nat, part: nat, steps: nat, few: nat)
    requires procs > 0 && half > 0 && 0 < part <= Share(half, procs)
    requires remaining < half + steps * part
    requires forall r: nat :: r < half ==> Count(r, procs, grain) <= few
    ensures Count(remaining, procs, grain) <= steps + few
    decreases remaining
  {
    if remaining >= half {
      var n := Size(remaining, procs, grain);
      ShareMonotone(half, remaining, procs);
      MulCancel(0, steps, part);
      assert steps * part == (steps - 1) * part + part;
      CountAnywhere(n, remaining - n, procs, grain);
      if n < remaining {
        Halving(remaining - n, procs, grain, half, part, steps - 1, few);
      } else {
        assert Count(0, procs, grain) == 0;
      }
    }
  }

  lemma CeilDiv(half: nat, procs: nat)
    requires half > 0 && procs > 0
    ensures ((half - 1) / procs + 1) * procs >= half
  {
    assert half - 1 == (half - 1) / procs * procs + (half - 1) % procs;
  }

  lemma SharesCover(half: nat, procs: nat)
    requires half > 0 && procs > 0
    ensures half <= procs * Share(half, procs)
  {
    ShareIs(half, procs);
    CeilDiv(half, procs);
    assert procs * Share(half, procs) == Share(half, procs) * procs;
  }

  lemma OneMoreTime(procs: nat, k: nat)
    requires k > 0
    ensures procs * (k - 1) + procs == procs * k
  {
  }

  /** Any `procs` chunks in a row at least halve what remains: with fewer than 2^k indices left
      there are at most k * procs chunks to come. */
  lemma {:induction false} CountBound(remaining: nat, procs: nat, grain: nat, k: nat)
    requires procs > 0 && remaining < Pow2(k)
    ensures Count(remaining, procs, grain) <= procs * k
    decreases k
  {
    if k > 0 {
      var half := Pow2(k - 1);
      var part := Share(half, procs);
      SharesCover(half, procs);
      forall r: nat | r < half ensures Count(r, procs, grain) <= procs * (k - 1) {
        CountBound(r, procs, grain, k - 1);
      }
      Halving(remaining, procs, grain, half, part, procs, procs * (k - 1));
      OneMoreTime(procs, k);
    }
  }

  /** With a grain there are at most as many chunks as grains fit, rounded up. */
  lemma {:induction false} CountByGrain(remaining: nat, procs: nat, grain: nat, k: nat)
    requires procs > 0 && grain > 0 && remaining <= k * grain
    ensures Count(remaining, procs, grain) <= k
    decreases remaining
  {
    if remaining > 0 {
      var n := Size(remaining, procs, grain);
      MulCancel(0, k, grain);
      assert k * grain == (k - 1) * grain + grain;
      CountAnywhere(n, remaining - n, procs, grain);
      if n < remaining {
        CountByGrain(remaining - n, procs, grain, k - 1);
      } else {
        assert Count(0, procs, grain) == 0;
      }
    }
  }

  // ---------------------------------------------------------------- the C generator

  /** A sum or difference of two 64-bit integers, modulo 2^64. */
  function Wrap(x: int): (w: nat)
    requires -U64 <= x < 2 * U64
    ensures w < U64 && w == x % U64
  {
    if x < 0 then x + U64 else if x >= U64 then x - U64 else x
  }

  /** The tasks that the C generator produces from `current` to `end`. */
  function CTasks(current: nat, end: nat, procs: nat, grain: nat): seq<Task>
    requires current < U64 && end < U64 && procs > 0
    decreases Wrap(end - current)
  {
    var remaining := Wrap(end - current);
    if remaining == 0 then []
    else
      var next := Wrap(current + Size(remaining, procs, grain));
      [Task(current, next)] + CTasks(next, end, procs, grain)
  }

  /** `s_p_gss_state_t`, with the fields as 64-bit unsigned integers. */
  class GssState {
    var current: nat
    const end: nat
    const grainSize: nat
    const procs: nat

    predicate Valid()
      reads this
    {
      current < U64 && end < U64 && grainSize < U64 && 0 < procs < U64
    }

    constructor (begin: nat, end: nat, grainSize: nat, procs: nat)
      requires begin < U64 && end < U64 && grainSize < U64 && 0 < procs < U64
      ensures Valid() && current == begin
      ensures this.end == end && this.grainSize == grainSize && this.procs == procs
    {
      current := begin;
      this.end, this.grainSize, this.procs := end, grainSize, procs;
    }

    /** `s_p_gss_generator`: the next task is written to the buffer, or the generator is done and
        leaves the buffer alone. */
    method Generate(buffer: Task) returns (done: bool, task: Task)
      requires Valid()
      modifies this
      ensures Valid()
      ensures done <==> CTasks(old(current), end, procs, grainSize) == []
      ensures done ==> task == buffer && current == old(current)
      ensures !done ==> CTasks(old(current), end, procs, grainSize) == [task] + CTasks(current, end, procs, grainSize)
    {
      var remaining := Wrap(end - current);
      if remaining == 0 {
        return true, buffer;
      }
      var next := (remaining - 1) / procs + 1;
      ShareIs(remaining, procs);
      next := Max(next, grainSize);
      next := Min(next, remaining);
      task := Task(current, Wrap(current + next));
      current := Wrap(current + next);
      done := false;
    }
  }

  /** `c_task_generator::iterator`: it holds the task that the generator produced last. */
  class TaskIterator {
    const state: GssState
    var buffer: Task
    var done: bool

    ghost predicate Valid()
      reads this, state
    {
      state.Valid()
    }

    /** The tasks still to come, the one in the buffer first. */
    ghost function Tasks(): seq<Task>
      reads this, state
      requires Valid()
    {
      if done then [] else [buffer] + CTasks(state.current, state.end, state.procs, state.grainSize)
    }

    constructor (state: GssState)
      requires state.Valid()
      modifies state
      ensures this.state == state && Valid()
      ensures Tasks() == old(CTasks(state.current, state.end, state.procs, state.grainSize))
    {
      this.state := state;
      buffer, done := Task(0, 0), false;
      new;
      done, buffer := state.Generate(buffer);
    }

    method Advance()
      requires Valid() && !done
      modifies this, state
      ensures Valid() && Tasks() == old(Tasks())[1..]
    {
      done, buffer := state.Generate(buffer);
    }
  }

  lemma {:induction false} NoWrap(begin: nat, end: nat, procs: nat, grain: nat)
    requires begin <= end < U64 && procs > 0
    ensures CTasks(begin, end, procs, grain) == Chunks(begin, end - begin, procs, grain)
    decreases end - begin
  {
    if begin < end { NoWrap(begin + Size(end - begin, procs, grain), end, procs, grain); }
  }

  /** When the bounds are in order no 64-bit sum wraps, and the tasks visit the range exactly. */
  lemma CInOrder(begin: nat, end: nat, procs: nat, grain: nat)
    requires begin <= end < U64 && procs > 0
    ensures CTasks(begin, end, procs, grain) == Chunks(begin, end - begin, procs, grain)
    ensures Visited(CTasks(begin, end, procs, grain)) == Range(begin, end)
    ensures |Visited(CTasks(begin, end, procs, grain))| == end - begin
    ensures forall k :: 0 <= k < end - begin ==> Visited(CTasks(begin, end, procs, grain))[k] == begin + k
  {
    NoWrap(begin, end, procs, grain);
    Partition(begin, end - begin, procs, grain);
  }

  /** With the bounds out of order, a first task that is not the only one makes some loop run. */
  lemma COutOfOrder(begin: nat, end: nat, procs: nat, grain: nat)
    requires end < begin < U64 && procs > 0 && Size(U64 - begin + end, procs, grain) < U64 - begin + end
    ensures Visited(CTasks(begin, end, procs, grain)) != []
  {
    var r := U64 - begin + end;
    var n := Size(r, procs, grain);
    if begin + n < U64 {
      assert Range(begin, begin + n) != [];
    } else {
      CInOrder(begin + n - U64, end, procs, grain);
      assert Range(begin + n - U64, end) != [];
    }
  }

  /** A number of indices that is dealt as a single chunk. */
  predicate Single(remaining: int, procs: int, grain: int) {
    procs == 1 || grain >= remaining || remaining == 1
  }

  /** The parallel loop visits what the sequential loop over [begin, end) would, that is nothing
      when the bounds are out of order, if and only if the bounds are in order or what remains
      modulo 2^64 is handed out as a single task. */
  lemma CExactlyWhen(begin: nat, end: nat, procs: nat, grain: nat)
    requires begin < U64 && end < U64 && procs > 0
    ensures Visited(CTasks(begin, end, procs, grain)) == Range(begin, end) <==>
            begin <= end || Single(U64 - begin + end, procs, grain)
    ensures var v := Visited(CTasks(begin, end, procs, grain));
            (|v| == Max(0, end - begin) && forall k :: 0 <= k < |v| ==> v[k] == begin + k) <==>
            begin <= end || procs == 1 || grain >= U64 - begin + end || U64 - begin + end == 1
  {
    IsRange(Visited(CTasks(begin, end, procs, grain)), begin, end);
    if begin <= end {
      CInOrder(begin, end, procs, grain);
    } else {
      var r := U64 - begin + end;
      SizeIsAll(r, procs, grain);
      if Size(r, procs, grain) == r {
        CSingle(begin, end, procs, grain);
        assert [Task(begin, end)][1..] == [];
      } else {
        COutOfOrder(begin, end, procs, grain);
      }
    }
  }

  lemma CSingle(begin: nat, end: nat, procs: nat, grain: nat)
    requires end < begin < U64 && procs > 0 && Size(U64 - begin + end, procs, grain) == U64 - begin + end
    ensures CTasks(begin, end, procs, grain) == [Task(begin, end)]
  {
    assert Wrap(end - begin) == U64 - begin + end;
    assert CTasks(end, end, procs, grain) == [];
  }

  lemma SizeIsAll(r: nat, procs: nat, grain: nat)
    requires r > 0 && procs > 0
    ensures Size(r, procs, grain) == r <==> procs == 1 || grain >= r || r == 1
  {
    ShareIs(r, procs);
    if procs > 1 && r > 1 { DivLess(r - 1, procs); }
  }

  lemma DivLess(a: nat, d: nat)
    requires a > 0 && d > 1
    ensures a / d < a
  {
    var q := a / d;
    assert q * d <= a;
    MulMonotone(2, d, q);
  }

  // ---------------------------------------------------------------- the Fortran generator

  const I63: int := 0x8000_0000_0000_0000

  predicate Int64(x: int) { -I63 <= x < I63 }

  /** A sum or difference of two signed 64-bit integers, which wraps around. */
  function WrapSigned(x: int): (w: int)
    requires -U64 <= x <= U64
    ensures Int64(w) && (Int64(x) ==> w == x)
  {
    if x >= I63 then x - U64 else if x < -I63 then x + U64 else x
  }

  /** The result differs by a multiple of 2^64. */
  lemma WrapsAround(x: int)
    requires -U64 <= x <= U64
    ensures WrapSigned(x) - x in {-U64, 0, U64}
  {
  }

  /** Integer division of Fortran, which truncates toward zero. */
  function TruncDiv(a: int, b: int): int
    requires b > 0
  {
    if a >= 0 then a / b else -((-a) / b)
  }

  lemma TruncDivSmall(a: int, b: int)
    requires Int64(a) && b > 0
    ensures if a >= 0 then 0 <= TruncDiv(a, b) <= a else a <= TruncDiv(a, b) <= 0
  {
    DivAtMost(if a >= 0 then a else -a, b);
  }

  function SignedRemaining(current: int, end: int): (r: int)
    requires Int64(current) && Int64(end)
    ensures Int64(r)
  {
    WrapSigned(WrapSigned(end - current) + 1)
  }

  /** The size of the next chunk: a negative rest is taken whole. */
  function SignedSize(remaining: int, threadCount: int, grainSize: int): (n: int)
    requires Int64(remaining) && 0 < threadCount
    ensures if remaining > 0 then 1 <= n <= remaining else n == remaining
  {
    if remaining <= 0 then remaining else Size(remaining, threadCount, Max(0, grainSize))
  }

  lemma RemainingAfter(current: int, end: int, n: int)
    requires Int64(current) && Int64(end)
    requires var r := SignedRemaining(current, end); 1 <= n <= r || n == r
    ensures SignedRemaining(WrapSigned(current + n), end) == SignedRemaining(current, end) - n
  {
  }

  /** The last index of the chunk of `n` indices, as it is computed. */
  function LastOf(current: int, n: int): (last: int)
    requires Int64(current) && Int64(n)
    ensures Int64(last)
    ensures 0 < n && current + n <= I63 ==> last == current + n - 1
  {
    WrapSigned(WrapSigned(current + n) - 1)
  }

  /** The chunks from `current` on when `remaining` indices are left, each kept as the half-open task
      that its `do` loop visits. */
  function SignedChunks(current: int, remaining: int, threadCount: int, grainSize: int): seq<Task>
    requires Int64(current) && Int64(remaining) && 0 < threadCount
    decreases if remaining < 0 then 1 else remaining
  {
    if remaining == 0 then []
    else
      var n := SignedSize(remaining, threadCount, grainSize);
      [Task(current, LastOf(current, n) + 1)]
      + SignedChunks(WrapSigned(current + n), remaining - n, threadCount, grainSize)
  }

  /** The chunks of Fortran's generator from `current` to `end` inclusive. */
  function FortranTasks(current: int, end: int, threadCount: int, grainSize: int): seq<Task>
    requires Int64(current) && Int64(end) && 0 < threadCount
  {
    SignedChunks(current, SignedRemaining(current, end), threadCount, grainSize)
  }

  /** The first chunk, and what is left after it. */
  lemma FirstChunk(current: int, end: int, threadCount: int, grainSize: int)
    requires Int64(current) && Int64(end) && 0 < threadCount && SignedRemaining(current, end) != 0
    ensures var n := SignedSize(SignedRemaining(current, end), threadCount, grainSize);
            FortranTasks(current, end, threadCount, grainSize) ==
            [Task(current, LastOf(current, n) + 1)]
            + FortranTasks(WrapSigned(current + n), end, threadCount, grainSize)
  {
    RemainingAfter(current, end, SignedSize(SignedRemaining(current, end), threadCount, grainSize));
  }

  /** `gss_scheduler`. The result of `GssNext` is the inclusive range of the next chunk. */
  class GssScheduler {
    var current: int
    const end: int
    const threadCount: int
    const grainSize: int

    predicate Valid()
      reads this
    {
      Int64(current) && Int64(end) && Int64(grainSize) && 0 < threadCount < I63
    }

    constructor (begin: int, end: int, threadCount: int, grainSize: int)
      requires Int64(begin) && Int64(end) && Int64(grainSize) && 0 < threadCount < I63
      ensures Valid() && current == begin
      ensures this.end == end && this.threadCount == threadCount && this.grainSize == grainSize
    {
      current := begin;
      this.end, this.threadCount, this.grainSize := end, threadCount, grainSize;
    }

    method Remaining() returns (remaining: int)
      requires Valid()
      ensures remaining == SignedRemaining(current, end)
    {
      remaining := WrapSigned(WrapSigned(end - current) + 1);
    }

    method NextCount(remaining: int) returns (next: int)
      requires Valid() && Int64(remaining)
      ensures remaining != 0 ==> next == SignedSize(remaining, threadCount, grainSize)
    {
      TruncDivSmall(WrapSigned(remaining - 1), threadCount);
      if remaining > 0 { ShareIs(remaining, threadCount); }
      next := WrapSigned(TruncDiv(WrapSigned(remaining - 1), threadCount) + 1);
      next := Max(next, grainSize);
      next := Min(next, remaining);
    }

    /** The bounds of the next chunk, and the step over it. */
    method Advance(next: int) returns (first: int, last: int)
      requires Valid() && Int64(next)
      modifies this
      ensures Valid() && current == WrapSigned(old(current) + next)
      ensures first == old(current) && last == LastOf(first, next)
    {
      first := current;
      last := WrapSigned(WrapSigned(current + next) - 1);
      current := WrapSigned(current + next);
    }

    method GssNext() returns (hasValue: bool, first: int, last: int)
      requires Valid()
      modifies this
      ensures Valid()
      ensures !hasValue ==> FortranTasks(old(current), end, threadCount, grainSize) == [] && current == old(current)
      ensures hasValue ==> FortranTasks(old(current), end, threadCount, grainSize) ==
                           [Task(first, last + 1)] + FortranTasks(current, end, threadCount, grainSize)
    {
      var remaining := Remaining();
      if remaining == 0 {
        return false, 0, 0;
      }
      var next := NextCount(remaining);
      FirstChunk(current, end, threadCount, grainSize);
      hasValue := true;
      first, last := Advance(next);
    }
  }

  lemma {:induction false} SignedInOrder(begin: int, remaining: nat, threadCount: int, grainSize: int)
    requires Int64(begin) && remaining < I63 && begin + remaining <= I63 && 0 < threadCount
    ensures SignedChunks(begin, remaining, threadCount, grainSize) ==
            Chunks(begin, remaining, threadCount, Max(0, grainSize))
    decreases remaining
  {
    if remaining > 0 {
      var n := Size(remaining, threadCount, Max(0, grainSize));
      if n < remaining { SignedInOrder(begin + n, remaining - n, threadCount, grainSize); }
    }
  }

  /** With fewer than 2^63 indices and the bounds in order, the chunks are the guided chunks. */
  lemma FortranInOrder(begin: int, end: int, threadCount: int, grainSize: int)
    requires Int64(begin) && Int64(end) && 0 < threadCount && 0 <= end + 1 - begin < I63
    ensures FortranTasks(begin, end, threadCount, grainSize) ==
            Chunks(begin, end + 1 - begin, threadCount, Max(0, grainSize))
  {
    assert SignedRemaining(begin, end) == end + 1 - begin;
    SignedInOrder(begin, end + 1 - begin, threadCount, grainSize);
  }

  /** When the number of remaining indices comes out negative, the range is dealt as one chunk. */
  lemma FortranOneChunk(begin: int, end: int, threadCount: int, grainSize: int)
    requires Int64(begin) && Int64(end) && 0 < threadCount
    requires var r := SignedRemaining(begin, end);
             r < 0 || (r > 0 && Size(r, threadCount, Max(0, grainSize)) == r)
    ensures FortranTasks(begin, end, threadCount, grainSize) == [Task(begin, end + 1)]
    ensures Visited(FortranTasks(begin, end, threadCount, grainSize)) == Range(begin, end + 1)
  {
    var r := SignedRemaining(begin, end);
    assert LastOf(begin, r) == end;
    assert SignedChunks(WrapSigned(begin + r), 0, threadCount, grainSize) == [];
    assert [Task(begin, end + 1)][1..] == [] && Range(begin, end + 1) + [] == Range(begin, end + 1);
  }

  lemma InOrderVisits(begin: int, remaining: nat, threadCount: int, grainSize: int)
    requires Int64(begin) && 0 < remaining < I63 && begin + remaining <= I63 && 0 < threadCount
    ensures Visited(SignedChunks(begin, remaining, threadCount, grainSize)) != []
  {
    SignedInOrder(begin, remaining, threadCount, grainSize);
    VisitedInOrder(begin, remaining, threadCount, Max(0, grainSize));
  }

  /** With the bounds so far out of order that the number of indices wraps, a first chunk that is not
      the only one makes some loop run. */
  lemma FortranOutOfOrder(begin: int, end: int, threadCount: int, grainSize: int)
    requires Int64(begin) && Int64(end) && 0 < threadCount && end + 1 - begin < -I63
    requires var r := end + 1 - begin + U64; Size(r, threadCount, Max(0, grainSize)) < r
    ensures Visited(FortranTasks(begin, end, threadCount, grainSize)) != []
  {
    var r := end + 1 - begin + U64;
    var n := Size(r, threadCount, Max(0, grainSize));
    assert SignedRemaining(begin, end) == r;
    if begin + n <= I63 {
      assert Range(begin, begin + n) != [];
    } else {
      InOrderVisits(begin + n - U64, r - n, threadCount, grainSize);
    }
  }

  /** The Fortran loop visits every index of [begin, end] once, and nothing when the range is
      inverted, if and only if the range is not all of the 64-bit integers, and is not inverted by
      more than 2^63 unless what remains modulo 2^64 is a single chunk. */
  lemma FortranExactlyWhen(begin: int, end: int, threadCount: int, grainSize: int)
    requires Int64(begin) && Int64(end) && 0 < threadCount && Int64(grainSize)
    ensures Visited(FortranTasks(begin, end, threadCount, grainSize)) == Range(begin, end + 1) <==>
            && end + 1 - begin < U64
            && (end + 1 - begin >= -I63 || Single(end + 1 - begin + U64, threadCount, grainSize))
  {
    var n := end + 1 - begin;
    if n == U64 {
      assert FortranTasks(begin, end, threadCount, grainSize) == [];
    } else if 0 <= n < I63 {
      FortranInOrder(begin, end, threadCount, grainSize);
      Partition(begin, n, threadCount, Max(0, grainSize));
    } else if n >= -I63 {
      FortranOneChunk(begin, end, threadCount, grainSize);
    } else {
      SizeIsAll(n + U64, threadCount, Max(0, grainSize));
      if Size(n + U64, threadCount, Max(0, grainSize)) == n + U64 {
        FortranOneChunk(begin, end, threadCount, grainSize);
      } else {
        FortranOutOfOrder(begin, end, threadCount, grainSize);
      }
    }
  }

  /** The same, with the order spelled out. */
  lemma FortranOrderExactlyWhen(begin: int, end: int, threadCount: int, grainSize: int)
    requires Int64(begin) && Int64(end) && 0 < threadCount && Int64(grainSize)
    ensures var v, n := Visited(FortranTasks(begin, end, threadCount, grainSize)), end + 1 - begin;
            (|v| == Max(0, n) && forall k :: 0 <= k < |v| ==> v[k] == begin + k) <==>
            n < U64 && (n >= -I63 || threadCount == 1 || grainSize >= n + U64 || n + U64 == 1)
  {
    FortranExactlyWhen(begin, end, threadCount, grainSize);
    IsRange(Visited(FortranTasks(begin, end, threadCount, grainSize)), begin, end + 1);
  }

  /** Fortran over [begin, end] and C over [begin, end + 1) deal the very same chunks if and only if
      the range is not inverted and has fewer than 2^63 indices, or what remains modulo 2^64 is a
      single chunk. */
  lemma LanguagesAgree(begin: nat, end: int, procs: nat, grain: nat)
    requires -1 <= end < I63 && begin < I63 && 0 < procs && grain < I63
    ensures FortranTasks(begin, end, procs, grain) == CTasks(begin, end + 1, procs, grain) <==>
            0 <= end + 1 - begin < I63 || Single(Wrap(end + 1 - begin), procs, grain)
  {
    var n := end + 1 - begin;
    if 0 <= n < I63 {
      AgreeInOrder(begin, end, procs, grain);
    } else {
      FortranOneChunk(begin, end, procs, grain);
      OneChunkInC(begin, end + 1, procs, grain);
    }
  }

  lemma AgreeInOrder(begin: nat, end: int, procs: nat, grain: nat)
    requires -1 <= end < I63 && begin < I63 && 0 < procs && 0 <= end + 1 - begin < I63
    ensures FortranTasks(begin, end, procs, grain) == CTasks(begin, end + 1, procs, grain)
  {
    CInOrder(begin, end + 1, procs, grain);
    FortranInOrder(begin, end, procs, grain);
  }

  /** A range that C deals as one chunk, when Fortran does. */
  lemma OneChunkInC(begin: nat, end: nat, procs: nat, grain: nat)
    requires begin < I63 && end <= I63 && 0 < procs && (end < begin || end - begin == I63)
    ensures CTasks(begin, end, procs, grain) == [Task(begin, end)] <==> Single(Wrap(end - begin), procs, grain)
  {
    SizeIsAll(Wrap(end - begin), procs, grain);
    if end < begin { InvertedInC(begin, end, procs, grain); } else { WholeHalf(procs, grain); }
  }

  /** An inverted range in C, against the single empty chunk of Fortran. */
  lemma InvertedInC(begin: nat, end: nat, procs: nat, grain: nat)
    requires end < begin < U64 && 0 < procs
    ensures CTasks(begin, end, procs, grain) == [Task(begin, end)] <==>
            Size(U64 - begin + end, procs, grain) == U64 - begin + end
  {
    if Size(U64 - begin + end, procs, grain) == U64 - begin + end {
      CSingle(begin, end, procs, grain);
    } else {
      COutOfOrder(begin, end, procs, grain);
      assert [Task(begin, end)][1..] == [];
    }
  }

  /** The range [0, 2^63) in C. */
  lemma WholeHalf(procs: nat, grain: nat)
    requires 0 < procs
    ensures CTasks(0, I63, procs, grain) == [Task(0, I63)] <==> Size(I63, procs, grain) == I63
  {
    var n := Size(I63, procs, grain);
    var tasks := CTasks(0, I63, procs, grain);
    assert tasks[0] == Task(0, n);
    if n == I63 { assert CTasks(I63, I63, procs, grain) == []; }
  }
}
