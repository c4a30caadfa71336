/** The schedule and a reduction together: whatever values the ranks were dealt, and however the
    generators cut the loop into them, the ranks' copies combine to the sequential fold. */
module Headline {
  import opened Basics
  import opened Protocol
  import opened ProtocolInvariant
  import opened ProtocolSafety
  import opened ProtocolTheorems
  import opened ProtocolProgress
  import opened Reduction
  import Gss
  import Collapse

  /** A run from the start, over any number of schedules, has just ended its last one in `s`. */
  ghost predicate Finished(clients: nat, acts: seq<Action>, s: State) {
    ValidRun(Idle(clients), acts) && After(Idle(clients), acts) == s && s.root.Out?
  }

  /** When the schedule is over, every rank holds exactly the positions that it owns. */
  lemma WhatRanksHold(clients: nat, acts: seq<Action>, s: State)
    requires Finished(clients, acts, s)
    ensures s.consumed == Positions(s.owner, 0)
    ensures forall c :: 0 <= c < |s.links| ==> s.links[c].got == Positions(s.owner, c + 1)
    ensures |s.owner| == s.count && (forall k :: 0 <= k < |s.owner| ==> s.owner[k] < |s.links| + 1)
  {
    var _ := Reached(clients, acts);
    forall c | 0 <= c < |s.links| ensures s.links[c].got == Positions(s.owner, c + 1) {
      QuietLink(s.links[c], ViewOf(s, c));
    }
  }

  lemma {:induction false} ScheduleKept(s: State, acts: seq<Action>)
    requires ValidRun(s, acts) && SameSchedule(acts)
    ensures After(s, acts).count == s.count && |After(s, acts).links| == |s.links|
    decreases |acts|
  {
    if acts != [] {
      assert !acts[0].Gather?;
      ScheduleKept(Apply(s, acts[0]), acts[1..]);
    }
  }

  /** For any number of clients and values there is a run that ends a schedule over them. */
  lemma SomeSchedule(clients: nat, count: nat) returns (acts: seq<Action>, s: State)
    ensures Finished(clients, acts, s) && s.count == count && |s.links| == clients
  {
    var a := Gather(count, seq(clients, _ => 1));
    IdleOk(clients);
    StepOk(Idle(clients), a);
    var rest := CanFinish(Apply(Idle(clients), a));
    ScheduleKept(Apply(Idle(clients), a), rest);
    acts := [a] + rest;
    assert acts[1..] == rest;
    s := After(Idle(clients), acts);
  }

  lemma {:induction false} FoldFirst<T(!new)>(m: Monoid<T>, a: T, x: T, rest: seq<T>)
    requires Commutative(m) && m.has(a) && m.has(x) && AllIn(m, rest)
    ensures Fold(m, [m.op(a, x)] + rest) == m.op(a, Fold(m, [x] + rest))
  {
    assert Closed(m, a, x);
    FoldAppend(m, [m.op(a, x)], rest);
    FoldAppend(m, [x], rest);
    FoldOne(m, m.op(a, x));
    FoldOne(m, x);
    FoldIn(m, rest);
    assert Associates(m, a, x, Fold(m, rest));
  }

  /** The original value is at hand in the root's copy alone, and comes out in front. */
  lemma {:induction false} FoldRoot<T(!new)>(m: Monoid<T>, a: T, copies: seq<T>, parts: seq<T>)
    requires Commutative(m) && |copies| == |parts| > 0 && m.has(a) && AllIn(m, parts)
    requires copies[0] == m.op(a, parts[0]) && forall k :: 1 <= k < |parts| ==> copies[k] == m.op(m.unit, parts[k])
    ensures Fold(m, copies) == m.op(a, Fold(m, parts))
  {
    forall k | 1 <= k < |parts| ensures copies[k] == parts[k] { assert Neutral(m, parts[k]); }
    FoldFirst(m, a, parts[0], parts[1..]);
    assert [parts[0]] + parts[1..] == parts;
    assert [m.op(a, parts[0])] + parts[1..] == copies;
  }

  /** After any run of the schedule: when the root has folded the items it was dealt into the original
      value, and each client its own into the unit, the reduction of their copies gives the original
      value combined with the fold over all items in order. */
  lemma {:induction false} EndToEnd<T(!new)>(m: Monoid<T>, original: T, items: seq<T>, copies: seq<T>,
                                             clients: nat, acts: seq<Action>, s: State)
    requires Commutative(m) && m.has(original) && AllIn(m, items)
    requires Finished(clients, acts, s) && s.count == |items| && |copies| == |s.links| + 1
    requires |s.owner| <= |items|
    requires forall r :: 0 <= r < |copies| ==>
               copies[r] == m.op(if r == 0 then original else m.unit, Part(m, items, s.owner, r))
    ensures Fold(m, copies) == m.op(original, Fold(m, items))
  {
    WhatRanksHold(clients, acts, s);
    var parts := Parts(m, items, s.owner, |copies|);
    PartsIn(m, items, s.owner, |copies|);
    FoldRoot(m, original, copies, parts);
    DealingDoesNotMatter(m, items, s.owner, |copies|);
    assert items[..|s.owner|] == items;
  }

  // ---------------------------------------------------------------- loops in pieces

  function TaskPieces(tasks: seq<Gss.Task>): (p: seq<seq<int>>)
    ensures |p| == |tasks| && Flatten(p) == Gss.Visited(tasks)
    ensures forall k :: 0 <= k < |tasks| ==> p[k] == Gss.Range(tasks[k].begin, tasks[k].end)
  {
    if tasks == [] then []
    else
      var p := [Gss.Range(tasks[0].begin, tasks[0].end)] + TaskPieces(tasks[1..]);
      assert p[1..] == TaskPieces(tasks[1..]);
      p
  }

  function ChunkPieces(chunks: seq<Collapse.Chunk>, iEnd: nat): (p: seq<seq<Collapse.Point>>)
    ensures |p| == |chunks| && Flatten(p) == Collapse.ChunkPoints(chunks, iEnd)
  {
    if chunks == [] then []
    else
      var n := Max(0, Collapse.Left(chunks[0].begin, iEnd) - Collapse.Left(chunks[0].end, iEnd));
      var p := [Collapse.Points(chunks[0].begin, iEnd, n)] + ChunkPieces(chunks[1..], iEnd);
      assert p[1..] == ChunkPieces(chunks[1..], iEnd);
      p
  }
}
