/** The collapsed two-level loop: a stepping function walks the points (i, j) with j <= i < iEnd row
    by row, a generator deals them in guided chunks by letting it step, and the threads walk each
    chunk with single steps. */
module Collapse {
  import opened Basics
  import opened Gss

  datatype Point = Point(i: nat, j: nat)

  /** Where a walk stopped, and over how many points. */
  datatype Step = Step(end: Point, count: nat)

  // ---------------------------------------------------------------- the stepping function

  /** Walk over up to `n` points from `p`, in the order of the nested loops entered at the inner
      one. */
  function Walk(p: Point, iEnd: nat, n: nat): Step
    decreases Max(0, iEnd - p.i), Max(0, p.i + 1 - p.j)
  {
    if p.j > p.i then
      if p.i + 1 < iEnd then Walk(Point(p.i + 1, 0), iEnd, n) else Step(Point(p.i + 1, p.j), 0)
    else if n == 0 then Step(p, 0)
    else
      var s := Walk(Point(p.i, p.j + 1), iEnd, n - 1);
      Step(s.end, s.count + 1)
  }

  /** `my_gen_func`. */
  method MyGenFunc(current: Point, finalEnd: Point, expectCount: nat) returns (res: Step)
    ensures res == Walk(current, finalEnd.i, expectCount)
  {
    var count: nat, i: nat, j: nat := 0, current.i, current.j;
    ghost var goal := Walk(current, finalEnd.i, expectCount);
    while true
      invariant count <= expectCount
      invariant goal == Step(Walk(Point(i, j), finalEnd.i, expectCount - count).end,
                             count + Walk(Point(i, j), finalEnd.i, expectCount - count).count)
      decreases Max(0, finalEnd.i - i)
    {
      while j <= i
        invariant count <= expectCount
        invariant goal == Step(Walk(Point(i, j), finalEnd.i, expectCount - count).end,
                               count + Walk(Point(i, j), finalEnd.i, expectCount - count).count)
      {
        if count == expectCount {
          return Step(Point(i, j), count);
        }
        count := count + 1;
        j := j + 1;
      }
      i := i + 1;
      if i >= finalEnd.i {
        break;
      }
      j := 0;
    }
    res := Step(Point(i, j), count);
  }

  /** The number of points above row `i`. */
  function Tri(i: nat): nat {
    if i == 0 then 0 else Tri(i - 1) + i
  }

  lemma {:induction false} TriClosed(i: nat)
    ensures 2 * Tri(i) == i * (i + 1)
  {
    if i > 0 { TriClosed(i - 1); }
  }

  lemma {:induction false} TriGrows(i: nat, k: nat)
    requires i < k
    ensures Tri(i) + i + 1 <= Tri(k)
    decreases k
  {
    if i + 1 < k { TriGrows(i, k - 1); }
  }

  predicate Inside(p: Point, iEnd: nat) {
    p.j <= p.i < iEnd
  }

  /** Where the walk stands when it has passed the last point. */
  function Terminal(iEnd: nat): Point { Point(iEnd, iEnd) }

  predicate OnWalk(p: Point, iEnd: nat) {
    Inside(p, iEnd) || p.i == iEnd
  }

  /** The points from `p` to the end of the triangle. */
  function Left(p: Point, iEnd: nat): (n: nat)
    ensures Inside(p, iEnd) ==> n > 0
  {
    if Inside(p, iEnd) then
      TriGrows(p.i, iEnd);
      Tri(iEnd) - Tri(p.i) - p.j
    else 0
  }

  /** Different points of the triangle have different numbers of points left. */
  lemma LeftInjective(p: Point, q: Point, iEnd: nat)
    requires Inside(p, iEnd) && Inside(q, iEnd) && Left(p, iEnd) == Left(q, iEnd)
    ensures p == q
  {
    TriGrows(p.i, iEnd);
    TriGrows(q.i, iEnd);
    if p.i < q.i { TriGrows(p.i, q.i); }
    if q.i < p.i { TriGrows(q.i, p.i); }
  }

  /** A walk takes as many points as it is asked for, or all that are left; it then stands that many
      points further on, or at the terminal point. */
  lemma {:induction false} WalkExact(p: Point, iEnd: nat, n: nat)
    requires Inside(p, iEnd)
    ensures var s := Walk(p, iEnd, n);
            && s.count == Min(n, Left(p, iEnd))
            && (n < Left(p, iEnd) ==> Inside(s.end, iEnd) && Left(s.end, iEnd) == Left(p, iEnd) - n)
            && (n >= Left(p, iEnd) ==> s.end == Terminal(iEnd))
    decreases iEnd - p.i, p.i - p.j
  {
    TriGrows(p.i, iEnd);
    if n > 0 {
      if p.j < p.i {
        WalkExact(Point(p.i, p.j + 1), iEnd, n - 1);
      } else if p.i + 1 < iEnd {
        WalkExact(Point(p.i + 1, 0), iEnd, n - 1);
      }
    }
  }

  lemma {:induction false} WalkSplit(p: Point, iEnd: nat, a: nat, b: nat)
    requires Inside(p, iEnd) && a < Left(p, iEnd)
    ensures var q := Walk(p, iEnd, a).end;
            Walk(p, iEnd, a + b) == Step(Walk(q, iEnd, b).end, a + Walk(q, iEnd, b).count)
    decreases a
  {
    if a > 0 {
      WalkExact(p, iEnd, 1);
      var next := if p.j < p.i then Point(p.i, p.j + 1) else Point(p.i + 1, 0);
      assert Walk(Point(p.i, p.j + 1), iEnd, 0).end == next;
      WalkSplit(next, iEnd, a - 1, b);
    }
  }

  /** Walking on is additive, in where it ends and in how many points it takes, if and only if the
      first walk stops inside the triangle or the second takes no step: from the terminal point the
      stepping function runs out of the triangle. */
  lemma AdditiveExactlyWhen(p: Point, iEnd: nat, a: nat, b: nat)
    requires Inside(p, iEnd)
    ensures var s := Walk(p, iEnd, a);
            var t := Walk(s.end, iEnd, b);
            Step(t.end, s.count + t.count) == Walk(p, iEnd, a + b) <==> a < Left(p, iEnd) || b == 0
  {
    WalkExact(p, iEnd, a);
    WalkExact(p, iEnd, a + b);
    if a < Left(p, iEnd) {
      WalkSplit(p, iEnd, a, b);
    } else if b > 0 {
      assert Walk(Terminal(iEnd), iEnd, b).end == Point(iEnd + 1, iEnd + 1);
    }
  }

  // ---------------------------------------------------------------- the points of a chunk

  /** The first `n` points from `p`. */
  function Points(p: Point, iEnd: nat, n: nat): (s: seq<Point>)
    ensures |s| == n
    decreases n
  {
    if n == 0 then [] else [p] + Points(Walk(p, iEnd, 1).end, iEnd, n - 1)
  }

  /** The k-th of them is the one from which k fewer are left, so all the points from `p` on are
      there, each once. */
  lemma {:induction false} PointsExact(p: Point, iEnd: nat, n: nat, q: Point)
    requires Inside(p, iEnd) && n <= Left(p, iEnd) && Inside(q, iEnd)
    ensures q in Points(p, iEnd, n) <==> Left(p, iEnd) - n < Left(q, iEnd) <= Left(p, iEnd)
    ensures forall k :: 0 <= k < n ==>
              Inside(Points(p, iEnd, n)[k], iEnd) && Left(Points(p, iEnd, n)[k], iEnd) == Left(p, iEnd) - k
    decreases n
  {
    if n > 0 {
      WalkExact(p, iEnd, 1);
      if Left(p, iEnd) == Left(q, iEnd) { LeftInjective(p, q, iEnd); }
      if n > 1 {
        PointsExact(Walk(p, iEnd, 1).end, iEnd, n - 1, q);
      }
    }
  }

  lemma {:induction false} PointsSplit(p: Point, iEnd: nat, a: nat, b: nat)
    requires Inside(p, iEnd) && a + b <= Left(p, iEnd)
    ensures Points(p, iEnd, a + b) == Points(p, iEnd, a) + Points(Walk(p, iEnd, a).end, iEnd, b)
    decreases a
  {
    if a > 0 {
      WalkExact(p, iEnd, 1);
      if a > 1 || b > 0 {
        var q := Walk(p, iEnd, 1).end;
        PointsSplit(q, iEnd, a - 1, b);
        WalkSplit(p, iEnd, 1, a - 1);
        assert Walk(p, iEnd, a).end == Walk(q, iEnd, a - 1).end;
      }
    }
  }

  /** The threads' loop over a chunk: single steps from its begin until its end is met. It visits
      exactly the points of the chunk, and it does stop. */
  method RunChunk(begin: Point, end: Point, finalEnd: Point, ghost n: nat) returns (visited: seq<Point>)
    requires Inside(begin, finalEnd.i) && n <= Left(begin, finalEnd.i) && end == Walk(begin, finalEnd.i, n).end
    ensures visited == Points(begin, finalEnd.i, n)
  {
    var ij := begin;
    visited := [];
    ghost var k := 0;
    WalkExact(begin, finalEnd.i, n);
    while ij.i != end.i || ij.j != end.j
      invariant k <= n && ij == Walk(begin, finalEnd.i, k).end
      invariant visited == Points(begin, finalEnd.i, k)
      decreases n - k
    {
      visited := visited + [ij];
      WalkExact(begin, finalEnd.i, k);
      WalkSplit(begin, finalEnd.i, k, 1);
      PointsSplit(begin, finalEnd.i, k, 1);
      assert Points(ij, finalEnd.i, 1) == [ij];
      var s := MyGenFunc(ij, finalEnd, 1);
      ij, k := s.end, k + 1;
    }
    if k < n {
      WalkExact(begin, finalEnd.i, k);
    }
  }

  // ---------------------------------------------------------------- the generator

  datatype Chunk = Chunk(begin: Point, end: Point)

  /** A chunk, the end, or one of the two assertions. */
  datatype Outcome = Done | Deal(chunk: Chunk) | AssertionFailed

  /** `s_p_collapse_2_gss_state_t`. */
  class CollapseState {
    var current: Point
    const end: Point
    var remaining: nat
    const grainSize: nat
    const procs: nat

    predicate Valid()
      reads this
    {
      remaining < U64 && grainSize < U64 && 0 < procs < U64
    }

    constructor (begin: Point, end: Point, allIndexCount: nat, grainSize: nat, procs: nat)
      requires allIndexCount < U64 && grainSize < U64 && 0 < procs < U64
      ensures Valid() && current == begin && remaining == allIndexCount
      ensures this.end == end && this.grainSize == grainSize && this.procs == procs
    {
      current, remaining := begin, allIndexCount;
      this.end, this.grainSize, this.procs := end, grainSize, procs;
    }

    /** The size of the next chunk, in 64-bit arithmetic. */
    method NextCount() returns (next: nat)
      requires Valid()
      ensures next == if remaining == 0 then 0 else Size(remaining, procs, grainSize)
    {
      DivAtMost(Wrap(remaining - 1), procs);
      next := Wrap(Wrap(remaining - 1) / procs + 1);
      next := Max(next, grainSize);
      next := Min(next, remaining);
      if remaining > 0 {
        DivAtMost(remaining - 1, procs);
        ShareIs(remaining, procs);
      }
    }

    /** `s_p_collapse_2_gss_generator`. */
    method Generate() returns (outcome: Outcome)
      requires Valid() && OnWalk(current, end.i)
      modifies this
      ensures Valid()
      ensures old(All(current, end.i, remaining, procs, grainSize)) ==
              match outcome
              case Done => Some([])
              case AssertionFailed => None
              case Deal(chunk) => Cons(chunk, All(current, end.i, remaining, procs, grainSize))
      ensures outcome.Deal? ==> OnWalk(current, end.i) && remaining < old(remaining)
      ensures outcome.Done? ==> current == old(current) && remaining == old(remaining)
    {
      if current.i == end.i {
        outcome := if remaining == 0 then Done else AssertionFailed;
        return;
      }
      var next := NextCount();
      var genRes := MyGenFunc(current, end, next);
      WalkExact(current, end.i, next);
      if genRes.count == 0 {
        return AssertionFailed;
      }
      outcome := Deal(Chunk(current, genRes.end));
      current := genRes.end;
      remaining := Wrap(remaining - genRes.count);
    }
  }

  /** All the chunks that the generator deals from `p` on, or none if an assertion fails on the
      way. */
  function All(p: Point, iEnd: nat, remaining: nat, procs: nat, grain: nat): Option<seq<Chunk>>
    requires procs > 0
    decreases remaining
  {
    if p.i == iEnd then if remaining == 0 then Some([]) else None
    else if remaining == 0 then None
    else
      var s := Walk(p, iEnd, Size(remaining, procs, grain));
      if s.count == 0 || s.count > remaining then None
      else Cons(Chunk(p, s.end), All(s.end, iEnd, remaining - s.count, procs, grain))
  }

  function Cons(c: Chunk, rest: Option<seq<Chunk>>): Option<seq<Chunk>> {
    match rest
    case None => None
    case Some(chunks) => Some([c] + chunks)
  }

  /** One call inside the triangle deals a chunk, whatever count it was told, and leaves that many
      points fewer. */
  lemma AllNext(p: Point, iEnd: nat, remaining: nat, procs: nat, grain: nat)
    requires Inside(p, iEnd) && remaining > 0 && procs > 0
    ensures var s := Walk(p, iEnd, Size(remaining, procs, grain));
            && 0 < s.count <= remaining && OnWalk(s.end, iEnd) && Left(s.end, iEnd) == Left(p, iEnd) - s.count
            && All(p, iEnd, remaining, procs, grain) ==
               Cons(Chunk(p, s.end), All(s.end, iEnd, remaining - s.count, procs, grain))
  {
    WalkExact(p, iEnd, Size(remaining, procs, grain));
  }

  /** No assertion of the generator ever fails if and only if it was told the right number of
      points. */
  lemma {:induction false} AssertsNeverFail(p: Point, iEnd: nat, remaining: nat, procs: nat, grain: nat)
    requires OnWalk(p, iEnd) && procs > 0
    ensures All(p, iEnd, remaining, procs, grain).Some? <==> remaining == Left(p, iEnd)
    decreases remaining
  {
    if Inside(p, iEnd) && remaining > 0 {
      AllNext(p, iEnd, remaining, procs, grain);
      var s := Walk(p, iEnd, Size(remaining, procs, grain));
      AssertsNeverFail(s.end, iEnd, remaining - s.count, procs, grain);
    }
  }

  /** What the threads visit in all the chunks. */
  function ChunkPoints(chunks: seq<Chunk>, iEnd: nat): seq<Point> {
    if chunks == [] then []
    else
      Points(chunks[0].begin, iEnd, Max(0, Left(chunks[0].begin, iEnd) - Left(chunks[0].end, iEnd)))
      + ChunkPoints(chunks[1..], iEnd)
  }

  /** The first chunk and the points that are left after it. */
  lemma FirstChunk(p: Point, iEnd: nat, procs: nat, grain: nat)
    requires Inside(p, iEnd) && procs > 0
    ensures var n := Size(Left(p, iEnd), procs, grain);
            var q := Walk(p, iEnd, n).end;
            && Points(p, iEnd, Left(p, iEnd)) == Points(p, iEnd, n) + Points(q, iEnd, Left(q, iEnd))
            && Count(Left(p, iEnd), procs, grain) == 1 + Count(Left(q, iEnd), procs, grain)
  {
    var r := Left(p, iEnd);
    var n := Size(r, procs, grain);
    AllNext(p, iEnd, r, procs, grain);
    WalkExact(p, iEnd, n);
    PointsSplit(p, iEnd, n, r - n);
    CountAnywhere(n, r - n, procs, grain);
  }

  lemma ChunkPointsCons(c: Chunk, rest: seq<Chunk>, iEnd: nat)
    requires Left(c.end, iEnd) <= Left(c.begin, iEnd)
    ensures ChunkPoints([c] + rest, iEnd) ==
            Points(c.begin, iEnd, Left(c.begin, iEnd) - Left(c.end, iEnd)) + ChunkPoints(rest, iEnd)
  {
    assert ([c] + rest)[1..] == rest;
  }

  /** The chunks visit every point from `p` to the end of the triangle, once and in order, and
      there are as many of them as guided chunks of an interval of that length. */
  lemma {:induction false} ChunksPartition(p: Point, iEnd: nat, procs: nat, grain: nat) returns (chunks: seq<Chunk>)
    requires OnWalk(p, iEnd) && procs > 0
    ensures All(p, iEnd, Left(p, iEnd), procs, grain) == Some(chunks)
    ensures ChunkPoints(chunks, iEnd) == Points(p, iEnd, Left(p, iEnd))
    ensures |chunks| == Count(Left(p, iEnd), procs, grain)
    decreases Left(p, iEnd)
  {
    chunks := [];
    if Left(p, iEnd) > 0 {
      var q := Walk(p, iEnd, Size(Left(p, iEnd), procs, grain)).end;
      AllNext(p, iEnd, Left(p, iEnd), procs, grain);
      WalkExact(p, iEnd, Size(Left(p, iEnd), procs, grain));
      FirstChunk(p, iEnd, procs, grain);
      var rest := ChunksPartition(q, iEnd, procs, grain);
      ChunkPointsCons(Chunk(p, q), rest, iEnd);
      chunks := [Chunk(p, q)] + rest;
    }
  }

  /** The k-th chunk is the k-th guided chunk of an interval with as many indices as there are points
      left: it begins as many points from `p` on, and ends as many. */
  lemma {:induction false} ChunksAreGuided(p: Point, iEnd: nat, procs: nat, grain: nat, chunks: seq<Chunk>,
                                           offset: int, k: nat)
    requires OnWalk(p, iEnd) && procs > 0 && k < |chunks|
    requires All(p, iEnd, Left(p, iEnd), procs, grain) == Some(chunks)
    ensures var t := Chunks(offset, Left(p, iEnd), procs, grain);
            && k < |t|
            && Left(chunks[k].begin, iEnd) == Left(p, iEnd) - (t[k].begin - offset)
            && Left(chunks[k].end, iEnd) == Left(p, iEnd) - (t[k].end - offset)
    decreases k
  {
    var n := Size(Left(p, iEnd), procs, grain);
    var q := Walk(p, iEnd, n).end;
    AllNext(p, iEnd, Left(p, iEnd), procs, grain);
    WalkExact(p, iEnd, n);
    ConsIsSome(Chunk(p, q), All(q, iEnd, Left(q, iEnd), procs, grain), chunks);
    var t, more := Chunks(offset, Left(p, iEnd), procs, grain), Chunks(offset + n, Left(q, iEnd), procs, grain);
    assert t == [Task(offset, offset + n)] + more;
    if k > 0 {
      ChunksAreGuided(q, iEnd, procs, grain, chunks[1..], offset + n, k - 1);
      assert t[k] == more[k - 1] && chunks[k] == chunks[1..][k - 1];
    }
  }

  lemma ConsIsSome(c: Chunk, rest: Option<seq<Chunk>>, chunks: seq<Chunk>)
    requires Cons(c, rest) == Some(chunks)
    ensures chunks != [] && chunks[0] == c && rest == Some(chunks[1..])
  {
  }
}
