/** A parallel region from its entry to its exit: the ranks' memories, the threads that fold the loop
    into them, and the reduction of all areas into the leader's memory. */
module Region {
  import opened Basics
  import opened Protocol
  import opened Arithmetic
  import opened Sums
  import opened Pages
  import opened PageScan
  import opened Elements
  import opened Reduction
  import opened ReduceAreas
  import opened Headline
  import Threads
  import Replica
  import BigMpi
  import Gss
  import Collapse

  // ---------------------------------------------------------------- the reduce areas of a region

  /** A reduce area as the user gives it: `count` elements of a type, and an operator. `m` is what the
      operator does to the elements as they are stored. */
  datatype Reduce = Reduce(begin: nat, count: nat, t: ElementType, op: Operator, m: Monoid<nat>)

  function ElemsOf(r: Reduce): Elems { Elems(r.begin, SizeOf(r.t), r.count) }

  /** A supported area that is not empty. About floating-point operators nothing is assumed. */
  ghost predicate Proper(r: Reduce) {
    r.begin > 0 && r.count > 0 && IdentityByte(r.t, r.op).Some? && (!IsFloat(r.t) ==> r.m == MonoidOf(r.t, r.op))
  }

  ghost predicate AllProper(reduces: seq<Reduce>) {
    forall k :: 0 <= k < |reduces| ==> Proper(reduces[k])
  }

  function AllElems(reduces: seq<Reduce>): (s: seq<Elems>)
    ensures |s| == |reduces|
  {
    seq(|reduces|, k requires 0 <= k < |reduces| => ElemsOf(reduces[k]))
  }

  lemma {:induction false} NotEmpty(r: Reduce)
    requires Proper(r)
    ensures r.count * SizeOf(r.t) > 0
  {
    Multiples(0, r.count, SizeOf(r.t));
  }

  /** The areas as the sync knows them. */
  function Filled(reduces: seq<Reduce>): (s: seq<Replica.ReduceArea>)
    requires AllProper(reduces)
    ensures |s| == |reduces|
  {
    seq(|reduces|, k requires 0 <= k < |reduces| && Proper(reduces[k]) =>
      NotEmpty(reduces[k]);
      Replica.ReduceArea(Bytes(ElemsOf(reduces[k])), IdentityByte(reduces[k].t, reduces[k].op).value))
  }

  /** Element `e` of area `k` exists, and its reduction is of integers or booleans. */
  predicate Reduced(reduces: seq<Reduce>, k: nat, e: nat) {
    k < |reduces| && e < reduces[k].count && Exact(reduces[k].t, reduces[k].op)
  }

  function Value(mem: Memory, reduces: seq<Reduce>, k: nat, e: nat): nat
    requires k < |reduces|
  {
    Elem(mem, ElemsOf(reduces[k]), e)
  }

  /** The operators of integers and booleans are commutative monoids whose values fit an element. */
  lemma {:induction false} Lawful(r: Reduce)
    requires Proper(r) && Exact(r.t, r.op)
    ensures Commutative(r.m) && forall v: nat :: r.m.has(v) ==> v < Pow256(SizeOf(r.t))
  {
    SupportedIsExact(r.t, r.op, seq(SizeOf(r.t), _ => IdentityByte(r.t, r.op).value));
  }

  // ---------------------------------------------------------------- a thread

  function Flat<U>(pieces: seq<seq<U>>, ran: seq<nat>): seq<U>
    requires forall j :: 0 <= j < |ran| ==> ran[j] < |pieces|
  {
    Flatten(Pick(pieces, ran))
  }

  lemma {:induction false} FlattenSnoc<U>(pieces: seq<seq<U>>, piece: seq<U>)
    ensures Flatten(pieces + [piece]) == Flatten(pieces) + piece
  {
    if pieces == [] {
      assert pieces + [piece] == [piece] && [piece][1..] == [];
    } else {
      assert (pieces + [piece])[1..] == pieces[1..] + [piece];
      FlattenSnoc(pieces[1..], piece);
    }
  }

  /** What a thread that runs the pieces `ran` folds together, index by index. */
  function ThreadCopy<U>(m: Monoid<nat>, body: U -> nat, pieces: seq<seq<U>>, ran: seq<nat>): nat
    requires forall j :: 0 <= j < |ran| ==> ran[j] < |pieces|
  {
    Fold(m, Map(body, Flat(pieces, ran)))
  }

  lemma {:induction false} OneMore<U>(m: Monoid<nat>, body: U -> nat, done: seq<U>, piece: seq<U>, i: nat)
    requires i < |piece|
    ensures Fold(m, Map(body, done + piece[..i + 1])) == m.op(Fold(m, Map(body, done + piece[..i])), body(piece[i]))
  {
    var before := done + piece[..i];
    assert done + piece[..i + 1] == before + [piece[i]];
    assert Map(body, before + [piece[i]]) == Map(body, before) + [body(piece[i])];
    FoldSnoc(m, Map(body, before), body(piece[i]));
  }

  /** The loops of a thread over its tasks and their indices. */
  method RunTasks<U>(m: Monoid<nat>, body: U -> nat, pieces: seq<seq<U>>, ran: seq<nat>) returns (acc: nat)
    requires forall j :: 0 <= j < |ran| ==> ran[j] < |pieces|
    ensures acc == ThreadCopy(m, body, pieces, ran)
  {
    acc := m.unit;
    for j := 0 to |ran|
      invariant acc == Fold(m, Map(body, Flat(pieces, ran[..j])))
    {
      acc := RunTask(m, body, Flat(pieces, ran[..j]), pieces[ran[j]], acc);
      assert Pick(pieces, ran[..j + 1]) == Pick(pieces, ran[..j]) + [pieces[ran[j]]];
      FlattenSnoc(Pick(pieces, ran[..j]), pieces[ran[j]]);
    }
    assert ran[..|ran|] == ran;
  }

  method RunTask<U>(m: Monoid<nat>, body: U -> nat, ghost done: seq<U>, piece: seq<U>, acc0: nat) returns (acc: nat)
    requires acc0 == Fold(m, Map(body, done))
    ensures acc == Fold(m, Map(body, done + piece))
  {
    acc := acc0;
    assert done + piece[..0] == done;
    for i := 0 to |piece|
      invariant acc == Fold(m, Map(body, done + piece[..i]))
    {
      OneMore(m, body, done, piece, i);
      acc := m.op(acc, body(piece[i]));
    }
    assert piece[..|piece|] == piece;
  }

  /** It is the fold of the pieces' contributions. */
  lemma {:induction false} ThreadCopyIsPart<U>(m: Monoid<nat>, body: U -> nat, pieces: seq<seq<U>>, ran: seq<nat>)
    requires Commutative(m) && forall k :: 0 <= k < |pieces| ==> BodyIn(m, body, pieces[k])
    requires forall j :: 0 <= j < |ran| ==> ran[j] < |pieces|
    ensures ThreadCopy(m, body, pieces, ran) == Fold(m, Pick(FoldEach(m, body, pieces), ran))
  {
    FoldPieces(m, body, Pick(pieces, ran));
    assert FoldEach(m, body, Pick(pieces, ran)) == Pick(FoldEach(m, body, pieces), ran);
  }

  // ---------------------------------------------------------------- a rank and its threads

  /** The threads of a rank, the order in which they take their turns, and how they end. */
  datatype Crew = Crew(threads: nat, holder: nat, junk: nat -> int, turns: seq<nat>, end: Threads.Team)

  /** The turns run all of the rank's tasks and bring all threads out. */
  ghost predicate Through(crew: Crew, tasks: nat) {
    Threads.TeamRun(crew.threads, tasks, crew.holder, crew.junk, crew.turns, crew.end)
  }

  /** The private copies of the threads. */
  ghost function CrewCopies<U>(m: Monoid<nat>, body: U -> nat, mine: seq<seq<U>>, crew: Crew): (s: seq<nat>)
    requires Through(crew, |mine|)
    ensures |s| == crew.threads
  {
    CrewInRange(crew, |mine|);
    seq(crew.threads, t requires 0 <= t < crew.threads => ThreadCopy(m, body, mine, crew.end.ran[t]))
  }

  lemma {:induction false} CrewInRange(crew: Crew, tasks: nat)
    requires Through(crew, tasks)
    ensures |crew.end.ran| == crew.threads && |crew.end.owner| == tasks
    ensures forall k :: 0 <= k < tasks ==> crew.end.owner[k] < crew.threads
    ensures forall t :: 0 <= t < crew.threads ==> crew.end.ran[t] == Positions(crew.end.owner, t)
    ensures forall t, j :: 0 <= t < crew.threads && 0 <= j < |crew.end.ran[t]| ==> crew.end.ran[t][j] < tasks
  {
    Threads.AllOut(crew.threads, tasks, crew.holder, crew.junk, crew.turns, crew.end);
    forall t | 0 <= t < crew.threads
      ensures forall j :: 0 <= j < |crew.end.ran[t]| ==> crew.end.ran[t][j] < tasks
    {
      PositionsBelow(crew.end.owner, t);
    }
  }

  /** Whatever turns the threads took, their copies combine to the fold over the rank's pieces. */
  lemma {:induction false} CrewFold<U>(m: Monoid<nat>, body: U -> nat, mine: seq<seq<U>>, crew: Crew)
    requires Commutative(m) && Through(crew, |mine|) && forall k :: 0 <= k < |mine| ==> BodyIn(m, body, mine[k])
    ensures Fold(m, CrewCopies(m, body, mine, crew)) == Fold(m, FoldEach(m, body, mine))
    ensures AllIn(m, CrewCopies(m, body, mine, crew))
  {
    var items := FoldEach(m, body, mine);
    CrewInRange(crew, |mine|);
    FoldEachIn(m, body, mine);
    var copies := CrewCopies(m, body, mine, crew);
    forall t | 0 <= t < crew.threads ensures copies[t] == Part(m, items, crew.end.owner, t) {
      ThreadCopyIsPart(m, body, mine, crew.end.ran[t]);
    }
    assert copies == Parts(m, items, crew.end.owner, crew.threads);
    PartsIn(m, items, crew.end.owner, crew.threads);
    DealingDoesNotMatter(m, items, crew.end.owner, crew.threads);
    assert items[..|mine|] == items;
  }

  function Merged(reduces: seq<Reduce>, copies: (nat, nat, nat) -> nat, t: nat, k: nat, e: nat, v: nat): nat {
    if k < |reduces| then reduces[k].m.op(v, copies(t, k, e)) else v
  }

  /** Thread `t` folds its copies into the elements. */
  function Merge(reduces: seq<Reduce>, copies: (nat, nat, nat) -> nat, t: nat): (nat, nat, nat) -> nat {
    (k: nat, e: nat, v: nat) => Merged(reduces, copies, t, k, e, v)
  }

  function MergeInto(reduces: seq<Reduce>, copies: (nat, nat, nat) -> nat): (Memory, nat) -> Memory {
    (mem: Memory, t: nat) => UpdateAll(mem, AllElems(reduces), |reduces|, Merge(reduces, copies, t))
  }

  /** The memory after the steps 0 to `n` - 1. */
  function Iterate(mem: Memory, step: (Memory, nat) -> Memory, n: nat): Memory {
    if n == 0 then mem else step(Iterate(mem, step, n - 1), n - 1)
  }

  /** The rank's memory when the first `n` threads have merged. */
  function RankMemory(mem: Memory, reduces: seq<Reduce>, copies: (nat, nat, nat) -> nat, n: nat): Memory {
    Iterate(mem, MergeInto(reduces, copies), n)
  }

  function CopiesOf(copies: (nat, nat, nat) -> nat, k: nat, e: nat, n: nat): (s: seq<nat>)
    ensures |s| == n
  {
    seq(n, t requires 0 <= t < n => copies(t, k, e))
  }

  lemma {:induction false} FoldAfter(m: Monoid<nat>, v: nat, xs: seq<nat>, c: nat)
    requires Commutative(m) && m.has(v) && AllIn(m, xs) && m.has(c)
    ensures m.op(m.op(v, Fold(m, xs)), c) == m.op(v, Fold(m, xs + [c])) && m.has(m.op(m.op(v, Fold(m, xs)), c))
  {
    FoldSnoc(m, xs, c);
    FoldIn(m, xs);
    assert Associates(m, v, Fold(m, xs), c) && Closed(m, v, Fold(m, xs)) && Closed(m, m.op(v, Fold(m, xs)), c);
  }

  lemma {:induction false} MergedOnce(mem: Memory, reduces: seq<Reduce>, copies: (nat, nat, nat) -> nat, t: nat,
                                      k: nat, e: nat)
    requires AllProper(reduces) && Apart(AllElems(reduces)) && Reduced(reduces, k, e)
    requires reduces[k].m.has(reduces[k].m.op(Value(mem, reduces, k, e), copies(t, k, e)))
    ensures Value(UpdateAll(mem, AllElems(reduces), |reduces|, Merge(reduces, copies, t)), reduces, k, e) ==
            reduces[k].m.op(Value(mem, reduces, k, e), copies(t, k, e))
  {
    Lawful(reduces[k]);
    UpdateAllElem(mem, AllElems(reduces), |reduces|, Merge(reduces, copies, t), k, e);
  }

  /** If step `t` combines what is observed with `cs[t]`, then the steps combine it with their fold. */
  lemma {:induction false} IterateFold(m: Monoid<nat>, mem: Memory, step: (Memory, nat) -> Memory,
                                       observe: Memory -> nat, cs: seq<nat>, n: nat)
    requires Commutative(m) && m.has(observe(mem)) && AllIn(m, cs) && n <= |cs|
    requires forall prev: Memory, t: nat :: t < |cs| && m.has(observe(prev)) ==>
               observe(step(prev, t)) == m.op(observe(prev), cs[t])
    ensures observe(Iterate(mem, step, n)) == m.op(observe(mem), Fold(m, cs[..n]))
    ensures m.has(observe(Iterate(mem, step, n)))
  {
    if n == 0 {
      assert Neutral(m, observe(mem));
    } else {
      IterateFold(m, mem, step, observe, cs, n - 1);
      assert cs[..n] == cs[..n - 1] + [cs[n - 1]];
      FoldAfter(m, observe(mem), cs[..n - 1], cs[n - 1]);
    }
  }

  /** In the memory of a rank every element becomes its value before, combined with the threads'
      copies. */
  lemma {:induction false} RankMemoryAt(mem: Memory, reduces: seq<Reduce>, copies: (nat, nat, nat) -> nat, n: nat,
                                        k: nat, e: nat)
    requires AllProper(reduces) && Apart(AllElems(reduces)) && Reduced(reduces, k, e)
    requires reduces[k].m.has(Value(mem, reduces, k, e)) && AllIn(reduces[k].m, CopiesOf(copies, k, e, n))
    ensures Value(RankMemory(mem, reduces, copies, n), reduces, k, e) ==
            reduces[k].m.op(Value(mem, reduces, k, e), Fold(reduces[k].m, CopiesOf(copies, k, e, n)))
  {
    var m, cs := reduces[k].m, CopiesOf(copies, k, e, n);
    var step, observe := MergeInto(reduces, copies), ObserveAt(reduces, k, e);
    Lawful(reduces[k]);
    forall prev: Memory, t: nat | t < n && m.has(observe(prev))
      ensures observe(step(prev, t)) == m.op(observe(prev), cs[t])
    {
      assert m.has(cs[t]) && Closed(m, observe(prev), cs[t]);
      MergedOnce(prev, reduces, copies, t, k, e);
    }
    IterateFold(m, mem, step, observe, cs, n);
    assert cs[..n] == cs;
  }

  function ObserveAt(reduces: seq<Reduce>, k: nat, e: nat): Memory -> nat
    requires k < |reduces|
  {
    (mem: Memory) => Value(mem, reduces, k, e)
  }

  function BodyOf<U>(body: (nat, nat, U) -> nat, k: nat, e: nat): U -> nat { (u: U) => body(k, e, u) }

  /** What the loop does to the reduce areas of a rank that was dealt the pieces `mine`: its threads
      have folded them, index by index, into private copies and these into the elements. The rest of
      its memory is left open. */
  ghost predicate Ran<U(!new)>(before: Memory, after: Memory, reduces: seq<Reduce>, body: (nat, nat, U) -> nat,
                               mine: seq<seq<U>>, crew: Crew)
  {
    && Through(crew, |mine|)
    && forall k: nat, e: nat :: Reduced(reduces, k, e) ==>
         Value(after, reduces, k, e) ==
         reduces[k].m.op(Value(before, reduces, k, e),
                         Fold(reduces[k].m, CrewCopies(reduces[k].m, BodyOf(body, k, e), mine, crew)))
  }

  /** The body contributes values of the operators. */
  ghost predicate Contributes<U(!new)>(reduces: seq<Reduce>, body: (nat, nat, U) -> nat, pieces: seq<seq<U>>) {
    forall k: nat, e: nat, j :: Reduced(reduces, k, e) && 0 <= j < |pieces| ==>
      BodyIn(reduces[k].m, BodyOf(body, k, e), pieces[j])
  }

  /** The elements hold values of the operators. */
  ghost predicate Holds(mem: Memory, reduces: seq<Reduce>) {
    forall k: nat, e: nat :: Reduced(reduces, k, e) ==> reduces[k].m.has(Value(mem, reduces, k, e))
  }

  /** The copies of all threads, for every element. */
  ghost function AllCopies<U(!new)>(reduces: seq<Reduce>, body: (nat, nat, U) -> nat, mine: seq<seq<U>>, crew: Crew)
    : (nat, nat, nat) -> nat
    requires Through(crew, |mine|)
  {
    (t: nat, k: nat, e: nat) =>
      if t < crew.threads && k < |reduces|
      then CrewCopies(reduces[k].m, BodyOf(body, k, e), mine, crew)[t] else 0
  }

  /** A rank whose threads merge their copies one after the other has run the loop. */
  lemma {:induction false} MergingRuns<U(!new)>(mem: Memory, reduces: seq<Reduce>, body: (nat, nat, U) -> nat,
                                                mine: seq<seq<U>>, crew: Crew)
    requires AllProper(reduces) && Apart(AllElems(reduces)) && Through(crew, |mine|)
    requires Contributes(reduces, body, mine) && Holds(mem, reduces)
    ensures var copies := AllCopies(reduces, body, mine, crew);
            Ran(mem, RankMemory(mem, reduces, copies, crew.threads), reduces, body, mine, crew)
  {
    var copies := AllCopies(reduces, body, mine, crew);
    forall k: nat, e: nat | Reduced(reduces, k, e)
      ensures Value(RankMemory(mem, reduces, copies, crew.threads), reduces, k, e) ==
              reduces[k].m.op(Value(mem, reduces, k, e),
                              Fold(reduces[k].m, CrewCopies(reduces[k].m, BodyOf(body, k, e), mine, crew)))
    {
      var some := CrewCopies(reduces[k].m, BodyOf(body, k, e), mine, crew);
      Lawful(reduces[k]);
      CrewFold(reduces[k].m, BodyOf(body, k, e), mine, crew);
      assert CopiesOf(copies, k, e, crew.threads) == some;
      RankMemoryAt(mem, reduces, copies, crew.threads, k, e);
    }
  }

  // ---------------------------------------------------------------- the exit

  /** Element `e` of area `a` in every worker's memory. */
  function Column(workers: seq<Memory>, a: Elems, e: nat): (s: seq<nat>)
    ensures |s| == |workers| && forall c :: 0 <= c < |workers| ==> s[c] == Elem(workers[c], a, e)
  {
    seq(|workers|, c requires 0 <= c < |workers| => Elem(workers[c], a, e))
  }

  /** The leader's value of an element, reduced with the workers'. */
  function Combined(reduces: seq<Reduce>, workers: seq<Memory>, k: nat, e: nat, v: nat): nat {
    if k < |reduces| then
      var all: seq<nat> := [v] + Column(workers, ElemsOf(reduces[k]), e);
      Fold<nat>(reduces[k].m, all)
    else v
  }

  function Combine(reduces: seq<Reduce>, workers: seq<Memory>): (nat, nat, nat) -> nat {
    (k: nat, e: nat, v: nat) => Combined(reduces, workers, k, e, v)
  }

  /** The leader's memory when the first `n` areas have been reduced into it. */
  function ExitReduce(leader: Memory, workers: seq<Memory>, reduces: seq<Reduce>, n: nat): Memory
    requires n <= |reduces|
  {
    UpdateAll(leader, AllElems(reduces), n, Combine(reduces, workers))
  }

  /** The elements of an area. */
  function Row(mem: Memory, a: Elems): (s: seq<nat>)
    ensures |s| == a.count
  {
    seq(a.count, e requires 0 <= e < a.count => Elem(mem, a, e))
  }

  /** One area: its elements are reduced in chunks, in place. */
  method ReduceArea(leader: Memory, workers: seq<Memory>, ghost reduces: seq<Reduce>, ghost k: nat, r: Reduce)
    returns (result: Memory)
    requires k < |reduces| && r == reduces[k]
    ensures result == Update(leader, ElemsOf(r), r.count, OfArea(Combine(reduces, workers), k))
  {
    var a := ElemsOf(r);
    var buffer := new nat[r.count](e => Elem(leader, a, e));
    var received := seq(|workers|, c requires 0 <= c < |workers| => Row(workers[c], a));
    ghost var was := buffer[..];
    var posted := BigMpi.Reduce(r.m, buffer, received);
    var reduced := buffer[..];
    var h: (nat, nat) -> nat := (e: nat, v: nat) => if e < |reduced| then reduced[e] else v;
    forall e: nat | e < r.count
      ensures h(e, Elem(leader, a, e)) == OfArea(Combine(reduces, workers), k)(e, Elem(leader, a, e))
    {
      assert BigMpi.Column(received, e) == Column(workers, a, e);
      assert reduced[e] == BigMpi.Reduced(r.m, was, received, e);
      assert h(e, Elem(leader, a, e)) == Combined(reduces, workers, k, e, Elem(leader, a, e));
    }
    UpdateSame(leader, a, r.count, h, OfArea(Combine(reduces, workers), k));
    result := Update(leader, a, r.count, h);
  }

  /** `do_exit_parallel` on the leader: area by area. */
  method DoExitParallel(leader: Memory, workers: seq<Memory>, reduces: seq<Reduce>) returns (result: Memory)
    ensures result == ExitReduce(leader, workers, reduces, |reduces|)
  {
    result := leader;
    for k := 0 to |reduces|
      invariant result == ExitReduce(leader, workers, reduces, k)
    {
      result := ReduceArea(result, workers, reduces, k, reduces[k]);
    }
  }

  lemma {:induction false} CombinedAt(leader: Memory, workers: seq<Memory>, reduces: seq<Reduce>, k: nat, e: nat)
    requires Apart(AllElems(reduces)) && k < |reduces| && e < reduces[k].count
    requires Combined(reduces, workers, k, e, Value(leader, reduces, k, e)) < Pow256(SizeOf(reduces[k].t))
    ensures Value(ExitReduce(leader, workers, reduces, |reduces|), reduces, k, e) ==
            Combined(reduces, workers, k, e, Value(leader, reduces, k, e))
  {
    UpdateAllElem(leader, AllElems(reduces), |reduces|, Combine(reduces, workers), k, e);
  }

  /** Every element of every area is reduced once, from the value that the loop left, although the
      areas are reduced one after the other. */
  lemma {:induction false} ExitReduceAt(leader: Memory, workers: seq<Memory>, reduces: seq<Reduce>, k: nat, e: nat)
    requires AllProper(reduces) && Apart(AllElems(reduces)) && Reduced(reduces, k, e)
    requires var m := reduces[k].m;
             m.has(Value(leader, reduces, k, e)) && AllIn(m, Column(workers, ElemsOf(reduces[k]), e))
    ensures Value(ExitReduce(leader, workers, reduces, |reduces|), reduces, k, e) ==
            Fold(reduces[k].m, [Value(leader, reduces, k, e)] + Column(workers, ElemsOf(reduces[k]), e))
  {
    var m, all := reduces[k].m, [Value(leader, reduces, k, e)] + Column(workers, ElemsOf(reduces[k]), e);
    Lawful(reduces[k]);
    assert AllIn(m, all);
    FoldIn(m, all);
    CombinedAt(leader, workers, reduces, k, e);
  }

  // ---------------------------------------------------------------- the region

  /** The pieces that rank `r` was dealt. */
  function Mine<U>(pieces: seq<seq<U>>, owner: seq<nat>, r: nat): seq<seq<U>>
    requires |owner| <= |pieces|
  {
    PositionsBelow(owner, r);
    Pick(pieces, Positions(owner, r))
  }

  /** Every rank runs the pieces that the schedule has dealt to it. `before` and `after` are the
      memories of the ranks around the loop, the leader's first. */
  ghost predicate LoopRan<U(!new)>(before: seq<Memory>, after: seq<Memory>, reduces: seq<Reduce>,
                                   body: (nat, nat, U) -> nat, pieces: seq<seq<U>>, owner: seq<nat>, crews: seq<Crew>)
  {
    && |before| == |after| == |crews| > 0 && |owner| == |pieces|
    && forall r :: 0 <= r < |before| ==> Ran(before[r], after[r], reduces, body, Mine(pieces, owner, r), crews[r])
  }

  /** What a rank's threads have folded together is its part of the loop. */
  lemma {:induction false} RanIsPart<U(!new)>(
    before: Memory, after: Memory, reduces: seq<Reduce>, body: (nat, nat, U) -> nat,
    pieces: seq<seq<U>>, owner: seq<nat>, r: nat, crew: Crew, k: nat, e: nat)
    requires AllProper(reduces) && Contributes(reduces, body, pieces) && Reduced(reduces, k, e) && |owner| == |pieces|
    requires Ran(before, after, reduces, body, Mine(pieces, owner, r), crew)
    ensures var items := FoldEach(reduces[k].m, BodyOf(body, k, e), pieces);
            && AllIn(reduces[k].m, items)
            && Value(after, reduces, k, e) ==
               reduces[k].m.op(Value(before, reduces, k, e), Part(reduces[k].m, items, owner, r))
  {
    var m, f, mine := reduces[k].m, BodyOf(body, k, e), Mine(pieces, owner, r);
    Lawful(reduces[k]);
    PositionsBelow(owner, r);
    assert forall j :: 0 <= j < |pieces| ==> BodyIn(m, f, pieces[j]);
    FoldEachIn(m, f, pieces);
    CrewFold(m, f, mine, crew);
    assert FoldEach(m, f, mine) == Pick(FoldEach(m, f, pieces), Positions(owner, r));
  }

  /** The memories as the ranks enter the region: the leader's, and each worker's after the sync. */
  ghost predicate Entered(leader: Memory, worlds: seq<Replica.World>, reduces: seq<Reduce>, before: seq<Memory>)
    requires AllProper(reduces)
  {
    && |before| == |worlds| + 1 && before[0] == leader
    && forall c :: 0 <= c < |worlds| ==>
         && worlds[c].leader == leader
         && Replica.Inv(worlds[c]) && Replica.Enabled(worlds[c], Replica.Enter(Filled(reduces)))
         && before[c + 1] == Replica.Apply(worlds[c], Replica.Enter(Filled(reduces))).worker
  }

  lemma {:induction false} WorkerStartsAtUnit(w: Replica.World, reduces: seq<Reduce>, k: nat, e: nat)
    requires AllProper(reduces) && Reduced(reduces, k, e)
    requires Replica.Inv(w) && Replica.Enabled(w, Replica.Enter(Filled(reduces)))
    ensures Value(Replica.Apply(w, Replica.Enter(Filled(reduces))).worker, reduces, k, e) == reduces[k].m.unit
  {
    var a := ElemsOf(reduces[k]);
    Placed(a, e, e);
    EntersAtUnit(w, Filled(reduces), k, At(a, e), reduces[k].t, reduces[k].op);
  }

  /** On the workers every element starts as its operator's unit. */
  lemma {:induction false} WorkersStartAtUnit(leader: Memory, worlds: seq<Replica.World>, reduces: seq<Reduce>,
                                              before: seq<Memory>, k: nat, e: nat)
    requires AllProper(reduces) && Entered(leader, worlds, reduces, before) && Reduced(reduces, k, e)
    ensures forall c :: 1 <= c < |before| ==> Value(before[c], reduces, k, e) == reduces[k].m.unit
  {
    forall c | 1 <= c < |before| ensures Value(before[c], reduces, k, e) == reduces[k].m.unit {
      WorkerStartsAtUnit(worlds[c - 1], reduces, k, e);
    }
  }

  /** Areas that the check finds disjoint are apart. */
  lemma {:induction false} DisjointAreas(reduces: seq<Reduce>)
    requires AllProper(reduces) && Replica.NoOverlap(Filled(reduces))
    ensures Apart(AllElems(reduces))
  {
    forall j, k | 0 <= j < k < |reduces|
      ensures !Overlap(Bytes(AllElems(reduces)[j]), Bytes(AllElems(reduces)[k]))
    {
      assert !Overlap(Filled(reduces)[j].area, Filled(reduces)[k].area);
    }
  }

  /** The ranks' copies of an element. */
  function CopiesAt(mems: seq<Memory>, reduces: seq<Reduce>, k: nat, e: nat): (s: seq<nat>)
    requires k < |reduces|
    ensures |s| == |mems|
  {
    seq(|mems|, r requires 0 <= r < |mems| => Value(mems[r], reduces, k, e))
  }

  /** After the loop every rank's copy is its start combined with the rank's part of the loop. */
  lemma {:induction false} LoopCopies<U(!new)>(
    before: seq<Memory>, after: seq<Memory>, reduces: seq<Reduce>, body: (nat, nat, U) -> nat,
    pieces: seq<seq<U>>, owner: seq<nat>, crews: seq<Crew>, k: nat, e: nat)
    requires AllProper(reduces) && Contributes(reduces, body, pieces) && Reduced(reduces, k, e)
    requires LoopRan(before, after, reduces, body, pieces, owner, crews)
    requires reduces[k].m.has(Value(before[0], reduces, k, e))
    requires forall c :: 1 <= c < |before| ==> Value(before[c], reduces, k, e) == reduces[k].m.unit
    ensures var m, items := reduces[k].m, FoldEach(reduces[k].m, BodyOf(body, k, e), pieces);
            && AllIn(m, items) && AllIn(m, CopiesAt(after, reduces, k, e))
            && forall r :: 0 <= r < |after| ==>
                 CopiesAt(after, reduces, k, e)[r] ==
                 m.op(if r == 0 then Value(before[0], reduces, k, e) else m.unit, Part(m, items, owner, r))
  {
    var m, items := reduces[k].m, FoldEach(reduces[k].m, BodyOf(body, k, e), pieces);
    Lawful(reduces[k]);
    RanIsPart(before[0], after[0], reduces, body, pieces, owner, 0, crews[0], k, e);
    forall r | 0 <= r < |after|
      ensures m.has(CopiesAt(after, reduces, k, e)[r])
      ensures CopiesAt(after, reduces, k, e)[r] ==
              m.op(if r == 0 then Value(before[0], reduces, k, e) else m.unit, Part(m, items, owner, r))
    {
      RanIsPart(before[r], after[r], reduces, body, pieces, owner, r, crews[r], k, e);
      PartIn(m, items, owner, r);
      assert Closed(m, Value(before[r], reduces, k, e), Part(m, items, owner, r));
    }
  }

  /** And their fold is the original value combined with the sequential fold. */
  lemma {:induction false} CopiesReduce<U(!new)>(
    original: nat, copies: seq<nat>, m: Monoid<nat>, body: U -> nat, pieces: seq<seq<U>>,
    clients: nat, acts: seq<Action>, s: State)
    requires Commutative(m) && m.has(original) && forall j :: 0 <= j < |pieces| ==> BodyIn(m, body, pieces[j])
    requires Finished(clients, acts, s) && |copies| == |s.links| + 1
    requires s.count == |pieces| == |s.owner|
    requires forall r :: 0 <= r < |copies| ==>
               copies[r] == m.op(if r == 0 then original else m.unit, Part(m, FoldEach(m, body, pieces), s.owner, r))
    ensures Fold(m, copies) == m.op(original, Fold(m, Map(body, Flatten(pieces))))
  {
    FoldEachIn(m, body, pieces);
    EndToEnd(m, original, FoldEach(m, body, pieces), copies, clients, acts, s);
    FoldPieces(m, body, pieces);
  }

  /** So is what the reduction of all areas leaves in the element. */
  lemma {:induction false} LoopReduces<U(!new)>(
    before: seq<Memory>, after: seq<Memory>, reduces: seq<Reduce>, body: (nat, nat, U) -> nat,
    pieces: seq<seq<U>>, clients: nat, acts: seq<Action>, s: State, crews: seq<Crew>, k: nat, e: nat)
    requires AllProper(reduces) && Apart(AllElems(reduces)) && Reduced(reduces, k, e)
    requires Contributes(reduces, body, pieces)
    requires Finished(clients, acts, s) && s.count == |pieces| && |before| == |s.links| + 1
    requires LoopRan(before, after, reduces, body, pieces, s.owner, crews)
    requires reduces[k].m.has(Value(before[0], reduces, k, e))
    requires forall c :: 1 <= c < |before| ==> Value(before[c], reduces, k, e) == reduces[k].m.unit
    ensures Value(ExitReduce(after[0], after[1..], reduces, |reduces|), reduces, k, e) ==
            reduces[k].m.op(Value(before[0], reduces, k, e),
                            Fold(reduces[k].m, Map(BodyOf(body, k, e), Flatten(pieces))))
  {
    Lawful(reduces[k]);
    LoopCopies(before, after, reduces, body, pieces, s.owner, crews, k, e);
    assert forall j :: 0 <= j < |pieces| ==> BodyIn(reduces[k].m, BodyOf(body, k, e), pieces[j]);
    CopiesReduce(Value(before[0], reduces, k, e), CopiesAt(after, reduces, k, e), reduces[k].m, BodyOf(body, k, e),
                 pieces, clients, acts, s);
    ExitOfCopies(after, reduces, k, e);
  }

  lemma {:induction false} ExitOfCopies(after: seq<Memory>, reduces: seq<Reduce>, k: nat, e: nat)
    requires AllProper(reduces) && Apart(AllElems(reduces)) && Reduced(reduces, k, e) && after != []
    requires AllIn(reduces[k].m, CopiesAt(after, reduces, k, e))
    ensures Value(ExitReduce(after[0], after[1..], reduces, |reduces|), reduces, k, e) ==
            Fold(reduces[k].m, CopiesAt(after, reduces, k, e))
  {
    var column, copies := Column(after[1..], ElemsOf(reduces[k]), e), CopiesAt(after, reduces, k, e);
    assert copies == [copies[0]] + column;
    assert forall c :: 0 <= c < |column| ==> column[c] == copies[c + 1];
    ExitReduceAt(after[0], after[1..], reduces, k, e);
  }

  /** The reductions write nothing outside the areas. */
  lemma {:induction false} ExitWritesInside(leader: Memory, workers: seq<Memory>, reduces: seq<Reduce>, x: nat)
    requires AllProper(reduces) && !Replica.InReduce(Filled(reduces), x)
    ensures ExitReduce(leader, workers, reduces, |reduces|)(x) == leader(x)
  {
    forall k | 0 <= k < |reduces| ensures !InArea(Bytes(AllElems(reduces)[k]), x) {
      assert Filled(reduces)[k].area == Bytes(AllElems(reduces)[k]);
    }
    UpdateAllOutside(leader, AllElems(reduces), |reduces|, Combine(reduces, workers), x);
  }

  /** A region around a loop over `pieces`: the workers enter it from the states that all earlier
      events have left them in, the schedule has dealt the loop to the ranks in some run, the threads
      of every rank have taken some turns, and the reduce areas were found disjoint. */
  ghost predicate Around<U(!new)>(leader: Memory, worlds: seq<Replica.World>, before: seq<Memory>, after: seq<Memory>,
                                  reduces: seq<Reduce>, body: (nat, nat, U) -> nat, pieces: seq<seq<U>>,
                                  clients: nat, acts: seq<Action>, s: State, crews: seq<Crew>)
  {
    && AllProper(reduces) && Replica.NoOverlap(Filled(reduces))
    && Entered(leader, worlds, reduces, before)
    && Finished(clients, acts, s) && s.count == |pieces| && |worlds| == |s.links|
    && Contributes(reduces, body, pieces)
    && LoopRan(before, after, reduces, body, pieces, s.owner, crews)
  }

  lemma {:induction false} RegionElement<U(!new)>(
    leader: Memory, worlds: seq<Replica.World>, before: seq<Memory>, after: seq<Memory>,
    reduces: seq<Reduce>, body: (nat, nat, U) -> nat, pieces: seq<seq<U>>,
    clients: nat, acts: seq<Action>, s: State, crews: seq<Crew>, k: nat, e: nat)
    requires Around(leader, worlds, before, after, reduces, body, pieces, clients, acts, s, crews)
    requires Reduced(reduces, k, e) && reduces[k].m.has(Value(leader, reduces, k, e))
    ensures Value(ExitReduce(after[0], after[1..], reduces, |reduces|), reduces, k, e) ==
            reduces[k].m.op(Value(leader, reduces, k, e),
                            Fold(reduces[k].m, Map(BodyOf(body, k, e), Flatten(pieces))))
  {
    DisjointAreas(reduces);
    WorkersStartAtUnit(leader, worlds, reduces, before, k, e);
    LoopReduces(before, after, reduces, body, pieces, clients, acts, s, crews, k, e);
  }

  /** The leader's memory after the exit: `last` is its world as the loop has left it. */
  ghost function LeftWith(last: Replica.World, after: seq<Memory>, reduces: seq<Reduce>): Memory
    requires last.inRegion && after != []
  {
    Replica.Apply(last, Replica.Exit(ExitReduce(after[0], after[1..], reduces, |reduces|))).leader
  }

  ghost predicate AtExit(last: Replica.World, after: seq<Memory>, reduces: seq<Reduce>)
    requires AllProper(reduces)
  {
    after != [] && last.inRegion && last.reduces == Filled(reduces) && last.leader == after[0]
  }

  /** After the exit the leader's memory is what the reductions have made of it, byte for byte: the
      exit of the replica, which speaks of the bytes of the areas, leaves none of their writes out. */
  lemma {:induction false} LeftIsReduced(last: Replica.World, after: seq<Memory>, reduces: seq<Reduce>, x: nat)
    requires AllProper(reduces) && AtExit(last, after, reduces)
    ensures LeftWith(last, after, reduces)(x) == ExitReduce(after[0], after[1..], reduces, |reduces|)(x)
  {
    if !Replica.InReduce(Filled(reduces), x) { ExitWritesInside(after[0], after[1..], reduces, x); }
  }

  lemma {:induction false} LeftAt(last: Replica.World, after: seq<Memory>, reduces: seq<Reduce>, k: nat, e: nat)
    requires AllProper(reduces) && AtExit(last, after, reduces) && k < |reduces|
    ensures Value(LeftWith(last, after, reduces), reduces, k, e) ==
            Value(ExitReduce(after[0], after[1..], reduces, |reduces|), reduces, k, e)
  {
    var a, mem := ElemsOf(reduces[k]), LeftWith(last, after, reduces);
    var result := ExitReduce(after[0], after[1..], reduces, |reduces|);
    forall x | At(a, e) <= x < At(a, e) + a.size ensures mem(x) == result(x) {
      LeftIsReduced(last, after, reduces, x);
    }
    ReadSame(mem, result, At(a, e), a.size);
  }

  /** When the region is left, every element of every area of integers or booleans is its value at
      the entry combined with the sequential fold of the loop, whatever the schedule, the threads and
      the network did. */
  lemma {:induction false} RegionReduces<U(!new)>(
    leader: Memory, worlds: seq<Replica.World>, before: seq<Memory>, after: seq<Memory>, last: Replica.World,
    reduces: seq<Reduce>, body: (nat, nat, U) -> nat, pieces: seq<seq<U>>,
    clients: nat, acts: seq<Action>, s: State, crews: seq<Crew>, k: nat, e: nat)
    requires Around(leader, worlds, before, after, reduces, body, pieces, clients, acts, s, crews)
    requires AtExit(last, after, reduces)
    requires Reduced(reduces, k, e) && reduces[k].m.has(Value(leader, reduces, k, e))
    ensures Value(LeftWith(last, after, reduces), reduces, k, e) ==
            reduces[k].m.op(Value(leader, reduces, k, e),
                            Fold(reduces[k].m, Map(BodyOf(body, k, e), Flatten(pieces))))
  {
    RegionElement(leader, worlds, before, after, reduces, body, pieces, clients, acts, s, crews, k, e);
    LeftAt(last, after, reduces, k, e);
  }

  // ---------------------------------------------------------------- what it computes, in plain terms

  /** An element reduced with contributions: MPI_SUM adds, modulo the number of values of the type; MPI_LAND
      is 1 if and only if neither the element nor a contribution is 0; MPI_LOR is 1 if and only if the
      element or some contribution is not. */
  lemma {:induction false} CombinedIs(r: Reduce, original: nat, xs: seq<nat>)
    requires Proper(r) && Exact(r.t, r.op) && r.m.has(original) && AllIn(r.m, xs)
    ensures r.op == MpiSum ==> r.m.op(original, Fold(r.m, xs)) == (original + Sum(xs)) % Pow256(SizeOf(r.t))
    ensures r.op == MpiLand ==>
              r.m.op(original, Fold(r.m, xs)) ==
              if original != 0 && forall k :: 0 <= k < |xs| ==> xs[k] != 0 then 1 else 0
    ensures r.op == MpiLor ==>
              r.m.op(original, Fold(r.m, xs)) ==
              if original != 0 || exists k :: 0 <= k < |xs| && xs[k] != 0 then 1 else 0
  {
    if r.op == MpiSum {
      CombinedSum(r, original, xs);
    } else {
      CombinedFold(r, original, xs);
      WhatIsReduced(r.t, r.op, [original] + xs);
      FirstAndRest(original, xs);
    }
  }

  lemma {:induction false} CombinedSum(r: Reduce, original: nat, xs: seq<nat>)
    requires Proper(r) && Exact(r.t, r.op) && r.m.has(original) && AllIn(r.m, xs) && r.op == MpiSum
    ensures r.m.op(original, Fold(r.m, xs)) == (original + Sum(xs)) % Pow256(SizeOf(r.t))
  {
    CombinedFold(r, original, xs);
    WhatIsReduced(r.t, r.op, [original] + xs);
    SumCons(original, xs);
  }

  lemma {:induction false} CombinedFold(r: Reduce, original: nat, xs: seq<nat>)
    requires Proper(r) && Exact(r.t, r.op) && r.m.has(original) && AllIn(r.m, xs)
    ensures r.m.op(original, Fold(r.m, xs)) == Fold(MonoidOf(r.t, r.op), [original] + xs)
    ensures AllIn(MonoidOf(r.t, r.op), [original] + xs)
  {
    Lawful(r);
    FoldAppend(r.m, [original], xs);
    FoldOne(r.m, original);
  }

  lemma FirstAndRest(x: nat, xs: seq<nat>)
    ensures (forall k :: 0 <= k < |[x] + xs| ==> ([x] + xs)[k] != 0) <==>
            x != 0 && forall k :: 0 <= k < |xs| ==> xs[k] != 0
    ensures (exists k :: 0 <= k < |[x] + xs| && ([x] + xs)[k] != 0) <==>
            x != 0 || exists k :: 0 <= k < |xs| && xs[k] != 0
  {
    var all := [x] + xs;
    assert all[0] == x && forall k :: 0 <= k < |xs| ==> all[k + 1] == xs[k];
  }

  lemma {:induction false} ContributionsIn<U(!new)>(reduces: seq<Reduce>, body: (nat, nat, U) -> nat,
                                                     pieces: seq<seq<U>>, k: nat, e: nat)
    requires AllProper(reduces) && Contributes(reduces, body, pieces) && Reduced(reduces, k, e)
    ensures AllIn(reduces[k].m, Map(BodyOf(body, k, e), Flatten(pieces)))
  {
    assert forall j :: 0 <= j < |pieces| ==> BodyIn(reduces[k].m, BodyOf(body, k, e), pieces[j]);
    FlattenIn(reduces[k].m, BodyOf(body, k, e), pieces);
  }

  /** The result of a reduction, in plain terms. */
  ghost predicate Computes(r: Reduce, original: nat, xs: seq<nat>, result: nat) {
    && (r.op == MpiSum ==> result == (original + Sum(xs)) % Pow256(SizeOf(r.t)))
    && (r.op == MpiLand ==> result == if original != 0 && forall k :: 0 <= k < |xs| ==> xs[k] != 0 then 1 else 0)
    && (r.op == MpiLor ==> result == if original != 0 || exists k :: 0 <= k < |xs| && xs[k] != 0 then 1 else 0)
  }

  lemma ComputesMeans(r: Reduce, original: nat, xs: seq<nat>, result: nat)
    requires Computes(r, original, xs, result)
    ensures r.op == MpiSum ==> result == (original + Sum(xs)) % Pow256(SizeOf(r.t))
    ensures r.op == MpiLand && result == 1 ==> original != 0 && forall k :: 0 <= k < |xs| ==> xs[k] != 0
    ensures r.op == MpiLand && result != 1 ==> result == 0 && (original == 0 || exists k :: 0 <= k < |xs| && xs[k] == 0)
    ensures r.op == MpiLor && result == 1 ==> original != 0 || exists k :: 0 <= k < |xs| && xs[k] != 0
    ensures r.op == MpiLor && result != 1 ==> result == 0 && original == 0 && forall k :: 0 <= k < |xs| ==> xs[k] == 0
  {
  }

  lemma {:induction false} CombinedComputes(r: Reduce, original: nat, xs: seq<nat>, result: nat)
    requires Proper(r) && Exact(r.t, r.op) && r.m.has(original) && AllIn(r.m, xs)
    requires result == r.m.op(original, Fold(r.m, xs))
    ensures Computes(r, original, xs, result)
  {
    CombinedIs(r, original, xs);
  }

  /** When the region is left, every element of a sum is its value at the entry plus all contributions of
      the loop, modulo the number of values of its type; a conjunction is 1 if and only if it was not 0
      and no contribution is, and a disjunction if and only if it or some contribution is not 0. */
  lemma {:induction false} RegionComputes<U(!new)>(
    leader: Memory, worlds: seq<Replica.World>, before: seq<Memory>, after: seq<Memory>, last: Replica.World,
    reduces: seq<Reduce>, body: (nat, nat, U) -> nat, pieces: seq<seq<U>>,
    clients: nat, acts: seq<Action>, s: State, crews: seq<Crew>, k: nat, e: nat)
    requires Around(leader, worlds, before, after, reduces, body, pieces, clients, acts, s, crews)
    requires AtExit(last, after, reduces)
    requires Reduced(reduces, k, e) && reduces[k].m.has(Value(leader, reduces, k, e))
    ensures Computes(reduces[k], Value(leader, reduces, k, e), Map(BodyOf(body, k, e), Flatten(pieces)),
                     Value(LeftWith(last, after, reduces), reduces, k, e))
  {
    RegionReduces(leader, worlds, before, after, last, reduces, body, pieces, clients, acts, s, crews, k, e);
    ContributionsIn(reduces, body, pieces, k, e);
    CombinedComputes(reduces[k], Value(leader, reduces, k, e), Map(BodyOf(body, k, e), Flatten(pieces)),
                     Value(LeftWith(last, after, reduces), reduces, k, e));
  }

  // ---------------------------------------------------------------- every loop can be run

  lemma {:induction false} SomeCrew(threads: nat, tasks: nat) returns (crew: Crew)
    requires threads > 0
    ensures Through(crew, tasks) && crew.threads == threads
  {
    var junk: nat -> int := _ => 0;
    Threads.StartOk(threads, tasks, 0, junk);
    var turns := Threads.TeamCanFinish(Threads.Start(threads, tasks, 0, junk));
    crew := Crew(threads, 0, junk, turns, Threads.After(Threads.Start(threads, tasks, 0, junk), turns));
  }

  lemma {:induction false} MineContributes<U(!new)>(reduces: seq<Reduce>, body: (nat, nat, U) -> nat,
                                                    pieces: seq<seq<U>>, owner: seq<nat>, r: nat)
    requires Contributes(reduces, body, pieces) && |owner| <= |pieces|
    ensures Contributes(reduces, body, Mine(pieces, owner, r))
  {
    PositionsBelow(owner, r);
    var mine := Mine(pieces, owner, r);
    forall k: nat, e: nat, j | Reduced(reduces, k, e) && 0 <= j < |mine|
      ensures BodyIn(reduces[k].m, BodyOf(body, k, e), mine[j])
    {
      assert mine[j] == pieces[Positions(owner, r)[j]];
    }
  }

  lemma {:induction false} RankCanRun<U(!new)>(before: Memory, reduces: seq<Reduce>, body: (nat, nat, U) -> nat,
                                               mine: seq<seq<U>>, threads: nat)
    returns (after: Memory, crew: Crew)
    requires AllProper(reduces) && Apart(AllElems(reduces)) && threads > 0
    requires Contributes(reduces, body, mine) && Holds(before, reduces)
    ensures Ran(before, after, reduces, body, mine, crew) && crew.threads == threads
  {
    crew := SomeCrew(threads, |mine|);
    MergingRuns(before, reduces, body, mine, crew);
    after := RankMemory(before, reduces, AllCopies(reduces, body, mine, crew), crew.threads);
  }

  /** Whatever the ranks were dealt, and however many threads they have, the loop can be run from the
      memories that they start with: the results about regions speak of something. */
  lemma {:induction false} LoopCanRun<U(!new)>(
    before: seq<Memory>, reduces: seq<Reduce>, body: (nat, nat, U) -> nat, pieces: seq<seq<U>>, owner: seq<nat>,
    threads: seq<nat>) returns (after: seq<Memory>, crews: seq<Crew>)
    requires AllProper(reduces) && Apart(AllElems(reduces)) && Contributes(reduces, body, pieces)
    requires |before| == |threads| > 0 && |owner| == |pieces|
    requires forall r :: 0 <= r < |before| ==> Holds(before[r], reduces) && threads[r] > 0
    ensures LoopRan(before, after, reduces, body, pieces, owner, crews)
    ensures forall r :: 0 <= r < |crews| ==> crews[r].threads == threads[r]
  {
    after, crews := [], [];
    while |after| < |before|
      invariant |after| == |crews| <= |before|
      invariant forall r :: 0 <= r < |after| ==>
                  && Ran(before[r], after[r], reduces, body, Mine(pieces, owner, r), crews[r])
                  && crews[r].threads == threads[r]
      decreases |before| - |after|
    {
      var r := |after|;
      MineContributes(reduces, body, pieces, owner, r);
      var mem, crew := RankCanRun(before[r], reduces, body, Mine(pieces, owner, r), threads[r]);
      after, crews := after + [mem], crews + [crew];
    }
  }

  /** Integers are always values of their operator; so the elements hold values of the operators if and
      only if every boolean is stored as 0 or 1. */
  lemma {:induction false} HoldsExactlyWhen(mem: Memory, reduces: seq<Reduce>)
    requires AllProper(reduces)
    ensures Holds(mem, reduces) <==>
            forall k: nat, e: nat ::
              Reduced(reduces, k, e) && reduces[k].t == MpiCBool ==> Value(mem, reduces, k, e) <= 1
  {
    forall k: nat, e: nat | Reduced(reduces, k, e)
      ensures reduces[k].m.has(Value(mem, reduces, k, e)) <==>
              reduces[k].t != MpiCBool || Value(mem, reduces, k, e) <= 1
    {
      var a := ElemsOf(reduces[k]);
      NumberBound(BytesAt(mem, Area(At(a, e), a.size)));
    }
  }

  /** From the boot any number of workers can enter. */
  lemma {:induction false} BootEnters(clients: nat, leader: Memory, worker: Memory, reduces: seq<Reduce>)
    returns (worlds: seq<Replica.World>, before: seq<Memory>, entered: Replica.World)
    requires AllProper(reduces) && Replica.NoOverlap(Filled(reduces)) && Holds(leader, reduces)
    ensures |worlds| == clients && |before| == clients + 1 && Entered(leader, worlds, reduces, before)
    ensures forall r :: 0 <= r < |before| ==> Holds(before[r], reduces)
    ensures entered.inRegion && entered.reduces == Filled(reduces)
  {
    var w := Replica.Boot(leader, worker, Area(0, 0));
    entered := Replica.Apply(w, Replica.Enter(Filled(reduces)));
    worlds := seq(clients, _ => w);
    before := [leader] + seq(clients, _ => entered.worker);
    UnitsHold(w, reduces);
  }

  lemma {:induction false} UnitsHold(w: Replica.World, reduces: seq<Reduce>)
    requires AllProper(reduces)
    requires Replica.Inv(w) && Replica.Enabled(w, Replica.Enter(Filled(reduces)))
    ensures Holds(Replica.Apply(w, Replica.Enter(Filled(reduces))).worker, reduces)
  {
    var mem := Replica.Apply(w, Replica.Enter(Filled(reduces))).worker;
    forall k: nat, e: nat | Reduced(reduces, k, e) ensures reduces[k].m.has(Value(mem, reduces, k, e)) {
      Lawful(reduces[k]);
      WorkerStartsAtUnit(w, reduces, k, e);
    }
  }

  /** For any number of clients and threads, any disjoint areas, any loop and any memories at the start
      there is a region: from the boot through the entry, a whole schedule and the threads' turns. */
  lemma {:induction false} RegionCanRun<U(!new)>(
    clients: nat, threads: nat, leader: Memory, worker: Memory,
    reduces: seq<Reduce>, body: (nat, nat, U) -> nat, pieces: seq<seq<U>>)
    returns (worlds: seq<Replica.World>, before: seq<Memory>, after: seq<Memory>, last: Replica.World,
             acts: seq<Action>, s: State, crews: seq<Crew>)
    requires AllProper(reduces) && Replica.NoOverlap(Filled(reduces)) && threads > 0
    requires Contributes(reduces, body, pieces) && Holds(leader, reduces)
    ensures Around(leader, worlds, before, after, reduces, body, pieces, clients, acts, s, crews)
    ensures AtExit(last, after, reduces) && |s.links| == clients
  {
    var entered;
    worlds, before, entered := BootEnters(clients, leader, worker, reduces);
    acts, s := SomeSchedule(clients, |pieces|);
    WhatRanksHold(clients, acts, s);
    DisjointAreas(reduces);
    after, crews := LoopCanRun(before, reduces, body, pieces, s.owner, seq(clients + 1, _ => threads));
    last := entered.(leader := after[0]);
  }

  // ---------------------------------------------------------------- the loops of the bindings

  /** The guided parallel loop over [begin, end) with any supported reductions of integers or
      booleans, for all bounds that it visits exactly: what it leaves in the leader's memory is what
      the sequential loop would. */
  lemma {:induction false} GuidedLoop(
    leader: Memory, worlds: seq<Replica.World>, before: seq<Memory>, after: seq<Memory>, last: Replica.World,
    reduces: seq<Reduce>, body: (nat, nat, int) -> nat, begin: nat, end: nat, procs: nat, grain: nat,
    clients: nat, acts: seq<Action>, s: State, crews: seq<Crew>, k: nat, e: nat)
    requires begin < Gss.U64 && end < Gss.U64 && procs > 0
    requires begin <= end || Gss.Single(Gss.U64 - begin + end, procs, grain)
    requires var pieces := TaskPieces(Gss.CTasks(begin, end, procs, grain));
             Around(leader, worlds, before, after, reduces, body, pieces, clients, acts, s, crews)
    requires AtExit(last, after, reduces)
    requires Reduced(reduces, k, e) && reduces[k].m.has(Value(leader, reduces, k, e))
    ensures Value(LeftWith(last, after, reduces), reduces, k, e) ==
            reduces[k].m.op(Value(leader, reduces, k, e),
                            Fold(reduces[k].m, Map(BodyOf(body, k, e), Gss.Range(begin, end))))
    ensures Computes(reduces[k], Value(leader, reduces, k, e), Map(BodyOf(body, k, e), Gss.Range(begin, end)),
                     Value(LeftWith(last, after, reduces), reduces, k, e))
  {
    var pieces := TaskPieces(Gss.CTasks(begin, end, procs, grain));
    Gss.CExactlyWhen(begin, end, procs, grain);
    RegionReduces(leader, worlds, before, after, last, reduces, body, pieces, clients, acts, s, crews, k, e);
    RegionComputes(leader, worlds, before, after, last, reduces, body, pieces, clients, acts, s, crews, k, e);
  }

  /** The inclusive loop of the Fortran binding, likewise. */
  lemma {:induction false} FortranLoop(
    leader: Memory, worlds: seq<Replica.World>, before: seq<Memory>, after: seq<Memory>, last: Replica.World,
    reduces: seq<Reduce>, body: (nat, nat, int) -> nat, begin: int, end: int, procs: nat, grain: int,
    clients: nat, acts: seq<Action>, s: State, crews: seq<Crew>, k: nat, e: nat)
    requires Gss.Int64(begin) && Gss.Int64(end) && Gss.Int64(grain) && procs > 0
    requires end + 1 - begin < Gss.U64
    requires end + 1 - begin >= -Gss.I63 || Gss.Single(end + 1 - begin + Gss.U64, procs, grain)
    requires var pieces := TaskPieces(Gss.FortranTasks(begin, end, procs, grain));
             Around(leader, worlds, before, after, reduces, body, pieces, clients, acts, s, crews)
    requires AtExit(last, after, reduces)
    requires Reduced(reduces, k, e) && reduces[k].m.has(Value(leader, reduces, k, e))
    ensures Value(LeftWith(last, after, reduces), reduces, k, e) ==
            reduces[k].m.op(Value(leader, reduces, k, e),
                            Fold(reduces[k].m, Map(BodyOf(body, k, e), Gss.Range(begin, end + 1))))
    ensures Computes(reduces[k], Value(leader, reduces, k, e), Map(BodyOf(body, k, e), Gss.Range(begin, end + 1)),
                     Value(LeftWith(last, after, reduces), reduces, k, e))
  {
    var pieces := TaskPieces(Gss.FortranTasks(begin, end, procs, grain));
    Gss.FortranExactlyWhen(begin, end, procs, grain);
    RegionReduces(leader, worlds, before, after, last, reduces, body, pieces, clients, acts, s, crews, k, e);
    RegionComputes(leader, worlds, before, after, last, reduces, body, pieces, clients, acts, s, crews, k, e);
  }

  /** The collapsed triangular loop, likewise. `chunks` are what the generator deals. */
  lemma {:induction false} TriangularLoop(
    leader: Memory, worlds: seq<Replica.World>, before: seq<Memory>, after: seq<Memory>, last: Replica.World,
    reduces: seq<Reduce>, body: (nat, nat, Collapse.Point) -> nat, p: Collapse.Point, iEnd: nat, procs: nat, grain: nat,
    chunks: seq<Collapse.Chunk>, clients: nat, acts: seq<Action>, s: State, crews: seq<Crew>, k: nat, e: nat)
    requires Collapse.OnWalk(p, iEnd) && procs > 0
    requires Collapse.All(p, iEnd, Collapse.Left(p, iEnd), procs, grain) == Some(chunks)
    requires var pieces := ChunkPieces(chunks, iEnd);
             Around(leader, worlds, before, after, reduces, body, pieces, clients, acts, s, crews)
    requires AtExit(last, after, reduces)
    requires Reduced(reduces, k, e) && reduces[k].m.has(Value(leader, reduces, k, e))
    ensures Value(LeftWith(last, after, reduces), reduces, k, e) ==
            reduces[k].m.op(Value(leader, reduces, k, e),
                            Fold(reduces[k].m, Map(BodyOf(body, k, e),
                                                   Collapse.Points(p, iEnd, Collapse.Left(p, iEnd)))))
    ensures Computes(reduces[k], Value(leader, reduces, k, e),
                     Map(BodyOf(body, k, e), Collapse.Points(p, iEnd, Collapse.Left(p, iEnd))),
                     Value(LeftWith(last, after, reduces), reduces, k, e))
  {
    var dealt := Collapse.ChunksPartition(p, iEnd, procs, grain);
    var pieces := ChunkPieces(chunks, iEnd);
    RegionReduces(leader, worlds, before, after, last, reduces, body, pieces, clients, acts, s, crews, k, e);
    RegionComputes(leader, worlds, before, after, last, reduces, body, pieces, clients, acts, s, crews, k, e);
  }
}
