/** The threads of one rank: each pulls tasks from the rank's iterator under one lock and runs them,
    and the last thread to leave deletes the schedule. The counter of those that are still in, like
    the generator's state, is a local variable of the thread that has set up the schedule: once that
    thread is out, the counter is dead, and reads as anything. */
module Threads {
  import opened Sums
  import opened Protocol
  import opened ProtocolInvariant
  import opened ProtocolTheorems

  /** Before `s_p_get_buffer`, before a pull, in the loop over a task, before the second critical
      section, and out. */
  datatype Pc = Entering | Pulling | Running(task: nat) | Leaving | Gone

  /** `owner[k]` is the thread that took the k-th task of the rank, `ran` the tasks that each thread
      has completed, `left` the shared counter, `holder` the thread whose variable it is, `dead` how
      often it has been read after the holder was out, `junk(k)` what the k-th such read finds, and
      `leavers` the threads that are out, in order. */
  datatype Team = Team(tasks: nat, owner: seq<nat>, pcs: seq<Pc>, ran: seq<seq<nat>>, holder: nat, left: int,
                       junk: nat -> int, dead: nat, leavers: seq<nat>, deletions: nat)

  function Start(threads: nat, tasks: nat, holder: nat, junk: nat -> int): Team {
    Team(tasks, [], seq(threads, _ => Entering), seq(threads, _ => []), holder, threads, junk, 0, [], 0)
  }

  predicate Enabled(s: Team, t: nat) {
    t < |s.pcs| && |s.ran| == |s.pcs| && s.holder < |s.pcs| && !s.pcs[t].Gone?
  }

  /** What a thread finds in the counter. */
  function Counter(s: Team): int
    requires s.holder < |s.pcs|
  {
    if s.pcs[s.holder].Gone? then s.junk(s.dead) else s.left
  }

  function Apply(s: Team, t: nat): Team
    requires Enabled(s, t)
  {
    match s.pcs[t]
    case Entering => s.(pcs := s.pcs[t := Pulling])
    case Pulling =>
      if |s.owner| == s.tasks then s.(pcs := s.pcs[t := Pc.Leaving])
      else s.(pcs := s.pcs[t := Running(|s.owner|)], owner := s.owner + [t])
    case Running(task) => s.(pcs := s.pcs[t := Pulling], ran := s.ran[t := s.ran[t] + [task]])
    case Leaving =>
      s.(pcs := s.pcs[t := Gone], left := Counter(s) - 1, dead := s.dead + (if s.pcs[s.holder].Gone? then 1 else 0),
         leavers := s.leavers + [t], deletions := s.deletions + if Counter(s) - 1 == 0 then 1 else 0)
  }

  predicate ValidRun(s: Team, turns: seq<nat>)
    decreases |turns|
  {
    turns == [] || (Enabled(s, turns[0]) && ValidRun(Apply(s, turns[0]), turns[1..]))
  }

  function After(s: Team, turns: seq<nat>): Team
    requires ValidRun(s, turns)
    decreases |turns|
  {
    if turns == [] then s else After(Apply(s, turns[0]), turns[1..])
  }

  /** How many threads are still in. */
  function Staying(pcs: seq<Pc>): nat {
    if pcs == [] then 0 else Staying(pcs[..|pcs| - 1]) + if pcs[|pcs| - 1].Gone? then 0 else 1
  }

  function Current(pc: Pc): seq<nat> { if pc.Running? then [pc.task] else [] }

  predicate ThreadOk(s: Team, t: nat)
    requires t < |s.pcs| == |s.ran|
  {
    && s.ran[t] + Current(s.pcs[t]) == Positions(s.owner, t)
    && (s.pcs[t].Leaving? || s.pcs[t].Gone? ==> |s.owner| == s.tasks)
  }

  /** The holder of the counter is in, or was the last to leave so far. */
  predicate HolderLast(s: Team) {
    s.leavers != [] ==> s.holder !in s.leavers[..|s.leavers| - 1]
  }

  ghost predicate CounterOk(s: Team)
    requires s.holder < |s.pcs|
  {
    && (forall t :: 0 <= t < |s.pcs| ==> (t in s.leavers <==> s.pcs[t].Gone?))
    && |s.leavers| + Staying(s.pcs) == |s.pcs|
    && (forall j, k :: 0 <= j < k < |s.leavers| ==> s.leavers[j] != s.leavers[k])
    && (s.dead == 0 <==> HolderLast(s))
    && (s.dead == 0 ==> s.left == Staying(s.pcs) && s.deletions == if s.left == 0 then 1 else 0)
    && (s.dead > 0 && (forall k: nat :: s.junk(k) != 1) ==> s.deletions == 0)
  }

  ghost predicate Inv(s: Team) {
    && |s.pcs| == |s.ran| && s.holder < |s.pcs| && |s.owner| <= s.tasks
    && (forall k :: 0 <= k < |s.owner| ==> s.owner[k] < |s.pcs|)
    && (forall t :: 0 <= t < |s.pcs| ==> ThreadOk(s, t))
    && CounterOk(s)
  }

  lemma {:induction false} StayingUpdate(pcs: seq<Pc>, t: nat, pc: Pc)
    requires t < |pcs|
    ensures Staying(pcs[t := pc]) == Staying(pcs) - (if pcs[t].Gone? then 0 else 1) + (if pc.Gone? then 0 else 1)
    ensures !pcs[t].Gone? ==> Staying(pcs) > 0
  {
    var n := |pcs| - 1;
    if t == n {
      assert pcs[t := pc][..n] == pcs[..n];
    } else {
      assert pcs[t := pc][..n] == pcs[..n][t := pc];
      StayingUpdate(pcs[..n], t, pc);
    }
  }

  lemma {:induction false} NobodyStays(pcs: seq<Pc>)
    ensures Staying(pcs) == 0 <==> forall t :: 0 <= t < |pcs| ==> pcs[t].Gone?
  {
    if pcs != [] {
      var n := |pcs| - 1;
      NobodyStays(pcs[..n]);
      assert forall t :: 0 <= t < n ==> pcs[..n][t] == pcs[t];
    }
  }

  lemma {:induction false} AllStay(threads: nat)
    ensures Staying(seq(threads, _ => Entering)) == threads
  {
    if threads > 0 {
      AllStay(threads - 1);
      assert seq(threads, _ => Entering)[..threads - 1] == seq(threads - 1, _ => Entering);
    }
  }

  lemma {:induction false} StartOk(threads: nat, tasks: nat, holder: nat, junk: nat -> int)
    requires holder < threads
    ensures Inv(Start(threads, tasks, holder, junk))
  {
    AllStay(threads);
  }

  lemma {:induction false} LeaveOk(s: Team, t: nat)
    requires Inv(s) && Enabled(s, t) && s.pcs[t].Leaving?
    ensures CounterOk(Apply(s, t))
  {
    var s' := Apply(s, t);
    StayingUpdate(s.pcs, t, Gone);
    assert s'.leavers[..|s.leavers|] == s.leavers;
    assert HolderLast(s') <==> !s.pcs[s.holder].Gone?;
  }

  /** A step that leaves no thread out leaves the counter alone. */
  lemma {:induction false} StayOk(s: Team, t: nat)
    requires Inv(s) && Enabled(s, t) && !s.pcs[t].Leaving?
    ensures CounterOk(Apply(s, t))
  {
    var s' := Apply(s, t);
    StayingUpdate(s.pcs, t, s'.pcs[t]);
    assert s'.leavers == s.leavers && forall u :: 0 <= u < |s.pcs| ==> (s'.pcs[u].Gone? <==> s.pcs[u].Gone?);
  }

  lemma {:induction false} ThreadStepOk(s: Team, t: nat, u: nat)
    requires Enabled(s, t) && u < |s.pcs| && |s.owner| <= s.tasks && ThreadOk(s, u)
    ensures ThreadOk(Apply(s, t), u)
  {
    PositionsSnoc(s.owner, t, u);
    if t != u { assert Apply(s, t).pcs[u] == s.pcs[u] && Apply(s, t).ran[u] == s.ran[u]; }
  }

  lemma {:induction false} StepOk(s: Team, t: nat)
    requires Inv(s) && Enabled(s, t)
    ensures Inv(Apply(s, t))
  {
    if s.pcs[t].Leaving? { LeaveOk(s, t); } else { StayOk(s, t); }
    forall u | 0 <= u < |s.pcs| ensures ThreadOk(Apply(s, t), u) { ThreadStepOk(s, t, u); }
  }

  lemma {:induction false} RunOk(s: Team, turns: seq<nat>)
    requires Inv(s) && ValidRun(s, turns)
    ensures var s' := After(s, turns);
            Inv(s') && s'.tasks == s.tasks && |s'.pcs| == |s.pcs| && s'.holder == s.holder && s'.junk == s.junk
    decreases |turns|
  {
    if turns != [] {
      StepOk(s, turns[0]);
      RunOk(Apply(s, turns[0]), turns[1..]);
    }
  }

  predicate AllGone(s: Team) {
    forall t :: 0 <= t < |s.pcs| ==> s.pcs[t].Gone?
  }

  /** When the threads are out, the counter has been read while it was dead if and only if its holder
      was not the last to leave. */
  lemma {:induction false} CounterLivesExactlyWhen(threads: nat, tasks: nat, holder: nat, junk: nat -> int,
                                                   turns: seq<nat>)
    requires holder < threads && ValidRun(Start(threads, tasks, holder, junk), turns)
    requires AllGone(After(Start(threads, tasks, holder, junk), turns))
    ensures var s := After(Start(threads, tasks, holder, junk), turns);
            |s.leavers| == threads && (s.dead == 0 <==> s.leavers[threads - 1] == holder)
  {
    StartOk(threads, tasks, holder, junk);
    RunOk(Start(threads, tasks, holder, junk), turns);
    var s := After(Start(threads, tasks, holder, junk), turns);
    NobodyStays(s.pcs);
    assert s.pcs[holder].Gone?;
    assert s.leavers == s.leavers[..threads - 1] + [s.leavers[threads - 1]];
  }

  /** In every run, as long as the counter has not been read dead: the schedule is deleted at most
      once, exactly when all threads are out, and nobody touches it later. And in all runs the
      generator's state, which dies with the counter, is used only while it lives. */
  lemma {:induction false} DeletedOnce(threads: nat, tasks: nat, holder: nat, junk: nat -> int, turns: seq<nat>, t: nat)
    requires holder < threads && ValidRun(Start(threads, tasks, holder, junk), turns)
    ensures var s := After(Start(threads, tasks, holder, junk), turns);
            && s.holder == holder < |s.pcs| == threads
            && (s.dead == 0 <==> (s.leavers != [] ==> s.holder !in s.leavers[..|s.leavers| - 1]))
            && (s.dead == 0 ==>
                  s.deletions <= 1 && (s.deletions == 1 <==> forall u :: 0 <= u < |s.pcs| ==> s.pcs[u].Gone?))
            && (s.dead == 0 && t < |s.pcs| && !s.pcs[t].Gone? ==> s.deletions == 0)
            && (t < |s.pcs| && s.pcs[t].Pulling? && |s.owner| != s.tasks ==> !s.pcs[s.holder].Gone?)
  {
    StartOk(threads, tasks, holder, junk);
    RunOk(Start(threads, tasks, holder, junk), turns);
    var s := After(Start(threads, tasks, holder, junk), turns);
    NobodyStays(s.pcs);
    assert ThreadOk(s, s.holder);
  }

  /** Two teams that differ in nothing but what the counter says. */
  ghost predicate Alike(s: Team, s': Team) {
    s' == s.(left := s'.left, junk := s'.junk, deletions := s'.deletions)
  }

  lemma {:induction false} SameMoves(s: Team, s': Team, turns: seq<nat>)
    requires ValidRun(s, turns) && Alike(s, s')
    ensures ValidRun(s', turns) && Alike(After(s, turns), After(s', turns))
    decreases |turns|
  {
    if turns != [] { SameMoves(Apply(s, turns[0]), Apply(s', turns[0]), turns[1..]); }
  }

  /** For turns that bring all threads out: the schedule is deleted once, whatever the counter reads
      as when it is dead, if and only if its holder is the last to leave. */
  lemma {:induction false} DeletedExactlyWhen(threads: nat, tasks: nat, holder: nat, junk: nat -> int, turns: seq<nat>)
    requires holder < threads && ValidRun(Start(threads, tasks, holder, junk), turns)
    requires AllGone(After(Start(threads, tasks, holder, junk), turns))
    ensures var s := After(Start(threads, tasks, holder, junk), turns);
            && |s.leavers| == threads
            && ((forall any: nat -> int ::
                   var start := Start(threads, tasks, holder, any);
                   ValidRun(start, turns) && After(start, turns).deletions == 1) <==>
                s.leavers[threads - 1] == holder)
  {
    var start := Start(threads, tasks, holder, junk);
    CounterLivesExactlyWhen(threads, tasks, holder, junk, turns);
    if After(start, turns).leavers[threads - 1] == holder {
      forall any: nat -> int
        ensures ValidRun(Start(threads, tasks, holder, any), turns)
        ensures After(Start(threads, tasks, holder, any), turns).deletions == 1
      {
        SameMoves(start, Start(threads, tasks, holder, any), turns);
        DeletedOnce(threads, tasks, holder, any, turns, 0);
      }
    } else {
      var zero: nat -> int := _ => 0;
      SameMoves(start, Start(threads, tasks, holder, zero), turns);
      StartOk(threads, tasks, holder, zero);
      RunOk(Start(threads, tasks, holder, zero), turns);
    }
  }

  /** Two threads without a task, the holder first: the other one reads the counter when it is dead,
      and deletes the schedule only if it happens to read as 1. */
  lemma {:induction false} HolderFirst(junk: nat -> int)
    ensures var start, turns := Start(2, 0, 0, junk), [0, 0, 0, 1, 1, 1];
            && ValidRun(start, turns) && AllGone(After(start, turns))
            && After(start, turns).dead == 1
            && (After(start, turns).deletions == 1 <==> junk(0) == 1)
  {
    var s0 := Start(2, 0, 0, junk);
    var s1 := Apply(s0, 0);
    var s2 := Apply(s1, 0);
    var s3 := Apply(s2, 0);
    var s4 := Apply(s3, 1);
    var s5 := Apply(s4, 1);
    var s6 := Apply(s5, 1);
    var turns: seq<nat> := [0, 0, 0, 1, 1, 1];
    assert turns[1..] == [0, 0, 1, 1, 1] && turns[1..][1..] == [0, 1, 1, 1] && turns[1..][1..][1..] == [1, 1, 1];
    OneTurn(s5, 1, []);
    OneTurn(s4, 1, [1]);
    OneTurn(s3, 1, [1, 1]);
    OneTurn(s2, 0, [1, 1, 1]);
    OneTurn(s1, 0, [0, 1, 1, 1]);
    OneTurn(s0, 0, [0, 0, 1, 1, 1]);
  }

  lemma {:induction false} OneTurn(s: Team, t: nat, rest: seq<nat>)
    requires Enabled(s, t) && ValidRun(Apply(s, t), rest)
    ensures ValidRun(s, [t] + rest) && After(s, [t] + rest) == After(Apply(s, t), rest)
  {
    assert ([t] + rest)[1..] == rest;
  }

  /** How often the threads have run task `k`, all together. */
  function TimesRun(ran: seq<seq<nat>>, k: nat): nat {
    if ran == [] then 0 else TimesRun(ran[..|ran| - 1], k) + Occurs(ran[|ran| - 1], k)
  }

  lemma {:induction false} TimesRunExact(s: Team, ran: seq<seq<nat>>, k: nat)
    requires Inv(s) && ran <= s.ran && AllGone(s)
    ensures TimesRun(ran, k) == if k < |s.owner| && s.owner[k] < |ran| then 1 else 0
  {
    if ran != [] {
      var n := |ran| - 1;
      TimesRunExact(s, ran[..n], k);
      assert ThreadOk(s, n);
      assert s.ran[n] == Positions(s.owner, n);
      PositionsExact(s.owner, n, k);
    }
  }

  /** The turns bring all threads of a team out, in state `s`. */
  ghost predicate TeamRun(threads: nat, tasks: nat, holder: nat, junk: nat -> int, turns: seq<nat>, s: Team) {
    && holder < threads && ValidRun(Start(threads, tasks, holder, junk), turns)
    && After(Start(threads, tasks, holder, junk), turns) == s && AllGone(s)
  }

  lemma {:induction false} AllOut(threads: nat, tasks: nat, holder: nat, junk: nat -> int, turns: seq<nat>, s: Team)
    requires TeamRun(threads, tasks, holder, junk, turns, s)
    ensures Inv(s) && |s.ran| == threads && |s.owner| == tasks
    ensures forall k :: 0 <= k < tasks ==> s.owner[k] < threads
    ensures forall t :: 0 <= t < threads ==> s.ran[t] == Positions(s.owner, t)
  {
    StartOk(threads, tasks, holder, junk);
    RunOk(Start(threads, tasks, holder, junk), turns);
    assert ThreadOk(s, 0);
    forall t | 0 <= t < threads ensures s.ran[t] == Positions(s.owner, t) {
      assert ThreadOk(s, t);
      assert s.ran[t] + [] == s.ran[t];
    }
  }

  /** When all threads are out, every task of the rank has been run, once, by one thread, and each
      thread ran its tasks in order. */
  lemma {:induction false} TeamExactlyOnce(threads: nat, tasks: nat, holder: nat, junk: nat -> int,
                                           turns: seq<nat>, s: Team)
    requires TeamRun(threads, tasks, holder, junk, turns, s)
    ensures forall k: nat :: TimesRun(s.ran, k) == if k < tasks then 1 else 0
    ensures |s.ran| == threads && forall t :: 0 <= t < threads ==> Increasing(s.ran[t])
  {
    AllOut(threads, tasks, holder, junk, turns, s);
    forall k: nat ensures TimesRun(s.ran, k) == if k < tasks then 1 else 0 { TimesRunExact(s, s.ran, k); }
    forall t | 0 <= t < threads ensures Increasing(s.ran[t]) { PositionsAscend(s.owner, t); }
  }

  // ---------------------------------------------------------------- progress

  function PcWeight(pc: Pc): nat {
    match pc
    case Entering => 3
    case Pulling => 2
    case Running(_) => 3
    case Leaving => 1
    case Gone => 0
  }

  function PcsWeight(pcs: seq<Pc>): nat {
    if pcs == [] then 0 else PcsWeight(pcs[..|pcs| - 1]) + PcWeight(pcs[|pcs| - 1])
  }

  function Measure(s: Team): nat
    requires |s.owner| <= s.tasks
  {
    2 * (s.tasks - |s.owner|) + PcsWeight(s.pcs)
  }

  lemma {:induction false} PcsUpdate(pcs: seq<Pc>, t: nat, pc: Pc)
    requires t < |pcs|
    ensures PcsWeight(pcs[t := pc]) == PcsWeight(pcs) - PcWeight(pcs[t]) + PcWeight(pc)
  {
    var n := |pcs| - 1;
    if t == n {
      assert pcs[t := pc][..n] == pcs[..n];
    } else {
      assert pcs[t := pc][..n] == pcs[..n][t := pc];
      PcsUpdate(pcs[..n], t, pc);
    }
  }

  lemma {:induction false} TurnLess(s: Team, t: nat)
    requires Inv(s) && Enabled(s, t)
    ensures Inv(Apply(s, t)) && Measure(Apply(s, t)) < Measure(s)
  {
    StepOk(s, t);
    PcsUpdate(s.pcs, t, Apply(s, t).pcs[t]);
  }

  /** Every turn of every thread brings the team nearer to its end, so no schedule of turns is longer
      than the measure; and only a team whose threads are all out has no turn left. */
  lemma {:induction false} TeamTerminates(s: Team, turns: seq<nat>)
    requires Inv(s) && ValidRun(s, turns)
    ensures Inv(After(s, turns)) && |turns| + Measure(After(s, turns)) <= Measure(s)
    ensures AllGone(After(s, turns)) <==> forall t: nat :: !Enabled(After(s, turns), t)
    decreases |turns|
  {
    if turns == [] {
      if forall t: nat :: !Enabled(s, t) {
        forall t | 0 <= t < |s.pcs| ensures s.pcs[t].Gone? { assert !Enabled(s, t); }
      }
    } else {
      TurnLess(s, turns[0]);
      TeamTerminates(Apply(s, turns[0]), turns[1..]);
    }
  }

  /** From every state of a team, turns can be taken that bring all threads out. */
  lemma {:induction false} TeamCanFinish(s: Team) returns (turns: seq<nat>)
    requires Inv(s)
    ensures ValidRun(s, turns) && AllGone(After(s, turns))
    decreases Measure(s)
  {
    turns := [];
    if t :| 0 <= t < |s.pcs| && !s.pcs[t].Gone? {
      TurnLess(s, t);
      var rest := TeamCanFinish(Apply(s, t));
      OneTurn(s, t, rest);
      turns := [t] + rest;
    }
  }
}
