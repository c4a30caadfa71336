/** The promises of the dynamic schedule, each for every run from the start: any number of clients
    and schedules, any credits and ranges, any interleaving. */
module ProtocolTheorems {
  import opened Sums
  import opened Basics
  import opened FirstRound
  import opened Protocol
  import opened ProtocolInvariant
  import opened ProtocolSafety

  /** The payloads of the values in `q`, in order. */
  function Indices(q: seq<Msg>): seq<nat> {
    if q == [] then []
    else (if q[0].tag.ServerSendVal? then [q[0].index] else []) + Indices(q[1..])
  }

  function Tagged(q: seq<Msg>, t: Tag): nat {
    if q == [] then 0 else (if q[0].tag == t then 1 else 0) + Tagged(q[1..], t)
  }

  /** What a client has received, and what is still under way to it. */
  function Held(l: Link): seq<nat> {
    l.got + Indices(l.down.All())
  }

  /** How often the clients hold value `k`, all together. */
  function TimesHeld(links: seq<Link>, k: nat): nat {
    if links == [] then 0
    else TimesHeld(links[..|links| - 1], k) + Occurs(Held(links[|links| - 1]), k)
  }

  predicate Increasing(s: seq<nat>) {
    forall i, j :: 0 <= i < j < |s| ==> s[i] < s[j]
  }

  // ---------------------------------------------------------------- channel contents as counts

  lemma {:induction false} ReadValues(schedule: nat, xs: seq<nat>, tail: seq<Msg>)
    requires |tail| <= 1 && (tail != [] ==> tail[0].tag.ValGenDone?)
    ensures Indices(Values(schedule, xs) + tail) == xs
    ensures Tagged(Values(schedule, xs) + tail, ServerSendVal) == |xs|
  {
    var q := Values(schedule, xs) + tail;
    if xs == [] {
      assert q == tail;
      assert tail != [] ==> tail[1..] == [];
    } else {
      assert q[1..] == Values(schedule, xs[1..]) + tail;
      ReadValues(schedule, xs[1..], tail);
    }
  }

  lemma {:induction false} CountRequests(schedule: nat, n: nat, tail: seq<Msg>)
    requires |tail| <= 1 && (tail != [] ==> tail[0].tag.ClientFinished?)
    ensures Tagged(Requests(schedule, n) + tail, ClientRequestVal) == n
  {
    var q := Requests(schedule, n) + tail;
    if n == 0 {
      assert q == tail;
      assert tail != [] ==> tail[1..] == [];
    } else {
      assert q[1..] == Requests(schedule, n - 1) + tail;
      CountRequests(schedule, n - 1, tail);
    }
  }

  lemma HeldIsMine(l: Link, v: View)
    requires LinkOk(l, v)
    ensures Held(l) == v.mine
    ensures Tagged(l.down.All(), ServerSendVal) == |v.mine| - |l.got|
    ensures Tagged(l.up.All(), ClientRequestVal) == Outstanding(l, v)
  {
    ReadValues(v.schedule, v.mine[|l.got|..], Optional(v.doneSent && !l.genFinished, ValGenDone, v.schedule));
    CountRequests(v.schedule, Outstanding(l, v), Optional(l.pc.Over? && !v.finishHeard, ClientFinished, v.schedule));
  }

  // ---------------------------------------------------------------- positions

  /** `Positions` picks the positions owned by `r` in increasing order. */
  lemma {:induction false} PositionsAscend(owner: seq<nat>, r: nat)
    ensures Increasing(Positions(owner, r))
    ensures forall i :: 0 <= i < |Positions(owner, r)| ==> Positions(owner, r)[i] < |owner|
  {
    if owner != [] { PositionsAscend(owner[..|owner| - 1], r); }
  }

  /** `Positions` picks exactly the positions owned by `r`, each once. */
  lemma {:induction false} PositionsExact(owner: seq<nat>, r: nat, k: nat)
    ensures Occurs(Positions(owner, r), k) == if k < |owner| && owner[k] == r then 1 else 0
  {
    if owner != [] {
      var n := |owner| - 1;
      PositionsExact(owner[..n], r, k);
      OccursSnoc(Positions(owner[..n], r), n, k);
      assert Positions(owner[..n], r) + [] == Positions(owner[..n], r);
    }
  }

  lemma {:induction false} TimesHeldExact(s: State, links: seq<Link>, k: nat)
    requires Inv(s) && links <= s.links
    ensures TimesHeld(links, k) == if k < |s.owner| && 1 <= s.owner[k] <= |links| then 1 else 0
  {
    if links != [] {
      var n := |links| - 1;
      TimesHeldExact(s, links[..n], k);
      HeldIsMine(links[n], ViewOf(s, n));
      PositionsExact(s.owner, n + 1, k);
    }
  }

  // ---------------------------------------------------------------- the theorems

  lemma Reached(clients: nat, acts: seq<Action>) returns (s: State)
    requires ValidRun(Idle(clients), acts)
    ensures s == After(Idle(clients), acts) && Inv(s)
  {
    IdleOk(clients);
    RunOk(Idle(clients), acts);
    s := After(Idle(clients), acts);
  }

  /** Every value the iterator has passed is held exactly once: the root consumed it, or it is on
      its way to one client, or one client received it. Nobody holds anything else, everybody
      holds its values in ascending order, and when the schedule is over every value of the range
      has been received or consumed. */
  lemma ExactlyOnce(clients: nat, acts: seq<Action>)
    requires ValidRun(Idle(clients), acts)
    ensures var s := After(Idle(clients), acts);
            && (forall k: nat :: Occurs(s.consumed, k) + TimesHeld(s.links, k) == if k < |s.owner| then 1 else 0)
            && (forall i, j :: 0 <= i < j < |s.consumed| ==> s.consumed[i] < s.consumed[j])
            && (forall c, i, j :: 0 <= c < |s.links| && 0 <= i < j < |Held(s.links[c])| ==>
                  Held(s.links[c])[i] < Held(s.links[c])[j])
            && (s.root.Out? ==>
                  |s.owner| == s.count && forall c :: 0 <= c < |s.links| ==> Held(s.links[c]) == s.links[c].got)
  {
    var s := Reached(clients, acts);
    PositionsAscend(s.owner, 0);
    forall k: nat ensures Occurs(s.consumed, k) + TimesHeld(s.links, k) == if k < |s.owner| then 1 else 0 {
      PositionsExact(s.owner, 0, k);
      TimesHeldExact(s, s.links, k);
    }
    forall c | 0 <= c < |s.links|
      ensures Increasing(Held(s.links[c])) && (s.root.Out? ==> Held(s.links[c]) == s.links[c].got)
    {
      HeldIsMine(s.links[c], ViewOf(s, c));
      PositionsAscend(s.owner, c + 1);
    }
  }

  /** Credit as the code keeps it. The first round answers requests without receiving them, so the
      requests and values of a client in circulation add up to its credit plus its share of the
      first round: at most twice the credit is ever under way to it, and its whole credit plus
      that share is thrown away in the end. */
  lemma Credit(clients: nat, acts: seq<Action>, c: nat)
    requires ValidRun(Idle(clients), acts) && c < |After(Idle(clients), acts).links|
    requires !After(Idle(clients), acts).root.InBarrier?
    ensures var s := After(Idle(clients), acts);
            var l := s.links[c];
            && |s.sizes| == |s.links|
            && Tagged(l.up.All(), ClientRequestVal) + Tagged(l.down.All(), ServerSendVal)
               + (if l.pc.Asking? then 1 else 0) + (if s.root == Answering(c) then 1 else 0) + l.drained
               == s.sizes[c] + l.dealt
            && l.dealt <= s.sizes[c]
            && Tagged(l.down.All(), ServerSendVal) <= 2 * s.sizes[c]
            && (s.root.Out? ==> l.drained == s.sizes[c] + l.dealt)
  {
    var s := Reached(clients, acts);
    var r, cut := Balanced([0] + s.sizes, s.count);
    assert Occurs(Shares(s), c + 1) <= ([0] + s.sizes)[c + 1];
    HeldIsMine(s.links[c], ViewOf(s, c));
    if s.root.Out? { QuietLink(s.links[c], ViewOf(s, c)); }
  }

  /** Once the first round is over, its values are spread evenly: the credits were served round by
      round, and the values or the credits ran out just before rank `cut` of round `r`. */
  lemma FirstRoundBalanced(clients: nat, acts: seq<Action>) returns (r: nat, cut: nat)
    requires ValidRun(Idle(clients), acts)
    requires var s := After(Idle(clients), acts); !s.root.InBarrier? && !s.root.Dealing?
    ensures var s := After(Idle(clients), acts);
            && |s.sizes| == |s.links| && |Shares(s)| == Min(s.count, Sum([0] + s.sizes))
            && Shares(s) <= s.owner
            && forall c :: 0 <= c < |s.links| ==> s.links[c].dealt == Share(s.sizes[c], r, cut, c + 1)
  {
    var s := Reached(clients, acts);
    r, cut := Balanced([0] + s.sizes, s.count);
    forall c | 0 <= c < |s.links| ensures s.links[c].dealt == Share(s.sizes[c], r, cut, c + 1) {
      assert LinkOk(s.links[c], ViewOf(s, c));
      assert ([0] + s.sizes)[c + 1] == s.sizes[c];
    }
  }

  /** In every state from the first value on, the values that the first round has dealt so far are spread
      evenly: the clients before some cut have got one more than the others, up to their credits; and
      while it goes on, they are the first ones of the balanced order. */
  lemma FirstRoundAlwaysBalanced(clients: nat, acts: seq<Action>) returns (r: nat, cut: nat)
    requires ValidRun(Idle(clients), acts) && !After(Idle(clients), acts).root.InBarrier?
    ensures var s := After(Idle(clients), acts);
            && |s.sizes| == |s.links|
            && (s.root.Dealing? ==> s.owner <= Shares(s))
            && forall c :: 0 <= c < |s.links| ==>
                 s.links[c].dealt == if c + 1 < cut then Min(s.sizes[c], r + 1) else Min(s.sizes[c], r)
  {
    var s := Reached(clients, acts);
    var m := if s.root.Dealing? then |s.owner| else |Shares(s)|;
    assert s.root.Dealing? ==> Shares(s) == s.owner + s.root.rest;
    r, cut := BalancedAlways([0] + s.sizes, s.count, m);
    forall c | 0 <= c < |s.links|
      ensures s.links[c].dealt == if c + 1 < cut then Min(s.sizes[c], r + 1) else Min(s.sizes[c], r)
    {
      DealtSoFar(s, c);
      assert ([0] + s.sizes)[c + 1] == s.sizes[c];
    }
  }

  /** What the first round has dealt to a client is its part of the order so far. */
  lemma DealtSoFar(s: State, c: nat)
    requires Inv(s) && !s.root.InBarrier? && c < |s.links|
    ensures var m := if s.root.Dealing? then |s.owner| else |Shares(s)|;
            m <= |Shares(s)| && s.links[c].dealt == Occurs(Shares(s)[..m], c + 1)
  {
    assert LinkOk(s.links[c], ViewOf(s, c));
    if s.root.Dealing? {
      OccursAppend(s.owner, s.root.rest, c + 1);
      assert Shares(s)[..|s.owner|] == s.owner;
    } else {
      assert Shares(s)[..|Shares(s)|] == Shares(s);
    }
  }

  /** A client that has decided to leave has received every value ever dealt to it, and the root
      has dealt its whole range. */
  lemma SafeShutdown(clients: nat, acts: seq<Action>, c: nat)
    requires ValidRun(Idle(clients), acts) && c < |After(Idle(clients), acts).links|
    requires var l := After(Idle(clients), acts).links[c]; l.pc.Leaving? || l.pc.Over?
    ensures var s := After(Idle(clients), acts);
            && |s.owner| == s.count
            && s.links[c].got == Positions(s.owner, c + 1)
            && Tagged(s.links[c].down.All(), ServerSendVal) == 0
  {
    var s := Reached(clients, acts);
    HeldIsMine(s.links[c], ViewOf(s, c));
  }

  function Stage(r: RootPc): nat {
    match r
    case InBarrier => 0
    case Dealing(_) => 1
    case Serving => 2
    case Hearing(_) => 2
    case Answering(_) => 2
    case Consuming => 2
    case Announcing(_) => 3
    case Collecting(_) => 4
    case Draining => 5
    case Dropping(_) => 5
    case Out => 6
  }

  predicate SameSchedule(acts: seq<Action>) {
    forall k :: 0 <= k < |acts| ==> !acts[k].Gather?
  }

  /** Within a schedule the root never goes back a stage, so it cleans up once; and from the first
      `val_gen_done` on it deals and consumes nothing, whatever else happens. */
  lemma {:induction false} NoValueAfterDone(s: State, acts: seq<Action>)
    requires ValidRun(s, acts) && SameSchedule(acts)
    ensures Stage(After(s, acts).root) >= Stage(s.root)
    ensures s.root.Announcing? || s.root.Collecting? || s.root.Draining? || s.root.Dropping? || s.root.Out? ==>
              && After(s, acts).owner == s.owner && After(s, acts).consumed == s.consumed
              && !After(s, acts).root.Serving? && !After(s, acts).root.Consuming? && !After(s, acts).root.Dealing?
              && !After(s, acts).root.Answering? && !After(s, acts).root.Hearing? && !After(s, acts).root.InBarrier?
    decreases |acts|
  {
    if acts != [] {
      assert !acts[0].Gather?;
      NoValueAfterDone(Apply(s, acts[0]), acts[1..]);
    }
  }

  /** When the root leaves `finish_cleanup`, every client is out, and nothing is left in any
      channel. */
  lemma Quiescence(clients: nat, acts: seq<Action>, c: nat)
    requires ValidRun(Idle(clients), acts) && c < |After(Idle(clients), acts).links|
    requires After(Idle(clients), acts).root.Out?
    ensures var l := After(Idle(clients), acts).links[c];
            l.pc.Over? && l.down == Channel([], []) && l.up == Channel([], [])
  {
    var s := Reached(clients, acts);
    QuietLink(s.links[c], ViewOf(s, c));
  }

  lemma LinkIsolated(l: Link, v: View, m: Msg)
    requires LinkOk(l, v) && (m in l.down.All() || m in l.up.All())
    ensures m.schedule == v.schedule
  {
  }

  /** No message outlives its schedule: whatever is under way at any time was sent in the schedule
      that its receiver is in. */
  lemma Isolation(clients: nat, acts: seq<Action>, c: nat, m: Msg)
    requires ValidRun(Idle(clients), acts) && c < |After(Idle(clients), acts).links|
    requires var l := After(Idle(clients), acts).links[c]; m in l.down.All() || m in l.up.All()
    ensures m.schedule == After(Idle(clients), acts).schedule
  {
    var s := Reached(clients, acts);
    LinkIsolated(s.links[c], ViewOf(s, c), m);
  }
}
