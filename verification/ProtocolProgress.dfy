/** Deadlock freedom and termination. A polling client may spin; every other step of a schedule
    lowers one natural number, and until the schedule is over some such step can be taken. */
module ProtocolProgress {
  import opened Sums
  import opened FirstRound
  import opened Protocol
  import opened ProtocolInvariant
  import opened ProtocolSafety
  import opened ProtocolTheorems

  /** The end mark has reached the client, or the client has already received it. */
  predicate DoneVisible(l: Link) {
    l.genFinished || l.down.Visible(ValGenDone)
  }

  /** A probe that finds nothing and leads back to itself. */
  predicate Spin(s: State, a: Action)
    requires Enabled(s, a)
  {
    a.ClientAct? &&
    var l := s.links[a.client];
    !DoneVisible(l) && (l.pc.ProbingDone? || (l.pc.Probing? && !l.down.Visible(ServerSendVal)))
  }

  function MsgWeight(t: Tag, arrived: bool): nat {
    match t
    case ClientRequestVal => if arrived then 2 else 3
    case ServerSendVal => if arrived then 9 else 10
    case ValGenDone => if arrived then 1 else 3
    case ClientFinished => if arrived then 1 else 2
  }

  function Weigh(q: seq<Msg>, arrived: bool): nat {
    if q == [] then 0 else MsgWeight(q[0].tag, arrived) + Weigh(q[1..], arrived)
  }

  function ChannelWeight(d: Channel): nat {
    Weigh(d.arrived, true) + Weigh(d.transit, false)
  }

  function PcWeight(l: Link): nat {
    match l.pc
    case Posting(left) => 4 * left + 7
    case AtBarrier => 6
    case Probing => if DoneVisible(l) then 6 else 5
    case ProbingDone => 5
    case HearingDone => 4
    case Reprobing => 4
    case Taking => 3
    case Asking => 11
    case Working => 7
    case Leaving => 3
    case Over => 0
  }

  function LinkWeight(l: Link): nat {
    PcWeight(l) + ChannelWeight(l.down) + ChannelWeight(l.up)
  }

  function Weights(links: seq<Link>): (w: seq<nat>)
    ensures |w| == |links|
  {
    seq(|links|, c requires 0 <= c < |links| => LinkWeight(links[c]))
  }

  function LinksWeight(links: seq<Link>): nat { Sum(Weights(links)) }

  function RootWeight(r: RootPc, clients: nat): nat {
    match r
    case InBarrier => 4 * clients + 9
    case Dealing(_) => 4 * clients + 8
    case Serving => 4 * clients + 7
    case Hearing(_) => 4 * clients + 6
    case Answering(_) => 4 * clients + 6
    case Consuming => 4 * clients + 6
    case Announcing(k) => if k <= clients then 4 + 4 * (clients - k) else 0
    case Collecting(_) => 3
    case Draining => 2
    case Dropping(_) => 1
    case Out => 0
  }

  /** What is left to do in the schedule: values to deal, the root's stage, messages under way, and
      the place of each client. */
  function Measure(s: State): nat
    requires |s.owner| <= s.count
  {
    12 * (s.count - |s.owner|) + RootWeight(s.root, |s.links|) + LinksWeight(s.links)
  }

  lemma {:induction false} WeighAppend(q: seq<Msg>, m: Msg, arrived: bool)
    ensures Weigh(q + [m], arrived) == Weigh(q, arrived) + MsgWeight(m.tag, arrived)
  {
    if q != [] {
      assert (q + [m])[1..] == q[1..] + [m];
      WeighAppend(q[1..], m, arrived);
    }
  }

  lemma {:induction false} WeighRemove(q: seq<Msg>, p: nat, arrived: bool)
    requires p < |q|
    ensures Weigh(q[..p] + q[p + 1..], arrived) == Weigh(q, arrived) - MsgWeight(q[p].tag, arrived)
  {
    if p == 0 {
      assert q[..p] + q[p + 1..] == q[1..];
    } else {
      assert (q[..p] + q[p + 1..])[1..] == q[1..][..p - 1] + q[1..][p..];
      WeighRemove(q[1..], p - 1, arrived);
    }
  }

  lemma SendWeight(d: Channel, m: Msg)
    ensures ChannelWeight(d.Send(m)) == ChannelWeight(d) + MsgWeight(m.tag, false)
  {
    WeighAppend(d.transit, m, false);
  }

  lemma ReceiveWeight(d: Channel, t: Tag)
    requires d.Visible(t)
    ensures ChannelWeight(d.Receive(t)) == ChannelWeight(d) - MsgWeight(t, true)
  {
    WeighRemove(d.arrived, FirstAt(d.arrived, t), true);
  }

  lemma DeliverWeight(d: Channel)
    requires d.transit != []
    ensures var t := d.transit[0].tag;
            ChannelWeight(d.Deliver()) == ChannelWeight(d) - MsgWeight(t, false) + MsgWeight(t, true)
  {
    WeighAppend(d.arrived, d.transit[0], true);
  }

  lemma LinksUpdate(links: seq<Link>, c: nat, l: Link)
    requires c < |links|
    ensures LinksWeight(links[c := l]) == LinksWeight(links) - LinkWeight(links[c]) + LinkWeight(l)
  {
    assert Weights(links[c := l]) == Weights(links)[c := LinkWeight(l)];
    SumUpdate(Weights(links), c, LinkWeight(l));
  }

  lemma {:induction false} FirstAtAppend(q: seq<Msg>, m: Msg, t: Tag)
    ensures FirstAt(q + [m], t) == if FirstAt(q, t) < |q| || m.tag == t then FirstAt(q, t) else |q| + 1
  {
    if q != [] && q[0].tag != t {
      assert (q + [m])[1..] == q[1..] + [m];
      FirstAtAppend(q[1..], m, t);
    }
  }

  lemma DeliverDownLess(l: Link)
    requires l.down.transit != []
    ensures LinkWeight(l.(down := l.down.Deliver())) < LinkWeight(l)
  {
    DeliverWeight(l.down);
    FirstAtAppend(l.down.arrived, l.down.transit[0], ValGenDone);
  }

  lemma DeliverUpLess(l: Link)
    requires l.up.transit != []
    ensures LinkWeight(l.(up := l.up.Deliver())) < LinkWeight(l)
  {
    DeliverWeight(l.up);
  }

  /** Sending to a client does not change what it can see. */
  lemma DownSendWeight(links: seq<Link>, c: nat, m: Msg, dealt: nat)
    requires c < |links|
    ensures LinksWeight(links[c := links[c].(down := links[c].down.Send(m), dealt := dealt)]) ==
            LinksWeight(links) + MsgWeight(m.tag, false)
  {
    SendWeight(links[c].down, m);
    LinksUpdate(links, c, links[c].(down := links[c].down.Send(m), dealt := dealt));
  }

  lemma UpReceiveWeight(links: seq<Link>, c: nat, t: Tag, drained: nat)
    requires c < |links| && links[c].up.Visible(t)
    ensures LinksWeight(links[c := links[c].(up := links[c].up.Receive(t), drained := drained)]) ==
            LinksWeight(links) - MsgWeight(t, true)
  {
    ReceiveWeight(links[c].up, t);
    LinksUpdate(links, c, links[c].(up := links[c].up.Receive(t), drained := drained));
  }

  /** A client step lowers its weight, except that a spin leaves it alone. */
  lemma ClientStepLess(l: Link, schedule: nat)
    requires ClientReady(l) && (l.pc.ProbingDone? ==> !l.genFinished)
    ensures var spin := !DoneVisible(l) && (l.pc.ProbingDone? || (l.pc.Probing? && !l.down.Visible(ServerSendVal)));
            if spin then LinkWeight(ClientStep(l, schedule)) == LinkWeight(l)
            else LinkWeight(ClientStep(l, schedule)) < LinkWeight(l)
  {
    match l.pc
    case Posting(left) => SendWeight(l.up, Msg(ClientRequestVal, schedule, 0));
    case HearingDone => ReceiveWeight(l.down, ValGenDone);
    case Taking => ReceiveWeight(l.down, ServerSendVal);
    case Asking => SendWeight(l.up, Msg(ClientRequestVal, schedule, 0));
    case Leaving => SendWeight(l.up, Msg(ClientFinished, schedule, 0));
    case _ =>
  }

  /** The root still has the value it is about to hand out. */
  predicate Room(s: State) {
    && |s.owner| <= s.count
    && ((s.root.Dealing? && s.root.rest != []) || s.root.Hearing? || s.root.Answering? || s.root.Consuming? ==>
          |s.owner| < s.count)
  }

  lemma InvRoom(s: State)
    requires Inv(s)
    ensures Room(s)
  {
    var r, cut := Balanced([0] + s.sizes, s.count);
    if s.root.Dealing? { assert |Shares(s)| == |s.owner| + |s.root.rest|; }
  }

  lemma SendValueWeight(s: State, c: nat, first: nat)
    requires c < |s.links|
    ensures LinksWeight(SendValue(s, c, first).links) == LinksWeight(s.links) + MsgWeight(ServerSendVal, false)
  {
    DownSendWeight(s.links, c, Msg(ServerSendVal, s.schedule, |s.owner|), s.links[c].dealt + first);
  }

  /** A step of the root that hands out one value and makes the links heavier by less than that. */
  lemma HandOutLess(s: State, s': State)
    requires |s.owner| < s.count && s'.count == s.count && |s'.links| == |s.links|
    requires |s'.owner| == |s.owner| + 1 && RootWeight(s'.root, |s.links|) <= RootWeight(s.root, |s.links|) + 1
    requires LinksWeight(s'.links) <= LinksWeight(s.links) + MsgWeight(ServerSendVal, false)
    ensures Measure(s') < Measure(s)
  {
  }

  /** A step of the root that hands out nothing. */
  lemma OtherLess(s: State, s': State)
    requires |s.owner| <= s.count && s'.count == s.count && |s'.links| == |s.links| && s'.owner == s.owner
    requires RootWeight(s'.root, |s.links|) + LinksWeight(s'.links) <
             RootWeight(s.root, |s.links|) + LinksWeight(s.links)
    ensures Measure(s') < Measure(s)
  {
  }

  lemma DealingLess(s: State, source: nat)
    requires RootReady(s, source) && Room(s) && s.root.Dealing?
    ensures |RootStep(s, source).owner| <= s.count && Measure(RootStep(s, source)) < Measure(s)
  {
    if s.root.rest == [] {
      OtherLess(s, RootStep(s, source));
    } else {
      SendValueWeight(s, s.root.rest[0] - 1, 1);
      HandOutLess(s, RootStep(s, source));
    }
  }

  lemma AnsweringLess(s: State, source: nat)
    requires RootReady(s, source) && Room(s) && s.root.Answering?
    ensures |RootStep(s, source).owner| <= s.count && Measure(RootStep(s, source)) < Measure(s)
  {
    SendValueWeight(s, s.root.client, 0);
    HandOutLess(s, RootStep(s, source));
  }

  lemma AnnouncingLess(s: State, source: nat)
    requires RootReady(s, source) && Room(s) && s.root.Announcing?
    ensures |RootStep(s, source).owner| <= s.count && Measure(RootStep(s, source)) < Measure(s)
  {
    var k := s.root.k;
    if k < |s.links| { DownSendWeight(s.links, k, Msg(ValGenDone, s.schedule, 0), s.links[k].dealt); }
    OtherLess(s, RootStep(s, source));
  }

  lemma CollectingLess(s: State, source: nat)
    requires RootReady(s, source) && Room(s) && s.root.Collecting?
    ensures |RootStep(s, source).owner| <= s.count && Measure(RootStep(s, source)) < Measure(s)
  {
    var k := s.root.k;
    if k < |s.links| { UpReceiveWeight(s.links, k, ClientFinished, s.links[k].drained); }
    OtherLess(s, RootStep(s, source));
  }

  lemma HearingLess(s: State, source: nat)
    requires RootReady(s, source) && Room(s) && s.root.Hearing?
    ensures |RootStep(s, source).owner| <= s.count && Measure(RootStep(s, source)) < Measure(s)
  {
    var c := s.root.client;
    UpReceiveWeight(s.links, c, ClientRequestVal, s.links[c].drained);
    OtherLess(s, RootStep(s, source));
  }

  lemma DroppingLess(s: State, source: nat)
    requires RootReady(s, source) && Room(s) && s.root.Dropping?
    ensures |RootStep(s, source).owner| <= s.count && Measure(RootStep(s, source)) < Measure(s)
  {
    var c := s.root.client;
    UpReceiveWeight(s.links, c, ClientRequestVal, s.links[c].drained + 1);
    OtherLess(s, RootStep(s, source));
  }

  lemma RootStepLess(s: State, source: nat)
    requires RootReady(s, source) && Room(s)
    ensures |RootStep(s, source).owner| <= s.count && Measure(RootStep(s, source)) < Measure(s)
  {
    match s.root
    case Dealing(_) => DealingLess(s, source);
    case Hearing(_) => HearingLess(s, source);
    case Answering(_) => AnsweringLess(s, source);
    case Announcing(_) => AnnouncingLess(s, source);
    case Collecting(_) => CollectingLess(s, source);
    case Dropping(_) => DroppingLess(s, source);
    case _ =>
  }

  lemma PassLinksLess(links: seq<Link>, links': seq<Link>)
    requires |links'| == |links|
    requires forall c :: 0 <= c < |links| ==> links[c].pc.AtBarrier? && links'[c] == links[c].(pc := Probing)
    ensures LinksWeight(links') <= LinksWeight(links)
  {
    forall c | 0 <= c < |links| ensures LinkWeight(links'[c]) <= LinkWeight(links[c]) {
      assert PcWeight(links'[c]) <= 6;
    }
    SumMonotone(Weights(links'), Weights(links));
  }

  lemma StepWeight(s: State, a: Action)
    requires Room(s) && Enabled(s, a) && !a.Gather?
    requires a.ClientAct? && s.links[a.client].pc.ProbingDone? ==> !s.links[a.client].genFinished
    ensures |Apply(s, a).owner| <= s.count
    ensures if Spin(s, a) then Measure(Apply(s, a)) == Measure(s) else Measure(Apply(s, a)) < Measure(s)
  {
    match a
    case PassBarrier => PassLinksLess(s.links, Apply(s, a).links);
    case DeliverDown(c) =>
      DeliverDownLess(s.links[c]);
      LinksUpdate(s.links, c, Apply(s, a).links[c]);
    case DeliverUp(c) =>
      DeliverUpLess(s.links[c]);
      LinksUpdate(s.links, c, Apply(s, a).links[c]);
    case ClientAct(c) =>
      ClientStepLess(s.links[c], s.schedule);
      LinksUpdate(s.links, c, Apply(s, a).links[c]);
    case RootAct(source) => RootStepLess(s, source);
  }

  /** Inside a schedule every step lowers the measure, except that a spin leaves it alone. */
  lemma StepLess(s: State, a: Action)
    requires Inv(s) && Enabled(s, a) && !a.Gather?
    ensures Inv(Apply(s, a))
    ensures if Spin(s, a) then Measure(Apply(s, a)) == Measure(s) else Measure(Apply(s, a)) < Measure(s)
  {
    StepOk(s, a);
    InvRoom(s);
    if a.ClientAct? { assert LinkOk(s.links[a.client], ViewOf(s, a.client)); }
    StepWeight(s, a);
  }

  // ---------------------------------------------------------------- some step can always be taken

  predicate Useful(s: State, a: Action) {
    Enabled(s, a) && !a.Gather? && !Spin(s, a)
  }

  predicate Silent(s: State) {
    forall c :: 0 <= c < |s.links| ==> s.links[c].down.transit == [] && s.links[c].up.transit == []
  }

  /** With nothing under way to it, a client is not blocked, and it can see the end mark if that has
      been sent. */
  lemma LinkUseful(l: Link, v: View)
    requires LinkOk(l, v) && l.down.transit == [] && !l.pc.AtBarrier? && !l.pc.Over?
    ensures ClientReady(l) && (v.doneSent ==> DoneVisible(l))
  {
    DownShape(l, v);
  }

  /** A client that owes the root its farewell, with nothing under way, can move without spinning. */
  lemma ClientUseful(s: State, c: nat)
    requires Inv(s) && Silent(s) && c < |s.links|
    requires !s.links[c].pc.AtBarrier? && !s.links[c].pc.Over?
    requires s.links[c].pc.Posting? || DoneSent(s.root, c)
    ensures Useful(s, ClientAct(c))
  {
    LinkUseful(s.links[c], ViewOf(s, c));
    assert Enabled(s, ClientAct(c));
  }

  /** The root is blocked only in the barrier and on a farewell that has not arrived. */
  lemma RootUseful(s: State) returns (source: nat)
    requires Inv(s) && !s.root.InBarrier? && !s.root.Out?
    requires s.root.Collecting? && s.root.k < |s.links| ==> s.links[s.root.k].up.Visible(ClientFinished)
    ensures RootReady(s, source)
  {
    source := 0;
    if SomeRequest(s) {
      source :| 0 <= source < |s.links| && s.links[source].up.Visible(ClientRequestVal);
    }
    if s.root.Dealing? && s.root.rest != [] {
      assert Shares(s)[|s.owner|] == s.root.rest[0];
    }
    if s.root.Hearing? || s.root.Dropping? {
      HeardIsVisible(s.links[s.root.client], ViewOf(s, s.root.client));
    }
  }

  lemma BlockedCollect(s: State, k: nat)
    requires Inv(s) && Silent(s) && s.root == Collecting(k) && k < |s.links|
    requires !s.links[k].up.Visible(ClientFinished)
    ensures Useful(s, ClientAct(k)) && DoneVisible(s.links[k])
  {
    var l := s.links[k];
    assert LinkOk(l, ViewOf(s, k));
    UpShape(l, ViewOf(s, k));
    DownShape(l, ViewOf(s, k));
    ClientUseful(s, k);
  }

  /** While the root is in a schedule, some step that is not a spin is enabled; and it is a step of a
      client only if that client is still posting its requests or can see the end mark. */
  lemma NoDeadlock(s: State) returns (a: Action)
    requires Inv(s) && !s.root.Out?
    ensures Useful(s, a)
    ensures a.ClientAct? ==> s.links[a.client].pc.Posting? || DoneVisible(s.links[a.client])
    ensures a.RootAct? ==> !s.root.InBarrier?
  {
    if c :| 0 <= c < |s.links| && s.links[c].down.transit != [] {
      a := DeliverDown(c);
    } else if c :| 0 <= c < |s.links| && s.links[c].up.transit != [] {
      a := DeliverUp(c);
    } else if s.root.InBarrier? {
      if c :| 0 <= c < |s.links| && !s.links[c].pc.AtBarrier? {
        assert LinkOk(s.links[c], ViewOf(s, c));
        ClientUseful(s, c);
        a := ClientAct(c);
      } else {
        a := PassBarrier;
      }
    } else if s.root.Collecting? && s.root.k < |s.links| && !s.links[s.root.k].up.Visible(ClientFinished) {
      BlockedCollect(s, s.root.k);
      a := ClientAct(s.root.k);
    } else {
      var source := RootUseful(s);
      a := RootAct(source);
    }
  }

  // ---------------------------------------------------------------- over whole runs

  /** The steps of a run that are not spins. */
  function UsefulSteps(s: State, acts: seq<Action>): nat
    requires ValidRun(s, acts)
    decreases |acts|
  {
    if acts == [] then 0
    else (if Spin(s, acts[0]) then 0 else 1) + UsefulSteps(Apply(s, acts[0]), acts[1..])
  }

  /** However the ranks and the network interleave, a schedule takes no more useful steps than its
      measure allows. */
  lemma {:induction false} Termination(s: State, acts: seq<Action>)
    requires Inv(s) && ValidRun(s, acts) && SameSchedule(acts)
    ensures Inv(After(s, acts)) && UsefulSteps(s, acts) + Measure(After(s, acts)) <= Measure(s)
    decreases |acts|
  {
    if acts != [] {
      StepLess(s, acts[0]);
      Termination(Apply(s, acts[0]), acts[1..]);
    }
  }

  /** From every state of every run the schedule can be brought to its end. */
  lemma {:induction false} CanFinish(s: State) returns (acts: seq<Action>)
    requires Inv(s)
    ensures ValidRun(s, acts) && SameSchedule(acts) && After(s, acts).root.Out?
    ensures |acts| <= Measure(s)
    decreases Measure(s)
  {
    if s.root.Out? { return []; }
    var a := NoDeadlock(s);
    StepLess(s, a);
    var rest := CanFinish(Apply(s, a));
    acts := [a] + rest;
    assert acts[1..] == rest;
  }
}
