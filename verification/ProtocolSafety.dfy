/** The invariant holds in every state of every run, over any number of schedules, and what follows
    from it: exactly-once dispatch, credit, safe shutdown, quiescence and isolation. */
module ProtocolSafety {
  import opened FirstRound
  import opened Protocol
  import opened ProtocolInvariant

  lemma IdleOk(clients: nat)
    ensures Inv(Idle(clients))
  {
    var s := Idle(clients);
    var r, c := Balanced([0] + s.sizes, 0);
    forall c | 0 <= c < clients ensures LinkOk(s.links[c], ViewOf(s, c)) {
      assert Shares(s) == [];
    }
  }

  /** A schedule starts with every channel empty. */
  lemma QuietLink(l: Link, v: View)
    requires LinkOk(l, v) && v.closed && !v.answering
    ensures l.down.All() == [] && l.up.All() == [] && l.got == v.mine && l.genFinished
    ensures l.drained == v.size + l.dealt
  {
    assert l.up.All() == [];
    assert Outstanding(l, v) == 0;
  }

  lemma GatherOk(s: State, a: Action)
    requires Inv(s) && Enabled(s, a) && a.Gather?
    ensures Inv(Apply(s, a))
  {
    var s' := Apply(s, a);
    forall c | 0 <= c < |s.links| ensures LinkOk(s'.links[c], ViewOf(s', c)) {
      QuietLink(s.links[c], ViewOf(s, c));
      assert s'.links[c].down.All() == [] && s'.links[c].up.All() == [];
      assert Outstanding(s'.links[c], ViewOf(s', c)) == 0;
    }
  }

  lemma PassOk(s: State)
    requires Inv(s) && Enabled(s, PassBarrier)
    ensures Inv(Apply(s, PassBarrier))
  {
    var s' := Apply(s, PassBarrier);
    forall c | 0 <= c < |s.links| ensures LinkOk(s'.links[c], ViewOf(s', c)) {
      assert LinkOk(s.links[c], ViewOf(s, c));
      assert Outstanding(s'.links[c], ViewOf(s', c)) == Outstanding(s.links[c], ViewOf(s, c));
    }
  }

  /** A step of one link that the root takes no part in. */
  lemma LinkOnlyOk(s: State, c: nat, l: Link)
    requires Inv(s) && c < |s.links| && LinkOk(l, ViewOf(s, c))
    ensures Inv(s.(links := s.links[c := l]))
  {
    var s' := s.(links := s.links[c := l]);
    forall k | 0 <= k < |s.links| ensures LinkOk(s'.links[k], ViewOf(s', k)) {
      assert ViewOf(s', k) == ViewOf(s, k);
      if k != c { assert s'.links[k] == s.links[k]; }
    }
  }

  /** A step of the root that touches at most link `c`. */
  lemma RootStepOk(s: State, s': State, c: nat)
    requires Inv(s) && RootOk(s') && s'.sizes == s.sizes && |s'.links| == |s.links|
    requires forall k :: 0 <= k < |s.links| && k != c ==> s'.links[k] == s.links[k] && ViewOf(s', k) == ViewOf(s, k)
    requires c < |s.links| ==> LinkOk(s'.links[c], ViewOf(s', c))
    ensures Inv(s')
  {
    forall k | 0 <= k < |s.links| ensures LinkOk(s'.links[k], ViewOf(s', k)) {
      assert LinkOk(s.links[k], ViewOf(s, k));
    }
  }

  lemma SendViews(s: State, c: nat, first: nat)
    requires |s.sizes| == |s.links| && c < |s.links|
    ensures var s' := SendValue(s, c, first);
            forall k :: 0 <= k < |s.links| ==> ViewOf(s', k) == ViewOf(s, k).(mine :=
              Positions(s.owner, k + 1) + if k == c then [|s.owner|] else [])
  {
    forall k | 0 <= k < |s.links|
      ensures ViewOf(SendValue(s, c, first), k) == ViewOf(s, k).(mine :=
                Positions(s.owner, k + 1) + if k == c then [|s.owner|] else [])
    {
      PositionsSnoc(s.owner, c + 1, k + 1);
    }
  }

  lemma DealOneRoot(s: State, source: nat)
    requires Inv(s) && s.root.Dealing? && RootReady(s, source) && s.root.rest != []
    ensures RootOk(RootStep(s, source))
  {
    var rest := s.root.rest;
    var r, cut := Balanced([0] + s.sizes, s.count);
    assert Shares(s)[|s.owner|] == rest[0];
    assert |Shares(s)| == |s.owner| + |rest|;
    PositionsSnoc(s.owner, rest[0], 0);
    assert (s.owner + [rest[0]]) + rest[1..] == s.owner + rest;
  }

  lemma DealView(s: State, source: nat, k: nat)
    requires Inv(s) && s.root.Dealing? && RootReady(s, source) && s.root.rest != [] && k < |s.links|
    ensures var v := ViewOf(s, k);
            ViewOf(RootStep(s, source), k) ==
              if k + 1 == s.root.rest[0] then v.(mine := v.mine + [|s.owner|], toDeal := v.toDeal - 1) else v
  {
    PositionsSnoc(s.owner, s.root.rest[0], k + 1);
    assert s.root.rest[0] - 1 + 1 == s.root.rest[0];
    assert Positions(s.owner, k + 1) + [] == Positions(s.owner, k + 1);
  }

  lemma DealLink(s: State, source: nat)
    requires Inv(s) && s.root.Dealing? && RootReady(s, source) && s.root.rest != []
    ensures var c := s.root.rest[0] - 1;
            LinkOk(RootStep(s, source).links[c], ViewOf(RootStep(s, source), c))
  {
    var c: nat := s.root.rest[0] - 1;
    var v := ViewOf(s, c);
    DealView(s, source, c);
    SendValueOk(s.links[c], v, v.(mine := v.mine + [|s.owner|], toDeal := v.toDeal - 1), |s.owner|, 1);
  }

  lemma DealOneOk(s: State, source: nat)
    requires Inv(s) && s.root.Dealing? && RootReady(s, source) && s.root.rest != []
    ensures Inv(RootStep(s, source))
  {
    var s' := RootStep(s, source);
    var c: nat := s.root.rest[0] - 1;
    DealOneRoot(s, source);
    DealLink(s, source);
    forall k | 0 <= k < |s.links| && k != c ensures s'.links[k] == s.links[k] && ViewOf(s', k) == ViewOf(s, k) {
      DealView(s, source, k);
    }
    RootStepOk(s, s', c);
  }

  lemma DealingOk(s: State, source: nat)
    requires Inv(s) && s.root.Dealing? && RootReady(s, source)
    ensures Inv(RootStep(s, source))
  {
    if s.root.rest == [] {
      assert s.owner + s.root.rest == s.owner;
      RootStepOk(s, RootStep(s, source), |s.links|);
    } else {
      DealOneOk(s, source);
    }
  }

  lemma AnsweringOk(s: State, source: nat)
    requires Inv(s) && s.root.Answering? && RootReady(s, source)
    ensures Inv(RootStep(s, source))
  {
    var c := s.root.client;
    var s' := RootStep(s, source);
    PositionsSnoc(s.owner, c + 1, 0);
    SendViews(s, c, 0);
    SendValueOk(s.links[c], ViewOf(s, c), ViewOf(s', c), |s.owner|, 0);
    RootStepOk(s, s', c);
  }

  /** A probe of any source has found a request. */
  lemma FoundOk(s: State, source: nat)
    requires Inv(s) && RootReady(s, source) && SomeRequest(s)
    requires (s.root.Serving? && |s.owner| < s.count) || s.root.Draining?
    ensures Inv(RootStep(s, source))
  {
    var s' := RootStep(s, source);
    FindRequestOk(s.links[source], ViewOf(s, source));
    assert ViewOf(s', source) == ViewOf(s, source).(hearing := true);
    forall k | 0 <= k < |s.links| && k != source ensures ViewOf(s', k) == ViewOf(s, k) { FoundView(s, source, k); }
    RootStepOk(s, s', source);
  }

  lemma FoundView(s: State, source: nat, k: nat)
    requires Inv(s) && RootReady(s, source) && SomeRequest(s) && k < |s.links| && k != source
    requires (s.root.Serving? && |s.owner| < s.count) || s.root.Draining?
    ensures ViewOf(RootStep(s, source), k) == ViewOf(s, k)
  {
  }

  lemma HearingOk(s: State, source: nat)
    requires Inv(s) && s.root.Hearing? && RootReady(s, source)
    ensures Inv(RootStep(s, source))
  {
    var c := s.root.client;
    var s' := RootStep(s, source);
    HearRequestOk(s.links[c], ViewOf(s, c));
    assert ViewOf(s', c) == ViewOf(s, c).(hearing := false, answering := true);
    forall k | 0 <= k < |s.links| && k != c ensures ViewOf(s', k) == ViewOf(s, k) { HeardView(s, source, k); }
    RootStepOk(s, s', c);
  }

  lemma HeardView(s: State, source: nat, k: nat)
    requires Inv(s) && RootReady(s, source) && (s.root.Hearing? || s.root.Dropping?)
    requires k < |s.links| && k != s.root.client
    ensures ViewOf(RootStep(s, source), k) == ViewOf(s, k)
  {
  }

  lemma ServingOk(s: State, source: nat)
    requires Inv(s) && s.root.Serving? && RootReady(s, source)
    ensures Inv(RootStep(s, source))
  {
    if |s.owner| < s.count && SomeRequest(s) {
      FoundOk(s, source);
    } else {
      RootStepOk(s, RootStep(s, source), |s.links|);
    }
  }

  lemma ConsumingOk(s: State, source: nat)
    requires Inv(s) && s.root.Consuming?
    ensures Inv(RootStep(s, source))
  {
    var s' := RootStep(s, source);
    PositionsSnoc(s.owner, 0, 0);
    forall k | 0 <= k < |s.links| ensures ViewOf(s', k) == ViewOf(s, k) {
      PositionsSnoc(s.owner, 0, k + 1);
    }
    RootStepOk(s, s', |s.links|);
  }

  lemma AnnouncingOk(s: State, source: nat)
    requires Inv(s) && RootReady(s, source) && s.root.Announcing?
    ensures Inv(RootStep(s, source))
  {
    var k := s.root.k;
    if k < |s.links| { SendDoneOk(s.links[k], ViewOf(s, k)); }
    RootStepOk(s, RootStep(s, source), k);
  }

  lemma CollectingOk(s: State, source: nat)
    requires Inv(s) && RootReady(s, source) && s.root.Collecting?
    ensures Inv(RootStep(s, source))
  {
    var k, s' := s.root.k, RootStep(s, source);
    if k < |s.links| {
      HearFinishOk(s.links[k], ViewOf(s, k));
      assert ViewOf(s', k) == ViewOf(s, k).(finishHeard := true);
    }
    forall c | 0 <= c < |s.links| && c != k ensures ViewOf(s', c) == ViewOf(s, c) { CollectedView(s, source, c); }
    RootStepOk(s, s', k);
  }

  lemma CollectedView(s: State, source: nat, c: nat)
    requires Inv(s) && RootReady(s, source) && s.root.Collecting? && c < |s.links| && c != s.root.k
    ensures ViewOf(RootStep(s, source), c) == ViewOf(s, c)
  {
  }

  lemma DrainingOk(s: State, source: nat)
    requires Inv(s) && RootReady(s, source) && s.root.Draining?
    ensures Inv(RootStep(s, source))
  {
    var s' := RootStep(s, source);
    if SomeRequest(s) {
      FoundOk(s, source);
    } else {
      forall c | 0 <= c < |s.links| ensures LinkOk(s'.links[c], ViewOf(s', c)) {
        CloseOk(s.links[c], ViewOf(s, c));
      }
    }
  }

  lemma DroppingOk(s: State, source: nat)
    requires Inv(s) && RootReady(s, source) && s.root.Dropping?
    ensures Inv(RootStep(s, source))
  {
    var c := s.root.client;
    var s' := RootStep(s, source);
    DrainOk(s.links[c], ViewOf(s, c));
    assert ViewOf(s', c) == ViewOf(s, c).(hearing := false);
    forall k | 0 <= k < |s.links| && k != c ensures ViewOf(s', k) == ViewOf(s, k) { HeardView(s, source, k); }
    RootStepOk(s, s', c);
  }

  lemma RootActOk(s: State, source: nat)
    requires Inv(s) && RootReady(s, source)
    ensures Inv(RootStep(s, source))
  {
    match s.root
    case Dealing(_) => DealingOk(s, source);
    case Serving => ServingOk(s, source);
    case Hearing(_) => HearingOk(s, source);
    case Answering(_) => AnsweringOk(s, source);
    case Consuming => ConsumingOk(s, source);
    case Announcing(_) => AnnouncingOk(s, source);
    case Collecting(_) => CollectingOk(s, source);
    case Draining => DrainingOk(s, source);
    case Dropping(_) => DroppingOk(s, source);
  }

  lemma StepOk(s: State, a: Action)
    requires Inv(s) && Enabled(s, a)
    ensures Inv(Apply(s, a))
  {
    match a
    case Gather(_, _) => GatherOk(s, a);
    case PassBarrier => PassOk(s);
    case DeliverDown(c) =>
      DeliverDownOk(s.links[c], ViewOf(s, c));
      LinkOnlyOk(s, c, s.links[c].(down := s.links[c].down.Deliver()));
    case DeliverUp(c) =>
      DeliverUpOk(s.links[c], ViewOf(s, c));
      LinkOnlyOk(s, c, s.links[c].(up := s.links[c].up.Deliver()));
    case ClientAct(c) =>
      ClientStepOk(s.links[c], ViewOf(s, c));
      LinkOnlyOk(s, c, ClientStep(s.links[c], s.schedule));
    case RootAct(source) => RootActOk(s, source);
  }

  /** The invariant holds after any run, over any number of schedules and any interleaving. */
  lemma {:induction false} RunOk(s: State, acts: seq<Action>)
    requires Inv(s) && ValidRun(s, acts)
    ensures Inv(After(s, acts))
    decreases |acts|
  {
    if acts != [] {
      StepOk(s, acts[0]);
      RunOk(Apply(s, acts[0]), acts[1..]);
    }
  }
}
