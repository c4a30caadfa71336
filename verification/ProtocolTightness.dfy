/** The bound on the values under way is met: a client that asks for `b` values can have twice as
    many under way to it. */
module ProtocolTightness {
  import opened Sums
  import opened FirstRound
  import opened Protocol
  import opened ProtocolInvariant
  import opened ProtocolSafety
  import opened ProtocolTheorems
  import opened ProtocolProgress

  /** One client with credit `b`, and values enough. */
  predicate Single(s: State, b: nat) {
    Inv(s) && |s.links| == 1 && s.sizes == [b] && s.count == 2 * b + 1
  }

  /** The client is about to probe, the root is dealing and answering. */
  predicate Parked(s: State, b: nat) {
    && Single(s, b) && s.consumed == []
    && s.links[0].pc.Probing? && s.links[0].got == [] && s.links[0].drained == 0
    && (s.root.Dealing? || s.root.Serving? || s.root.Hearing? || s.root.Answering?)
  }

  lemma {:induction false} OneOwner(owner: seq<nat>)
    requires (forall k :: 0 <= k < |owner| ==> owner[k] <= 1) && Positions(owner, 0) == []
    ensures |Positions(owner, 1)| == |owner|
  {
    if owner != [] {
      assert owner[..|owner| - 1] + [owner[|owner| - 1]] == owner;
      OneOwner(owner[..|owner| - 1]);
    }
  }

  lemma {:induction false} AllOnes(order: seq<nat>)
    requires forall k :: 0 <= k < |order| ==> order[k] == 1
    ensures Occurs(order, 1) == |order|
  {
    if order != [] { AllOnes(order[1..]); }
  }

  /** All `b` requests are answered in the first round. */
  lemma WholeCredit(s: State, b: nat)
    requires Single(s, b)
    ensures Occurs(Shares(s), 1) == b
  {
    var r, cut := Balanced([0] + s.sizes, s.count);
    assert [0] + s.sizes == [0, b];
    var credits: seq<nat> := [0, b];
    assert credits[..1] == [0] && credits[..1][..0] == [];
    AllOnes(Shares(s));
  }

  /** What is under way to the parked client is what the root has handed out. */
  lemma UnderWay(s: State, b: nat)
    requires Parked(s, b)
    ensures |s.owner| == Tagged(s.links[0].down.All(), ServerSendVal)
    ensures |s.owner| ==
            b + s.links[0].dealt - Outstanding(s.links[0], ViewOf(s, 0)) - (if s.root.Answering? then 1 else 0)
    ensures s.links[0].dealt <= b && (s.root.Serving? ==> s.links[0].dealt == b)
    ensures Outstanding(s.links[0], ViewOf(s, 0)) == |s.links[0].up.All()|
  {
    WholeCredit(s, b);
    HeldIsMine(s.links[0], ViewOf(s, 0));
    OneOwner(s.owner);
  }

  /** The next delivery to the root, or the root's next step. */
  function Onward(s: State): Action
    requires |s.links| == 1
  {
    if s.links[0].up.transit != [] then DeliverUp(0) else RootAct(0)
  }

  lemma OnwardReady(s: State, b: nat)
    requires Parked(s, b) && !(s.root.Serving? && s.links[0].up.All() == [])
    ensures |s.owner| < s.count && Enabled(s, Onward(s))
    ensures s.links[0].up.transit == [] && s.root.Serving? ==> SomeRequest(s)
  {
    UnderWay(s, b);
    UpShape(s.links[0], ViewOf(s, 0));
    if s.links[0].up.transit == [] {
      assert s.root.Serving? ==> GoodSource(s, 0);
      if s.root.Dealing? && s.root.rest != [] { assert Shares(s)[|s.owner|] == s.root.rest[0]; }
    }
  }

  lemma OnwardOk(s: State, b: nat)
    requires Parked(s, b) && !(s.root.Serving? && s.links[0].up.All() == [])
    ensures Enabled(s, Onward(s)) && !Spin(s, Onward(s)) && Parked(Apply(s, Onward(s)), b)
  {
    OnwardReady(s, b);
    StepOk(s, Onward(s));
  }

  lemma {:induction false} Fill(s: State, b: nat) returns (acts: seq<Action>)
    requires Parked(s, b)
    ensures ValidRun(s, acts) && Parked(After(s, acts), b)
    ensures Tagged(After(s, acts).links[0].down.All(), ServerSendVal) == 2 * b
    decreases Measure(s)
  {
    if s.root.Serving? && s.links[0].up.All() == [] {
      UnderWay(s, b);
      return [];
    }
    OnwardOk(s, b);
    StepLess(s, Onward(s));
    var rest := Fill(Apply(s, Onward(s)), b);
    acts := [Onward(s)] + rest;
    assert acts[1..] == rest;
  }

  /** The client posts its requests and meets the root in the barrier. */
  lemma {:induction false} Open(s: State, b: nat) returns (acts: seq<Action>)
    requires Single(s, b) && s.root.InBarrier?
    ensures ValidRun(s, acts) && Parked(After(s, acts), b)
    ensures Tagged(After(s, acts).links[0].down.All(), ServerSendVal) == 2 * b
    decreases Measure(s)
  {
    assert LinkOk(s.links[0], ViewOf(s, 0));
    var a := if s.links[0].pc.AtBarrier? then PassBarrier else ClientAct(0);
    StepLess(s, a);
    var rest;
    if s.links[0].pc.AtBarrier? {
      rest := Fill(Apply(s, a), b);
    } else {
      rest := Open(Apply(s, a), b);
    }
    acts := [a] + rest;
    assert acts[1..] == rest;
  }

  /** For every credit there is a run in which twice as many values are under way to the client as the
      ring of send requests that the root keeps for it has places. */
  lemma CreditIsTight(b: nat) returns (acts: seq<Action>)
    ensures ValidRun(Idle(1), acts)
    ensures var s := After(Idle(1), acts);
            s.sizes == [b] && |s.links| == 1 && Tagged(s.links[0].down.All(), ServerSendVal) == 2 * b
  {
    var a := Gather(2 * b + 1, [b]);
    IdleOk(1);
    StepOk(Idle(1), a);
    var rest := Open(Apply(Idle(1), a), b);
    acts := [a] + rest;
    assert acts[1..] == rest;
  }
}
