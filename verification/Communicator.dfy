/** The communicator as one rank sees it: a method for every MPI call. Each lets the other ranks and
    the network run arbitrarily, and is then one step of the protocol; it may be called only where
    the protocol makes this call, to this rank, with this tag and this payload. */
module Communicator {
  import opened Protocol
  import opened ProtocolInvariant
  import opened ProtocolSafety
  import opened ProtocolProgress

  datatype Rank = Root | Client(client: nat)

  predicate ForeignAct(a: Action, me: Rank) {
    !a.Gather? && (if me.Root? then !a.RootAct? else a != ClientAct(me.client))
  }

  predicate Foreign(acts: seq<Action>, me: Rank) {
    forall k :: 0 <= k < |acts| ==> ForeignAct(acts[k], me)
  }

  predicate SameLoop(s: State, s': State) {
    s'.schedule == s.schedule && s'.count == s.count && s'.sizes == s.sizes && |s'.links| == |s.links|
  }

  /** What steps of others leave alone: the root's iterator and its place, a client's values and its
      place. Others can only let a rank out of the barrier. */
  predicate Undisturbed(s: State, s': State, me: Rank) {
    && SameLoop(s, s')
    && (me.Root? ==>
          && s'.owner == s.owner && s'.consumed == s.consumed
          && (s'.root == s.root || (s.root.InBarrier? && s'.root == Dealing(Shares(s)))))
    && (me.Client? && me.client < |s.links| ==>
          var l, l' := s.links[me.client], s'.links[me.client];
          && l'.got == l.got && l'.genFinished == l.genFinished && l.down.arrived <= l'.down.arrived
          && (l'.pc == l.pc || (l.pc.AtBarrier? && l'.pc.Probing?)))
  }

  /** A step of the root, as a client sees it. */
  lemma RootAsSeen(s: State, source: nat, me: Rank)
    requires RootReady(s, source) && me.Client?
    ensures Undisturbed(s, RootStep(s, source), me)
  {
  }

  lemma ForeignStep(s: State, a: Action, me: Rank)
    requires Enabled(s, a) && ForeignAct(a, me)
    ensures Undisturbed(s, Apply(s, a), me)
  {
    if a.RootAct? { RootAsSeen(s, a.source, me); }
  }

  /** Whatever others do, a rank stays where it is, and no step of theirs raises the measure. */
  lemma {:induction false} ForeignRun(s: State, acts: seq<Action>, me: Rank)
    requires Inv(s) && ValidRun(s, acts) && Foreign(acts, me)
    ensures Inv(After(s, acts)) && Undisturbed(s, After(s, acts), me)
    ensures UsefulSteps(s, acts) + Measure(After(s, acts)) <= Measure(s)
    decreases |acts|
  {
    if acts != [] {
      assert ForeignAct(acts[0], me);
      ForeignStep(s, acts[0], me);
      StepLess(s, acts[0]);
      ForeignRun(Apply(s, acts[0]), acts[1..], me);
    }
  }

  lemma {:induction false} RunAppend(s: State, acts: seq<Action>, more: seq<Action>)
    requires ValidRun(s, acts) && ValidRun(After(s, acts), more)
    ensures ValidRun(s, acts + more) && After(s, acts + more) == After(After(s, acts), more)
    decreases |acts|
  {
    if acts == [] {
      assert acts + more == more;
    } else {
      assert (acts + more)[1..] == acts[1..] + more;
      RunAppend(Apply(s, acts[0]), acts[1..], more);
    }
  }

  lemma OneStep(s: State, a: Action)
    requires Enabled(s, a)
    ensures ValidRun(s, [a]) && After(s, [a]) == Apply(s, a)
    ensures UsefulSteps(s, [a]) == if Spin(s, a) then 0 else 1
  {
    assert [a][1..] == [];
    assert ValidRun(Apply(s, a), []);
  }

  const ROOT: nat := 0

  /** `s'` is the root's step from `s0`, which others have brought about from `before`. */
  predicate RootStepped(before: State, s0: State, source: nat, s': State) {
    Undisturbed(before, s0, Root) && RootReady(s0, source) && s' == RootStep(s0, source)
  }

  /** The root is at the `isend` of this message to rank `dest`. */
  predicate RootMaySend(s: State, dest: nat, tag: Tag, payload: nat) {
    && 1 <= dest <= |s.links|
    && match tag
       case ServerSendVal =>
         && payload == |s.owner|
         && (s.root == Answering(dest - 1) || (s.root.Dealing? && s.root.rest != [] && s.root.rest[0] == dest))
       case ValGenDone => s.root == Announcing(dest - 1) && payload == 0
       case _ => false
  }

  /** The message, and nothing else, goes on its way to rank `dest`. */
  predicate RootSent(before: State, s0: State, s': State, dest: nat, m: Msg) {
    && RootStepped(before, s0, 0, s')
    && 1 <= dest <= |s0.links|
    && var l := s0.links[dest - 1];
       s'.links == s0.links[dest - 1 := l.(down := l.down.Send(m),
                                           dealt := if s0.root.Dealing? then l.dealt + 1 else l.dealt)]
  }

  /** The root is at an `iprobe` of any source for this tag. */
  predicate RootMayProbe(s: State, tag: Tag) {
    tag.ClientRequestVal? && ((s.root.Serving? && |s.owner| < s.count) || s.root.Draining?)
  }

  /** The answer is what has arrived with the tag, from a rank that has sent it. */
  predicate RootProbed(before: State, s0: State, s': State, found: bool, source: nat) {
    && RootStepped(before, s0, if found && source > 0 then source - 1 else 0, s')
    && (found <==> SomeRequest(s0))
    && (found ==> source > 0 && GoodSource(s0, source - 1))
  }

  /** The root is at a receive from rank `source` for this tag. */
  predicate RootMayReceive(s: State, source: nat, tag: Tag) {
    && 1 <= source <= |s.links|
    && match tag
       case ClientRequestVal => s.root == Hearing(source - 1) || s.root == Dropping(source - 1)
       case ClientFinished => s.root == Collecting(source - 1)
       case _ => false
  }

  /** The first message with the tag is taken from the channel. */
  predicate RootReceived(before: State, s0: State, s': State, source: nat, tag: Tag, payload: nat) {
    && RootStepped(before, s0, 0, s')
    && 1 <= source <= |s0.links| == |s'.links|
    && var up := s0.links[source - 1].up;
       up.Visible(tag) && payload == up.Head(tag).index && s'.links[source - 1].up == up.Receive(tag)
  }

  /** The root goes on without a call. */
  predicate RootMayMove(s: State) {
    || s.root == Dealing([]) || (s.root.Serving? && |s.owner| >= s.count)
    || s.root == Announcing(|s.links|) || s.root == Collecting(|s.links|)
  }

  /** `l'` is the client's step from `l`, which others have brought about from `before`. */
  predicate Stepped(before: Link, l: Link, l': Link, schedule: nat) {
    && l.pc == before.pc && l.got == before.got && l.genFinished == before.genFinished
    && ClientReady(l) && l' == ClientStep(l, schedule)
  }

  predicate ClientMaySend(l: Link, dest: nat, tag: Tag) {
    && dest == ROOT
    && match tag
       case ClientRequestVal => l.pc.Asking? || (l.pc.Posting? && l.pc.left > 0)
       case ClientFinished => l.pc.Leaving?
       case _ => false
  }

  predicate ClientSent(before: Link, l: Link, l': Link, m: Msg) {
    Stepped(before, l, l', m.schedule) && l'.up == l.up.Send(m) && l'.down == l.down
  }

  predicate ClientMayProbe(l: Link, source: nat, tag: Tag) {
    && source == ROOT
    && match tag
       case ServerSendVal => l.pc.Probing? || l.pc.Reprobing?
       case ValGenDone => l.pc.ProbingDone?
       case _ => false
  }

  predicate ClientProbed(before: Link, l: Link, l': Link, schedule: nat, tag: Tag, found: bool) {
    && Stepped(before, l, l', schedule)
    && (found <==> l.down.Visible(tag)) && l'.down == l.down && l'.up == l.up
  }

  predicate ClientMayReceive(l: Link, source: nat, tag: Tag) {
    && source == ROOT
    && match tag
       case ServerSendVal => l.pc.Taking?
       case ValGenDone => l.pc.HearingDone?
       case _ => false
  }

  predicate ClientReceived(before: Link, l: Link, l': Link, schedule: nat, tag: Tag, payload: nat) {
    && Stepped(before, l, l', schedule)
    && l.down.Visible(tag) && payload == l.down.Head(tag).index && l'.down == l.down.Receive(tag)
  }

  /** What has arrived stays there while others run. */
  lemma {:induction false} StaysVisible(q: seq<Msg>, q': seq<Msg>, t: Tag)
    requires q <= q' && FirstAt(q, t) < |q|
    ensures FirstAt(q', t) < |q'|
  {
    if q[0].tag != t { StaysVisible(q[1..], q'[1..], t); }
  }

  /** When the root is out of a schedule, so is everybody. */
  lemma AllOver(s: State)
    requires Inv(s) && s.root.Out?
    ensures forall c :: 0 <= c < |s.links| ==> s.links[c].pc.Over?
  {
    forall c | 0 <= c < |s.links| ensures s.links[c].pc.Over? { assert LinkOk(s.links[c], ViewOf(s, c)); }
  }

  /** What the root is about to receive is there: a request since its probe, a farewell because the
      root has waited for it. */
  lemma MayReceiveNow(s: State, source: nat, tag: Tag)
    requires Inv(s) && RootMayReceive(s, source, tag)
    requires tag.ClientFinished? ==> s.links[source - 1].up.Visible(tag)
    ensures s.links[source - 1].up.Visible(tag)
  {
    if tag.ClientRequestVal? { HeardIsVisible(s.links[source - 1], ViewOf(s, source - 1)); }
  }

  lemma Sends(s: State, dest: nat, tag: Tag, payload: nat, any: nat)
    requires RootMaySend(s, dest, tag, payload) && RootReady(s, any)
    ensures var s', l, m := RootStep(s, any), s.links[dest - 1], Msg(tag, s.schedule, payload);
            && RootReady(s, 0) && s' == RootStep(s, 0) && SameLoop(s, s')
            && s'.links == s.links[dest - 1 := l.(down := l.down.Send(m),
                                                  dealt := if s.root.Dealing? then l.dealt + 1 else l.dealt)]
            && s'.owner == s.owner + (if tag.ServerSendVal? then [dest] else []) && s'.consumed == s.consumed
            && s'.root == match s.root
                          case Dealing(rest) => Dealing(rest[1..])
                          case Answering(_) => Serving
                          case _ => Announcing(dest)
  {
  }

  lemma Receives(s: State, source: nat, tag: Tag, any: nat)
    requires RootMayReceive(s, source, tag) && s.links[source - 1].up.Visible(tag) && RootReady(s, any)
    ensures var s' := RootStep(s, any);
            && RootReady(s, 0) && s' == RootStep(s, 0)
            && SameLoop(s, s') && s'.links[source - 1].up == s.links[source - 1].up.Receive(tag)
            && s'.owner == s.owner && s'.consumed == s.consumed
            && s'.root == match s.root
                          case Hearing(c) => Answering(c)
                          case Dropping(_) => Draining
                          case _ => Collecting(source)
  {
  }

  class Comm {
    var s: State
    ghost const origin: State
    ghost var past: seq<Action>

    /** Everything that has happened so far is a run of the protocol. */
    ghost predicate Valid()
      reads this
    {
      Inv(origin) && ValidRun(origin, past) && After(origin, past) == s && Inv(s)
    }

    function Size(): nat
      reads this
    {
      |s.links| + 1
    }

    constructor (s: State)
      requires Inv(s)
      ensures Valid() && this.s == s && past == []
    {
      this.s := s;
      origin := s;
      past := [];
    }

    method Do(a: Action)
      requires Valid() && Enabled(s, a) && !a.Gather?
      modifies this
      ensures Valid() && s == Apply(old(s), a) && past == old(past) + [a]
      ensures if Spin(old(s), a) then Measure(s) == Measure(old(s)) else Measure(s) < Measure(old(s))
    {
      StepLess(s, a);
      OneStep(s, a);
      RunAppend(origin, past, [a]);
      s, past := Apply(s, a), past + [a];
    }

    /** The others run for a while. */
    method Interfere(me: Rank)
      requires Valid()
      modifies this
      ensures Valid() && old(past) <= past
      ensures Undisturbed(old(s), s, me) && Measure(s) <= Measure(old(s))
    {
      assert ValidRun(s, []) && Foreign([], me);
      var acts :| ValidRun(s, acts) && Foreign(acts, me);
      ForeignRun(s, acts, me);
      RunAppend(origin, past, acts);
      s, past := After(s, acts), past + acts;
    }

    /** A rank that polls in vain or blocks lets the others run until one of them has done something
        useful. That they can is shown by `useful`. */
    method Await(me: Rank, ghost useful: Action)
      requires Valid() && Useful(s, useful) && ForeignAct(useful, me)
      modifies this
      ensures Valid() && old(past) <= past
      ensures Undisturbed(old(s), s, me) && Measure(s) < Measure(old(s))
    {
      OneStep(s, useful);
      assert Foreign([useful], me);
      var acts :| ValidRun(s, acts) && Foreign(acts, me) && UsefulSteps(s, acts) > 0;
      ForeignRun(s, acts, me);
      RunAppend(origin, past, acts);
      s, past := After(s, acts), past + acts;
    }

    // -------------------------------------------------------------- the root's calls

    /** The root's next step, whatever it is. `source` is what a probe of any source finds. */
    method RootDo() returns (source: nat)
      requires Valid() && !s.root.InBarrier? && !s.root.Out?
      requires s.root.Collecting? && s.root.k < |s.links| ==> s.links[s.root.k].up.Visible(ClientFinished)
      modifies this
      ensures Valid() && old(past) <= past && Measure(s) < Measure(old(s))
      ensures RootReady(old(s), source) && s == RootStep(old(s), source)
    {
      ghost var ready := RootUseful(s);
      source :| RootReady(s, source);
      Do(RootAct(source));
    }

    method RootIsend(dest: nat, tag: Tag, payload: nat)
      requires Valid() && RootMaySend(s, dest, tag, payload)
      modifies this
      ensures Valid() && old(past) <= past && SameLoop(old(s), s) && Measure(s) < Measure(old(s))
      ensures exists s0: State :: RootSent(old(s), s0, s, dest, Msg(tag, s.schedule, payload))
      ensures s.owner == old(s.owner) + (if tag.ServerSendVal? then [dest] else []) && s.consumed == old(s.consumed)
      ensures s.root == match old(s.root)
                        case Dealing(rest) => Dealing(rest[1..])
                        case Answering(_) => Serving
                        case _ => Announcing(dest)
    {
      Interfere(Root);
      ghost var s0 := s;
      var any := RootDo();
      Sends(s0, dest, tag, payload, any);
      assert RootSent(old(s), s0, s, dest, Msg(tag, s.schedule, payload));
    }

    method RootIprobe(tag: Tag) returns (found: bool, source: nat)
      requires Valid() && RootMayProbe(s, tag)
      modifies this
      ensures Valid() && old(past) <= past && SameLoop(old(s), s) && Measure(s) < Measure(old(s))
      ensures exists s0: State :: RootProbed(old(s), s0, s, found, source)
      ensures found ==> 1 <= source <= |s.links|
      ensures s.owner == old(s.owner) && s.consumed == old(s.consumed)
      ensures s.root == if old(s.root).Serving? then (if found then Hearing(source - 1) else Consuming)
                        else if found then Dropping(source - 1) else Out
    {
      Interfere(Root);
      ghost var s0 := s;
      found := SomeRequest(s);
      source := RootDo();
      source := if found then source + 1 else 0;
      assert RootProbed(old(s), s0, s, found, source);
    }

    /** A blocking receive. */
    method RootRecv(source: nat, tag: Tag) returns (payload: nat)
      requires Valid() && RootMayReceive(s, source, tag)
      modifies this
      ensures Valid() && old(past) <= past && SameLoop(old(s), s) && Measure(s) < Measure(old(s))
      ensures exists s0: State :: RootReceived(old(s), s0, s, source, tag, payload)
      ensures s.owner == old(s.owner) && s.consumed == old(s.consumed)
      ensures s.root == match old(s.root)
                        case Hearing(c) => Answering(c)
                        case Dropping(_) => Draining
                        case _ => Collecting(source)
    {
      if tag.ClientFinished? { AwaitFinished(); } else { Interfere(Root); }
      ghost var s0 := s;
      MayReceiveNow(s, source, tag);
      payload := s.links[source - 1].up.Head(tag).index;
      var any := RootDo();
      Receives(s0, source, tag, any);
      assert RootReceived(old(s), s0, s, source, tag, payload);
    }

    /** Until the farewell of the client whose turn it is has arrived. */
    method AwaitFinished()
      requires Valid() && s.root.Collecting? && s.root.k < |s.links|
      modifies this
      ensures Valid() && old(past) <= past && Undisturbed(old(s), s, Root) && Measure(s) <= Measure(old(s))
      ensures s.links[s.root.k].up.Visible(ClientFinished)
    {
      Interfere(Root);
      while !s.links[s.root.k].up.Visible(ClientFinished)
        invariant Valid() && old(past) <= past && Undisturbed(old(s), s, Root) && Measure(s) <= Measure(old(s))
        decreases Measure(s)
      {
        ghost var useful := NoDeadlock(s);
        Await(Root, useful);
      }
    }

    method RootMove()
      requires Valid() && RootMayMove(s)
      modifies this
      ensures Valid() && old(past) <= past && SameLoop(old(s), s) && Measure(s) < Measure(old(s))
      ensures s.owner == old(s.owner) && s.consumed == old(s.consumed)
      ensures s.root == match old(s.root)
                        case Dealing(_) => Serving
                        case Serving => Announcing(0)
                        case Announcing(_) => Collecting(0)
                        case _ => Draining
    {
      var _ := RootDo();
    }

    /** The root has used the value at its iterator. */
    method RootConsume(index: nat)
      requires Valid() && s.root.Consuming? && index == |s.owner|
      modifies this
      ensures Valid() && old(past) <= past && SameLoop(old(s), s) && Measure(s) < Measure(old(s))
      ensures s.root.Serving? && s.owner == old(s.owner) + [ROOT] && s.consumed == old(s.consumed) + [index]
    {
      var _ := RootDo();
    }

    /** The root waits in the barrier until everybody is there. */
    method RootBarrier()
      requires Valid() && s.root.InBarrier?
      modifies this
      ensures Valid() && old(past) <= past
      ensures Undisturbed(old(s), s, Root) && s.root == Dealing(Shares(s))
    {
      while s.root.InBarrier?
        invariant Valid() && old(past) <= past && Undisturbed(old(s), s, Root)
        decreases Measure(s)
      {
        ghost var useful := NoDeadlock(s);
        Await(Root, useful);
      }
    }

    // -------------------------------------------------------------- a client's calls

    /** The next step of client `c`, whatever it is. */
    method ClientDo(c: nat)
      requires Valid() && c < |s.links| && ClientReady(s.links[c])
      modifies this
      ensures Valid() && old(past) <= past && SameLoop(old(s), s) && Measure(s) <= Measure(old(s))
      ensures s.links[c] == ClientStep(old(s.links[c]), s.schedule)
      ensures !old(s.links[c]).pc.Probing? && !old(s.links[c]).pc.ProbingDone? ==> Measure(s) < Measure(old(s))
    {
      Do(ClientAct(c));
    }

    /** Others run before a call of client `c`; whatever it has found in its channel is still there. */
    method BeforeClient(c: nat)
      requires Valid() && c < |s.links| && !s.links[c].pc.AtBarrier? && !s.links[c].pc.Over?
      modifies this
      ensures Valid() && old(past) <= past
      ensures Undisturbed(old(s), s, Client(c)) && Measure(s) <= Measure(old(s))
      ensures ClientReady(s.links[c])
    {
      Interfere(Client(c));
      assert LinkOk(s.links[c], ViewOf(s, c));
      DownShape(s.links[c], ViewOf(s, c));
    }

    method ClientSend(c: nat, dest: nat, tag: Tag)
      requires Valid() && c < |s.links| && ClientMaySend(s.links[c], dest, tag)
      modifies this
      ensures Valid() && old(past) <= past && SameLoop(old(s), s) && Measure(s) < Measure(old(s))
      ensures exists l: Link :: ClientSent(old(s.links[c]), l, s.links[c], Msg(tag, s.schedule, 0))
      ensures s.links[c].got == old(s.links[c]).got && s.links[c].genFinished == old(s.links[c]).genFinished
      ensures s.links[c].pc == match old(s.links[c]).pc
                               case Posting(left) => Posting(left - 1)
                               case Asking => Working
                               case _ => Over
    {
      BeforeClient(c);
      ghost var l := s.links[c];
      ClientDo(c);
      assert ClientSent(old(s.links[c]), l, s.links[c], Msg(tag, s.schedule, 0));
    }

    method ClientIprobe(c: nat, source: nat, tag: Tag) returns (found: bool)
      requires Valid() && c < |s.links| && ClientMayProbe(s.links[c], source, tag)
      modifies this
      ensures Valid() && old(past) <= past && SameLoop(old(s), s) && Measure(s) <= Measure(old(s))
      ensures exists l: Link :: ClientProbed(old(s.links[c]), l, s.links[c], s.schedule, tag, found)
      ensures old(s.links[c]).down.Visible(tag) ==> found
      ensures !found ==> !s.links[c].down.Visible(tag)
      ensures s.links[c].got == old(s.links[c]).got && s.links[c].genFinished == old(s.links[c]).genFinished
      ensures s.links[c].pc == match old(s.links[c]).pc
                               case Probing =>
                                 if found then Taking else if s.links[c].genFinished then Reprobing else ProbingDone
                               case ProbingDone => if found then HearingDone else Probing
                               case _ => if found then Taking else Leaving
    {
      BeforeClient(c);
      ghost var l := s.links[c];
      found := s.links[c].down.Visible(tag);
      if old(s.links[c]).down.Visible(tag) { StaysVisible(old(s.links[c]).down.arrived, l.down.arrived, tag); }
      ClientDo(c);
      assert ClientProbed(old(s.links[c]), l, s.links[c], s.schedule, tag, found);
    }

    method ClientRecv(c: nat, source: nat, tag: Tag) returns (payload: nat)
      requires Valid() && c < |s.links| && ClientMayReceive(s.links[c], source, tag)
      modifies this
      ensures Valid() && old(past) <= past && SameLoop(old(s), s) && Measure(s) < Measure(old(s))
      ensures exists l: Link :: ClientReceived(old(s.links[c]), l, s.links[c], s.schedule, tag, payload)
      ensures s.links[c].got == old(s.links[c]).got + if tag.ServerSendVal? then [payload] else []
      ensures s.links[c].genFinished == (old(s.links[c]).genFinished || tag.ValGenDone?)
      ensures s.links[c].pc == if tag.ServerSendVal? then Asking else Reprobing
    {
      BeforeClient(c);
      ghost var l := s.links[c];
      payload := s.links[c].down.Head(tag).index;
      ClientDo(c);
      assert ClientReceived(old(s.links[c]), l, s.links[c], s.schedule, tag, payload);
    }

    /** The loop body returns to the iterator. */
    method ClientReturn(c: nat)
      requires Valid() && c < |s.links| && s.links[c].pc.Working?
      modifies this
      ensures Valid() && old(past) <= past && SameLoop(old(s), s) && Measure(s) < Measure(old(s))
      ensures s.links[c] == old(s.links[c]).(pc := Probing)
    {
      ClientDo(c);
    }

    /** A client that has posted its requests waits in the barrier until everybody is there. */
    method ClientBarrier(c: nat)
      requires Valid() && c < |s.links| && s.links[c].pc == Posting(0)
      modifies this
      ensures Valid() && old(past) <= past && SameLoop(old(s), s)
      ensures s.links[c].pc.Probing?
      ensures s.links[c].got == old(s.links[c]).got && s.links[c].genFinished == old(s.links[c]).genFinished
    {
      ClientDo(c);
      ghost var got, finished := s.links[c].got, s.links[c].genFinished;
      while s.links[c].pc.AtBarrier?
        invariant Valid() && old(past) <= past && SameLoop(old(s), s)
        invariant s.links[c].pc.AtBarrier? || s.links[c].pc.Probing?
        invariant s.links[c].got == got && s.links[c].genFinished == finished
        decreases Measure(s)
      {
        assert LinkOk(s.links[c], ViewOf(s, c));
        ghost var useful := NoDeadlock(s);
        Await(Client(c), useful);
      }
    }

    /** A client whose probes have found neither a value nor the end mark polls again. As long as no
        value has come in meanwhile, others are given the time to do something useful. */
    method ClientAwait(c: nat)
      requires Valid() && c < |s.links| && s.links[c].pc.Probing? && !DoneVisible(s.links[c])
      modifies this
      ensures Valid() && old(past) <= past && Measure(s) <= Measure(old(s))
      ensures Undisturbed(old(s), s, Client(c))
      ensures Measure(s) < Measure(old(s)) || s.links[c].down.Visible(ServerSendVal)
    {
      if !s.links[c].down.Visible(ServerSendVal) {
        assert LinkOk(s.links[c], ViewOf(s, c));
        ghost var useful := NoDeadlock(s);
        Await(Client(c), useful);
      }
    }

    // -------------------------------------------------------------- the all_gather

    method DoGather(count: nat, sizes: seq<nat>)
      requires Valid() && Enabled(s, Gather(count, sizes))
      modifies this
      ensures Valid() && old(past) <= past && s == Apply(old(s), Gather(count, sizes))
    {
      var a := Gather(count, sizes);
      StepOk(s, a);
      OneStep(s, a);
      RunAppend(origin, past, [a]);
      s, past := Apply(s, a), past + [a];
    }

    /** The root gives its own size and a range of `count` values, and learns everybody's sizes. */
    method RootAllGather(mine: nat, count: nat) returns (all: seq<nat>)
      requires Valid() && s.root.Out?
      modifies this
      ensures Valid() && old(past) <= past && |s.links| == |old(s).links|
      ensures all == [mine] + s.sizes && s.root.InBarrier? && s.count == count && s.consumed == []
    {
      var n := |s.links|;
      var sizes: seq<nat> :| |sizes| == n;
      AllOver(s);
      DoGather(count, sizes);
      all := [mine] + sizes;
    }

    /** A client gives its size and waits until all others have come. */
    method ClientAllGather(c: nat, mine: nat) returns (all: seq<nat>)
      requires Valid() && c < |s.links| && s.links[c].pc.Over?
      modifies this
      ensures Valid() && old(past) <= past && |s.links| == |old(s).links|
      ensures |all| == |s.links| + 1 && all[1..] == s.sizes && all[c + 1] == mine
      ensures s.links[c].pc == Posting(mine) && s.links[c].got == [] && !s.links[c].genFinished
    {
      while !s.root.Out?
        invariant Valid() && old(past) <= past && |s.links| == |old(s).links| && s.links[c].pc.Over?
        decreases Measure(s)
      {
        ghost var useful := NoDeadlock(s);
        Await(Client(c), useful);
      }
      var n := |s.links|;
      ghost var some: seq<nat> := seq(n, _ => mine);
      assert |some| == n && some[c] == mine;
      var count: nat, root: nat, sizes: seq<nat> :| |sizes| == n && sizes[c] == mine;
      AllOver(s);
      DoGather(count, sizes);
      all := [root] + sizes;
    }
  }
}
