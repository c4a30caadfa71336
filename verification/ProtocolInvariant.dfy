/** What every step of the protocol keeps, link by link. A link's condition mentions the rest of the
    system only through its `View`, so a step that leaves a link and its view alone keeps it. */
module ProtocolInvariant {
  import opened Sums
  import opened FirstRound
  import opened Protocol

  predicate DoneSent(r: RootPc, c: nat) {
    match r
    case Announcing(k) => c < k
    case Collecting(_) => true
    case Draining => true
    case Dropping(_) => true
    case Out => true
    case _ => false
  }

  predicate FinishHeard(r: RootPc, c: nat) {
    match r
    case Collecting(k) => c < k
    case Draining => true
    case Dropping(_) => true
    case Out => true
    case _ => false
  }

  /** All that the condition of one link needs to know about the rest of the system: its credit,
      its share of the first round and how much of that is still to be dealt, the positions it was
      given, and how far the root has come. */
  datatype View = View(schedule: nat, size: nat, share: nat, mine: seq<nat>, toDeal: nat, begun: bool,
                       hearing: bool, answering: bool, doneSent: bool, finishHeard: bool, closed: bool)

  function Shares(s: State): (order: seq<nat>)
    ensures forall k :: 0 <= k < |order| ==> 1 <= order[k] <= |s.sizes|
  {
    DealOrder([0] + s.sizes, s.count)
  }

  function ViewOf(s: State, c: nat): View
    requires c < |s.sizes|
  {
    View(s.schedule, s.sizes[c], Occurs(Shares(s), c + 1), Positions(s.owner, c + 1),
         if s.root.Dealing? then Occurs(s.root.rest, c + 1) else 0,
         !s.root.InBarrier?, s.root == Hearing(c) || s.root == Dropping(c), s.root == Answering(c),
         DoneSent(s.root, c), FinishHeard(s.root, c), s.root.Out?)
  }

  function Values(schedule: nat, indices: seq<nat>): seq<Msg> {
    seq(|indices|, k requires 0 <= k < |indices| => Msg(ServerSendVal, schedule, indices[k]))
  }

  function Requests(schedule: nat, n: nat): seq<Msg> {
    seq(n, _ => Msg(ClientRequestVal, schedule, 0))
  }

  function Optional(b: bool, tag: Tag, schedule: nat): seq<Msg> {
    if b then [Msg(tag, schedule, 0)] else []
  }

  /** Requests of the client that the root has not received. */
  function Outstanding(l: Link, v: View): int {
    v.size - (if l.pc.Posting? then l.pc.left else 0)
    + l.dealt - (|v.mine| - |l.got|)
    - (if l.pc.Asking? then 1 else 0) - (if v.answering then 1 else 0) - l.drained
  }

  /** To the client are under way exactly the values it was given and has not taken, then the end
      mark. */
  predicate DownOk(l: Link, v: View) {
    && l.got <= v.mine
    && l.down.All() ==
       Values(v.schedule, v.mine[|l.got|..]) + Optional(v.doneSent && !l.genFinished, ValGenDone, v.schedule)
    && (l.genFinished ==> v.doneSent && l.down.transit == [])
  }

  /** To the root are under way exactly the requests that the credit leaves open, then the client's
      farewell. */
  predicate UpOk(l: Link, v: View) {
    && Outstanding(l, v) >= 0
    && l.up.All() ==
       Requests(v.schedule, Outstanding(l, v)) + Optional(l.pc.Over? && !v.finishHeard, ClientFinished, v.schedule)
    && (v.finishHeard ==> l.pc.Over? && l.up.transit == [])
    && (v.closed ==> v.finishHeard && l.up.arrived == [])
    && (l.drained > 0 ==> v.finishHeard)
    && (v.hearing ==> Outstanding(l, v) > 0 && l.up.arrived != [])
  }

  predicate PcOk(l: Link, v: View) {
    && (v.begun <==> !l.pc.Posting? && !l.pc.AtBarrier?)
    && (!v.begun ==> v.mine == [] && l.dealt == l.drained == 0 && !l.genFinished)
    && (v.begun ==> l.dealt + v.toDeal == v.share)
    && (l.pc.Taking? ==> |l.got| < |v.mine| && l.down.arrived != [])
    && (l.pc.ProbingDone? || l.pc.HearingDone? ==> !l.genFinished)
    && (l.pc.HearingDone? ==> v.doneSent && l.down.transit == [])
    && (l.pc.Reprobing? || l.pc.Leaving? || l.pc.Over? ==> l.genFinished)
    && (l.pc.Leaving? || l.pc.Over? ==> l.got == v.mine)
    && (l.pc.Asking? || l.pc.Working? ==> l.got != [])
  }

  predicate LinkOk(l: Link, v: View) {
    DownOk(l, v) && UpOk(l, v) && PcOk(l, v)
  }

  predicate RootOk(s: State) {
    && |s.owner| <= s.count
    && (forall k :: 0 <= k < |s.owner| ==> s.owner[k] <= |s.links|)
    && s.consumed == Positions(s.owner, 0)
    && match s.root
       case InBarrier => s.owner == []
       case Dealing(rest) => s.owner + rest == Shares(s)
       case Serving => Shares(s) <= s.owner
       case Hearing(c) => c < |s.links| && |s.owner| < s.count && Shares(s) <= s.owner
       case Answering(c) => c < |s.links| && |s.owner| < s.count && Shares(s) <= s.owner
       case Consuming => |s.owner| < s.count && Shares(s) <= s.owner
       case Announcing(k) => k <= |s.links| && |s.owner| == s.count && Shares(s) <= s.owner
       case Collecting(k) => k <= |s.links| && |s.owner| == s.count && Shares(s) <= s.owner
       case Dropping(c) => c < |s.links| && |s.owner| == s.count && Shares(s) <= s.owner
       case _ => |s.owner| == s.count && Shares(s) <= s.owner
  }

  predicate Inv(s: State) {
    && |s.sizes| == |s.links|
    && RootOk(s)
    && forall c {:trigger ViewOf(s, c)} :: 0 <= c < |s.links| ==> LinkOk(s.links[c], ViewOf(s, c))
  }

  // ---------------------------------------------------------------- channels

  lemma {:induction false} FirstAtIs(q: seq<Msg>, t: Tag, p: nat)
    requires p <= |q| && (forall k :: 0 <= k < p ==> q[k].tag != t) && (p < |q| ==> q[p].tag == t)
    ensures FirstAt(q, t) == p
  {
    if p > 0 { FirstAtIs(q[1..], t, p - 1); }
  }

  /** A channel that holds `body`, all tagged `t`, and then at most one message tagged `u`. */
  predicate Shape(d: Channel, body: seq<Msg>, t: Tag, tail: seq<Msg>, u: Tag) {
    && d.All() == body + tail && t != u && |tail| <= 1
    && (forall k :: 0 <= k < |body| ==> body[k].tag == t)
    && (tail != [] ==> tail[0].tag == u)
  }

  /** The first message of the body is found first, and taking it leaves the rest. */
  lemma BodyTaken(d: Channel, body: seq<Msg>, t: Tag, tail: seq<Msg>)
    requires d.All() == body + tail && d.arrived != [] && body != [] && body[0].tag == t
    ensures d.Visible(t) && d.Head(t) == body[0]
    ensures d.Receive(t).All() == body[1..] + tail && d.Receive(t).transit == d.transit
  {
    var a := d.arrived;
    assert a[0] == (body + tail)[0];
    FirstAtIs(a, t, 0);
    assert a[..0] + a[1..] == a[1..];
    assert a[1..] + d.transit == d.All()[1..] == body[1..] + tail;
  }

  lemma BodyVisible(d: Channel, body: seq<Msg>, t: Tag, tail: seq<Msg>, u: Tag)
    requires Shape(d, body, t, tail, u)
    ensures d.Visible(t) <==> d.arrived != [] && body != []
    ensures d.Visible(t) ==>
              d.Head(t) == body[0] && d.Receive(t).All() == body[1..] + tail && d.Receive(t).transit == d.transit
  {
    var a := d.arrived;
    if a != [] && body != [] {
      BodyTaken(d, body, t, tail);
    } else {
      assert forall k :: 0 <= k < |a| ==> a[k] == d.All()[k];
      FirstAtIs(a, t, |a|);
    }
  }

  lemma TailVisible(d: Channel, body: seq<Msg>, t: Tag, tail: seq<Msg>, u: Tag)
    requires Shape(d, body, t, tail, u)
    ensures d.Visible(u) <==> tail != [] && d.transit == []
    ensures d.Visible(u) ==> d.Receive(u).arrived == body && d.Receive(u).transit == []
  {
    var a := d.arrived;
    assert |a| + |d.transit| == |body| + |tail|;
    assert forall k :: 0 <= k < |a| ==> a[k] == (body + tail)[k];
    FirstAtIs(a, u, if |a| <= |body| then |a| else |body|);
    if d.Visible(u) {
      assert a == d.All();
      assert d.Receive(u).arrived == a[..|body|] + a[|body| + 1..];
    }
  }

  lemma DownShape(l: Link, v: View)
    requires DownOk(l, v)
    ensures l.down.Visible(ServerSendVal) <==> l.down.arrived != [] && |l.got| < |v.mine|
    ensures l.down.Visible(ServerSendVal) ==>
              && l.down.Head(ServerSendVal).index == v.mine[|l.got|]
              && l.down.Receive(ServerSendVal).transit == l.down.transit
              && l.down.Receive(ServerSendVal).All() ==
                 Values(v.schedule, v.mine[|l.got| + 1..])
                 + Optional(v.doneSent && !l.genFinished, ValGenDone, v.schedule)
    ensures l.down.Visible(ValGenDone) <==> v.doneSent && !l.genFinished && l.down.transit == []
    ensures l.down.Visible(ValGenDone) ==>
              && l.down.Receive(ValGenDone).transit == []
              && l.down.Receive(ValGenDone).arrived == Values(v.schedule, v.mine[|l.got|..])
  {
    var rest := v.mine[|l.got|..];
    var tail := Optional(v.doneSent && !l.genFinished, ValGenDone, v.schedule);
    BodyVisible(l.down, Values(v.schedule, rest), ServerSendVal, tail, ValGenDone);
    TailVisible(l.down, Values(v.schedule, rest), ServerSendVal, tail, ValGenDone);
    if rest != [] {
      assert Values(v.schedule, rest)[1..] == Values(v.schedule, v.mine[|l.got| + 1..]);
    }
  }

  lemma UpShape(l: Link, v: View)
    requires UpOk(l, v)
    ensures l.up.Visible(ClientRequestVal) <==> l.up.arrived != [] && Outstanding(l, v) > 0
    ensures l.up.Visible(ClientRequestVal) ==>
              && l.up.Receive(ClientRequestVal).transit == l.up.transit
              && l.up.Receive(ClientRequestVal).All() ==
                 Requests(v.schedule, Outstanding(l, v) - 1)
                 + Optional(l.pc.Over? && !v.finishHeard, ClientFinished, v.schedule)
    ensures l.up.Visible(ClientFinished) <==> l.pc.Over? && !v.finishHeard && l.up.transit == []
    ensures l.up.Visible(ClientFinished) ==>
              && l.up.Receive(ClientFinished).transit == []
              && l.up.Receive(ClientFinished).arrived == Requests(v.schedule, Outstanding(l, v))
  {
    var n := Outstanding(l, v);
    var tail := Optional(l.pc.Over? && !v.finishHeard, ClientFinished, v.schedule);
    BodyVisible(l.up, Requests(v.schedule, n), ClientRequestVal, tail, ClientFinished);
    TailVisible(l.up, Requests(v.schedule, n), ClientRequestVal, tail, ClientFinished);
    if n > 0 { assert Requests(v.schedule, n)[1..] == Requests(v.schedule, n - 1); }
  }

  lemma DeliverKeeps(d: Channel)
    requires d.transit != []
    ensures d.Deliver().All() == d.All()
  {
  }

  lemma SendAppends(d: Channel, m: Msg)
    ensures d.Send(m).All() == d.All() + [m]
  {
  }

  lemma PositionsSnoc(owner: seq<nat>, x: nat, r: nat)
    ensures Positions(owner + [x], r) == Positions(owner, r) + if x == r then [|owner|] else []
  {
    assert (owner + [x])[..|owner|] == owner;
  }

  // ---------------------------------------------------------------- one link, one step

  lemma DeliverDownOk(l: Link, v: View)
    requires LinkOk(l, v) && l.down.transit != []
    ensures LinkOk(l.(down := l.down.Deliver()), v)
  {
    DeliverKeeps(l.down);
  }

  lemma DeliverUpOk(l: Link, v: View)
    requires LinkOk(l, v) && l.up.transit != []
    ensures LinkOk(l.(up := l.up.Deliver()), v)
  {
    DeliverKeeps(l.up);
    assert Outstanding(l, v) == Outstanding(l.(up := l.up.Deliver()), v);
    assert v.finishHeard ==> l.up.transit == [];
  }

  lemma AskOk(l: Link, v: View, pc: ClientPc)
    requires LinkOk(l, v) && !l.pc.Over? && !pc.Over?
    requires var l' := l.(pc := pc, up := l.up.Send(Msg(ClientRequestVal, v.schedule, 0)));
             Outstanding(l', v) == Outstanding(l, v) + 1 && PcOk(l', v)
    ensures LinkOk(l.(pc := pc, up := l.up.Send(Msg(ClientRequestVal, v.schedule, 0))), v)
  {
    var m := Msg(ClientRequestVal, v.schedule, 0);
    SendAppends(l.up, m);
    assert Requests(v.schedule, Outstanding(l, v)) + [m] == Requests(v.schedule, Outstanding(l, v) + 1);
  }

  /** The receive of the end mark. */
  lemma EndMarkOk(l: Link, v: View)
    requires LinkOk(l, v) && ClientReady(l) && l.pc.HearingDone?
    ensures LinkOk(ClientStep(l, v.schedule), v)
  {
    DownShape(l, v);
    var l' := ClientStep(l, v.schedule);
    assert Outstanding(l', v) == Outstanding(l, v);
    assert l'.up == l.up && PcOk(l', v);
  }

  /** The three probes and the return to them: only the program counter moves. */
  lemma ProbeOk(l: Link, v: View)
    requires LinkOk(l, v) && ClientReady(l)
    requires l.pc.Probing? || l.pc.ProbingDone? || l.pc.Reprobing? || l.pc.Working?
    ensures LinkOk(ClientStep(l, v.schedule), v)
  {
    DownShape(l, v);
    var l' := ClientStep(l, v.schedule);
    assert Outstanding(l', v) == Outstanding(l, v);
    assert l'.up == l.up && PcOk(l', v);
  }

  lemma TakeOk(l: Link, v: View)
    requires LinkOk(l, v) && ClientReady(l) && l.pc.Taking?
    ensures LinkOk(ClientStep(l, v.schedule), v)
  {
    DownShape(l, v);
    var l' := ClientStep(l, v.schedule);
    assert l'.got == v.mine[..|l.got| + 1];
    assert Outstanding(l', v) == Outstanding(l, v);
  }

  lemma LeaveOk(l: Link, v: View)
    requires LinkOk(l, v) && l.pc.Leaving?
    ensures LinkOk(ClientStep(l, v.schedule), v)
  {
    SendAppends(l.up, Msg(ClientFinished, v.schedule, 0));
    assert Outstanding(ClientStep(l, v.schedule), v) == Outstanding(l, v);
  }

  lemma ClientStepOk(l: Link, v: View)
    requires LinkOk(l, v) && ClientReady(l)
    ensures LinkOk(ClientStep(l, v.schedule), v)
  {
    match l.pc
    case Posting(left) =>
      if left > 0 {
        AskOk(l, v, Posting(left - 1));
      } else {
        assert Outstanding(ClientStep(l, v.schedule), v) == Outstanding(l, v);
      }
    case Asking => AskOk(l, v, Working);
    case Taking => TakeOk(l, v);
    case Leaving => LeaveOk(l, v);
    case HearingDone => EndMarkOk(l, v);
    case _ => ProbeOk(l, v);
  }

  lemma SendValueOk(l: Link, v: View, v': View, index: nat, first: nat)
    requires LinkOk(l, v) && v.begun && !v.doneSent && first <= 1
    requires v' == v.(mine := v.mine + [index], toDeal := v'.toDeal, answering := false)
    requires v'.toDeal + first == v.toDeal && (first == 0 <==> v.answering)
    ensures LinkOk(l.(down := l.down.Send(Msg(ServerSendVal, v.schedule, index)), dealt := l.dealt + first), v')
  {
    var m := Msg(ServerSendVal, v.schedule, index);
    var l' := l.(down := l.down.Send(m), dealt := l.dealt + first);
    SendAppends(l.down, m);
    assert v'.mine[|l.got|..] == v.mine[|l.got|..] + [index];
    assert Values(v.schedule, v.mine[|l.got|..]) + [m] == Values(v.schedule, v'.mine[|l.got|..]);
    assert Outstanding(l', v') == Outstanding(l, v);
  }

  lemma SendDoneOk(l: Link, v: View)
    requires LinkOk(l, v) && v.begun && !v.doneSent
    ensures LinkOk(l.(down := l.down.Send(Msg(ValGenDone, v.schedule, 0))), v.(doneSent := true))
  {
    SendAppends(l.down, Msg(ValGenDone, v.schedule, 0));
  }

  /** A request that a probe has found is there to be received. */
  lemma FindRequestOk(l: Link, v: View)
    requires LinkOk(l, v) && l.up.Visible(ClientRequestVal)
    ensures LinkOk(l, v.(hearing := true))
  {
    UpShape(l, v);
  }

  lemma HeardIsVisible(l: Link, v: View)
    requires LinkOk(l, v) && v.hearing
    ensures l.up.Visible(ClientRequestVal)
  {
    UpShape(l, v);
  }

  lemma HearRequestOk(l: Link, v: View)
    requires LinkOk(l, v) && v.hearing && v.begun && !v.answering && !v.finishHeard
    ensures l.up.Visible(ClientRequestVal)
    ensures LinkOk(l.(up := l.up.Receive(ClientRequestVal)), v.(hearing := false, answering := true))
  {
    UpShape(l, v);
    var l' := l.(up := l.up.Receive(ClientRequestVal));
    assert Outstanding(l', v.(hearing := false, answering := true)) == Outstanding(l, v) - 1;
  }

  lemma DrainOk(l: Link, v: View)
    requires LinkOk(l, v) && v.hearing && v.finishHeard && !v.closed
    ensures l.up.Visible(ClientRequestVal)
    ensures LinkOk(l.(up := l.up.Receive(ClientRequestVal), drained := l.drained + 1), v.(hearing := false))
  {
    UpShape(l, v);
    var l' := l.(up := l.up.Receive(ClientRequestVal), drained := l.drained + 1);
    assert Outstanding(l', v.(hearing := false)) == Outstanding(l, v) - 1;
  }

  lemma HearFinishOk(l: Link, v: View)
    requires LinkOk(l, v) && l.up.Visible(ClientFinished) && !v.closed
    ensures LinkOk(l.(up := l.up.Receive(ClientFinished)), v.(finishHeard := true))
  {
    UpShape(l, v);
    var l' := l.(up := l.up.Receive(ClientFinished));
    assert Outstanding(l', v.(finishHeard := true)) == Outstanding(l, v);
  }

  lemma CloseOk(l: Link, v: View)
    requires LinkOk(l, v) && v.finishHeard && !v.hearing && !l.up.Visible(ClientRequestVal)
    ensures LinkOk(l, v.(closed := true))
  {
    UpShape(l, v);
    assert l.up.All() == Requests(v.schedule, Outstanding(l, v));
  }
}
