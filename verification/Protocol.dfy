/** The dynamic-schedule protocol as a step relation: rank 0 owns the iterator and deals its values
    to the clients on request, while it consumes values itself. One `Apply` is one MPI call of one
    rank, one delivery by the network, or one collective. */
module Protocol {
  import opened FirstRound

  datatype Tag = ClientRequestVal | ServerSendVal | ValGenDone | ClientFinished

  /** `schedule` numbers the parallel loop that sent the message; no rank ever looks at it.
      `index` is the payload of a value: its position in the root's range. */
  datatype Msg = Msg(tag: Tag, schedule: nat, index: nat)

  /** The place of the first message tagged `t`, or `|q|` if there is none. */
  function FirstAt(q: seq<Msg>, t: Tag): (p: nat)
    ensures p <= |q| && (p < |q| ==> q[p].tag == t)
  {
    if q == [] || q[0].tag == t then 0 else 1 + FirstAt(q[1..], t)
  }

  /** One direction between the root and one client: messages arrive in the order they were sent,
      but are received by tag. */
  datatype Channel = Channel(arrived: seq<Msg>, transit: seq<Msg>) {
    function All(): seq<Msg> { arrived + transit }

    /** What `iprobe` for tag `t` answers. */
    predicate Visible(t: Tag) { FirstAt(arrived, t) < |arrived| }

    function Send(m: Msg): Channel { this.(transit := transit + [m]) }

    function Deliver(): Channel
      requires transit != []
    {
      Channel(arrived + [transit[0]], transit[1..])
    }

    function Head(t: Tag): Msg
      requires Visible(t)
    {
      arrived[FirstAt(arrived, t)]
    }

    function Receive(t: Tag): Channel
      requires Visible(t)
    {
      var p := FirstAt(arrived, t);
      this.(arrived := arrived[..p] + arrived[p + 1..])
    }
  }

  /** Where a client stands in `client_handler`: posting its first requests, in the barrier, at the
      three probes of `next`, about to receive the end mark that the second one found, at the receive
      of a value and its next request, in the loop body, about to send `client_finished`, or out of
      the schedule. */
  datatype ClientPc =
    | Posting(left: nat) | AtBarrier
    | Probing | ProbingDone | HearingDone | Reprobing | Taking | Asking
    | Working | Leaving | Over

  /** A client and its two channels. `dealt` counts the values the first round sent it and
      `drained` the requests of it that the root threw away at the end. */
  datatype Link = Link(pc: ClientPc, genFinished: bool, got: seq<nat>,
                       down: Channel, up: Channel, dealt: nat, drained: nat)

  /** Where the root stands in `server_handler`. `Hearing` and `Dropping` are the receives of a
      request that a probe found; `Announcing`, `Collecting` and `Draining` are the three stages of
      `finish_cleanup`. */
  datatype RootPc =
    | InBarrier | Dealing(rest: seq<nat>)
    | Serving | Hearing(client: nat) | Answering(client: nat) | Consuming
    | Announcing(k: nat) | Collecting(k: nat) | Draining | Dropping(client: nat) | Out

  /** The root iterates over `count` values; `owner[k]` is the rank that was given value `k`, so
      `|owner|` is the position of the iterator. Client `c` has rank `c + 1`. */
  datatype State = State(schedule: nat, count: nat, sizes: seq<nat>, root: RootPc,
                         owner: seq<nat>, consumed: seq<nat>, links: seq<Link>)

  datatype Action =
    | Gather(count: nat, sizes: seq<nat>)      // the all_gather that opens a schedule completes
    | PassBarrier
    | DeliverDown(client: nat)
    | DeliverUp(client: nat)
    | ClientAct(client: nat)
    | RootAct(source: nat)                     // `source` is what an any_source probe picks

  /** Before any schedule. */
  function Idle(clients: nat): State {
    State(0, 0, seq(clients, _ => 0), Out, [], [],
          seq(clients, _ => Link(Over, true, [], Channel([], []), Channel([], []), 0, 0)))
  }

  predicate SomeRequest(s: State) {
    exists c :: 0 <= c < |s.links| && s.links[c].up.Visible(ClientRequestVal)
  }

  predicate GoodSource(s: State, c: nat) {
    c < |s.links| && s.links[c].up.Visible(ClientRequestVal)
  }

  predicate ClientReady(l: Link) {
    && !l.pc.AtBarrier? && !l.pc.Over?
    && (l.pc.Taking? ==> l.down.Visible(ServerSendVal))
    && (l.pc.HearingDone? ==> l.down.Visible(ValGenDone))
  }

  predicate RootReady(s: State, source: nat) {
    match s.root
    case InBarrier => false
    case Out => false
    case Dealing(rest) => rest == [] || 1 <= rest[0] <= |s.links|
    case Serving => |s.owner| < s.count && SomeRequest(s) ==> GoodSource(s, source)
    case Hearing(c) => GoodSource(s, c)
    case Answering(c) => c < |s.links|
    case Consuming => true
    case Announcing(k) => k <= |s.links|
    case Collecting(k) => k == |s.links| || (k < |s.links| && s.links[k].up.Visible(ClientFinished))
    case Draining => SomeRequest(s) ==> GoodSource(s, source)
    case Dropping(c) => GoodSource(s, c)
  }

  predicate Enabled(s: State, a: Action) {
    match a
    case Gather(count, sizes) =>
      && s.root.Out? && |sizes| == |s.links|
      && (forall c :: 0 <= c < |s.links| ==> s.links[c].pc.Over?)
    case PassBarrier =>
      && s.root.InBarrier? && |s.sizes| == |s.links|
      && (forall c :: 0 <= c < |s.links| ==> s.links[c].pc.AtBarrier?)
    case DeliverDown(c) => c < |s.links| && s.links[c].down.transit != []
    case DeliverUp(c) => c < |s.links| && s.links[c].up.transit != []
    case ClientAct(c) => c < |s.links| && ClientReady(s.links[c])
    case RootAct(source) => RootReady(s, source)
  }

  function ClientStep(l: Link, schedule: nat): Link
    requires ClientReady(l)
  {
    match l.pc
    case Posting(left) =>
      if left == 0 then l.(pc := AtBarrier)
      else l.(pc := Posting(left - 1), up := l.up.Send(Msg(ClientRequestVal, schedule, 0)))
    case Probing =>
      l.(pc := if l.down.Visible(ServerSendVal) then Taking else if l.genFinished then Reprobing else ProbingDone)
    case ProbingDone =>
      l.(pc := if l.down.Visible(ValGenDone) then HearingDone else Probing)
    case HearingDone =>
      l.(pc := Reprobing, genFinished := true, down := l.down.Receive(ValGenDone))
    case Reprobing =>
      l.(pc := if l.down.Visible(ServerSendVal) then Taking else Leaving)
    case Taking =>
      l.(pc := Asking, got := l.got + [l.down.Head(ServerSendVal).index], down := l.down.Receive(ServerSendVal))
    case Asking =>
      l.(pc := Working, up := l.up.Send(Msg(ClientRequestVal, schedule, 0)))
    case Working => l.(pc := Probing)
    case Leaving =>
      l.(pc := Over, up := l.up.Send(Msg(ClientFinished, schedule, 0)))
  }

  /** `isend` of the value at the iterator to client `c`, and the iterator's increment. */
  function SendValue(s: State, c: nat, first: nat): State
    requires c < |s.links|
  {
    var l := s.links[c];
    s.(owner := s.owner + [c + 1],
       links := s.links[c := l.(down := l.down.Send(Msg(ServerSendVal, s.schedule, |s.owner|)),
                                dealt := l.dealt + first)])
  }

  function RootStep(s: State, source: nat): State
    requires RootReady(s, source)
  {
    match s.root
    case Dealing(rest) =>
      if rest == [] then s.(root := Serving)
      else SendValue(s, rest[0] - 1, 1).(root := Dealing(rest[1..]))
    case Serving =>
      if |s.owner| >= s.count then s.(root := Announcing(0))
      else s.(root := if SomeRequest(s) then Hearing(source) else Consuming)
    case Hearing(c) =>
      var l := s.links[c];
      s.(root := Answering(c), links := s.links[c := l.(up := l.up.Receive(ClientRequestVal))])
    case Answering(c) => SendValue(s, c, 0).(root := Serving)
    case Consuming => s.(root := Serving, owner := s.owner + [0], consumed := s.consumed + [|s.owner|])
    case Announcing(k) =>
      if k == |s.links| then s.(root := Collecting(0))
      else
        var l := s.links[k];
        s.(root := Announcing(k + 1), links := s.links[k := l.(down := l.down.Send(Msg(ValGenDone, s.schedule, 0)))])
    case Collecting(k) =>
      if k == |s.links| then s.(root := Draining)
      else
        var l := s.links[k];
        s.(root := Collecting(k + 1), links := s.links[k := l.(up := l.up.Receive(ClientFinished))])
    case Draining => s.(root := if SomeRequest(s) then Dropping(source) else Out)
    case Dropping(c) =>
      var l := s.links[c];
      s.(root := Draining,
         links := s.links[c := l.(up := l.up.Receive(ClientRequestVal), drained := l.drained + 1)])
  }

  function Apply(s: State, a: Action): State
    requires Enabled(s, a)
  {
    match a
    case Gather(count, sizes) =>
      State(s.schedule + 1, count, sizes, InBarrier, [], [],
            seq(|s.links|, c requires 0 <= c < |s.links| && |sizes| == |s.links| =>
              Link(Posting(sizes[c]), false, [], s.links[c].down, s.links[c].up, 0, 0)))
    case PassBarrier =>
      s.(root := Dealing(DealOrder([0] + s.sizes, s.count)),
         links := seq(|s.links|, c requires 0 <= c < |s.links| => s.links[c].(pc := Probing)))
    case DeliverDown(c) => var l := s.links[c]; s.(links := s.links[c := l.(down := l.down.Deliver())])
    case DeliverUp(c) => var l := s.links[c]; s.(links := s.links[c := l.(up := l.up.Deliver())])
    case ClientAct(c) => s.(links := s.links[c := ClientStep(s.links[c], s.schedule)])
    case RootAct(source) => RootStep(s, source)
  }

  /** The actions can be taken in this order. */
  predicate ValidRun(s: State, acts: seq<Action>)
    decreases |acts|
  {
    acts == [] || (Enabled(s, acts[0]) && ValidRun(Apply(s, acts[0]), acts[1..]))
  }

  function After(s: State, acts: seq<Action>): State
    requires ValidRun(s, acts)
    decreases |acts|
  {
    if acts == [] then s else After(Apply(s, acts[0]), acts[1..])
  }

  /** The positions of `owner` that rank `r` was given, ascending. */
  function Positions(owner: seq<nat>, r: nat): (p: seq<nat>)
    ensures |p| <= |owner|
  {
    if owner == [] then []
    else
      var n := |owner| - 1;
      Positions(owner[..n], r) + if owner[n] == r then [n] else []
  }
}
