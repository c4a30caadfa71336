/** The handlers behind the schedule's iterator, with their loops. They know of the other ranks only
    what the communicator answers; and since it takes a call only where the protocol makes this very
    call, the handlers can take no step that the protocol does not have. */
module Handlers {
  import opened Sums
  import opened FirstRound
  import opened Protocol
  import opened ProtocolInvariant
  import opened ProtocolProgress
  import opened Communicator

  lemma PassOver(i: nat, left: seq<nat>, n: nat)
    requires i < |left| && left[0] == 0 && (i == 0 || left[i] == 0)
    ensures DealFrom(i, left, n) == DealFrom(i + 1, left, n) && (Ahead(left, i) ==> Ahead(left, i + 1))
  {
  }

  /** A client with credit left is dealt the next value. */
  lemma FirstOf(i: nat, left: seq<nat>, n: nat)
    requires 0 < i < |left| && left[0] == 0 && left[i] > 0 && n > 0
    ensures Sum(left[i := left[i] - 1]) < Sum(left)
    ensures var order := DealFrom(i, left, n);
            order != [] && order[0] == i && order[1..] == DealFrom(i + 1, left[i := left[i] - 1], n - 1)
  {
    SumUpdate(left, i, left[i] - 1);
    assert DealFrom(i, left, n) == [i] + DealFrom(i + 1, left[i := left[i] - 1], n - 1);
  }

  /** Out of values the dealing stops. */
  lemma NothingToDeal(i: nat, left: seq<nat>)
    requires 0 < i < |left| && left[0] == 0 && left[i] > 0
    ensures DealFrom(i, left, 0) == []
  {
  }

  class ServerHandler {
    const comm: Comm
    const end: nat
    var iter: nat

    ghost predicate Valid()
      reads this, comm
    {
      comm.Valid() && iter == |comm.s.owner| && iter <= end == comm.s.count
    }

    /** What every method leaves alone: the loop that is running, and what the root has consumed. */
    twostate predicate Kept()
      reads this, comm
    {
      Valid() && old(comm.past) <= comm.past && SameLoop(old(comm.s), comm.s) && comm.s.consumed == old(comm.s.consumed)
    }

    /** The ranks that have been given a value, and those that the first round still serves. */
    ghost function Dealt(): seq<nat>
      reads this, comm
    {
      comm.s.owner + if comm.s.root.Dealing? then comm.s.root.rest else []
    }

    /** Between two calls of the user the root is in its loop body, or the schedule is over. */
    ghost predicate AtUser()
      reads this, comm
    {
      Valid() && if iter == end then comm.s.root.Out? else comm.s.root.Consuming?
    }

    /** The constructor waits for the barrier, deals the first round and answers what has arrived. */
    constructor (comm: Comm, count: nat, bufferSizes: seq<nat>)
      requires comm.Valid() && comm.s.root.InBarrier? && bufferSizes == [0] + comm.s.sizes && count == comm.s.count
      modifies comm
      ensures this.comm == comm && this.end == count && AtUser() && old(comm.past) <= comm.past
      ensures SameLoop(old(comm.s), comm.s) && comm.s.consumed == []
      ensures DealOrder(bufferSizes, count) <= comm.s.owner
    {
      this.comm := comm;
      end := count;
      iter := 0;
      new;
      WaitForRequests(bufferSizes);
      FirstTimeHandleClientRequest(bufferSizes);
      HandleClientRequest();
    }

    /** The barrier: nothing has been dealt when it ends. */
    method WaitForRequests(ghost bufferSizes: seq<nat>)
      requires comm.Valid() && comm.s.root.InBarrier? && end == comm.s.count && iter == 0
      requires bufferSizes == [0] + comm.s.sizes
      modifies comm
      ensures Valid() && old(comm.past) <= comm.past && SameLoop(old(comm.s), comm.s)
      ensures |bufferSizes| == comm.Size() && comm.s.owner == [] && comm.s.consumed == []
      ensures comm.s.root == Dealing(DealOrder(bufferSizes, end - iter))
    {
      comm.RootBarrier();
      assert |comm.s.owner| + |Shares(comm.s)| == |Shares(comm.s)|;
      assert Positions(comm.s.owner, 0) == [];
    }

    predicate Done()
      reads this
    {
      iter == end
    }

    /** Exactly the sends of the balanced order, one value each. */
    method FirstTimeHandleClientRequest(bufferSizes: seq<nat>)
      requires |bufferSizes| == comm.Size() && bufferSizes[0] == 0
      requires Valid() && comm.s.root == Dealing(DealOrder(bufferSizes, end - iter))
      modifies this, comm
      ensures Kept() && comm.s.root.Serving?
      ensures comm.s.owner == old(comm.s.owner) + DealOrder(bufferSizes, end - old(iter))
    {
      var left, stopped := bufferSizes, false;
      while !AllZero(left)
        invariant |left| == |bufferSizes| && left[0] == 0 && !stopped
        invariant Kept() && Dealt() == old(Dealt())
        invariant comm.s.root == Dealing(DealFrom(|left|, left, end - iter))
        decreases Sum(left)
      {
        left, stopped := DealRound(left);
        if stopped { return; }
      }
      StopDealing();
    }

    /** One round of the outer loop. It stops the dealing when the iterator is at its end. */
    method DealRound(credits: seq<nat>) returns (left: seq<nat>, stopped: bool)
      requires |credits| == comm.Size() && credits[0] == 0 && !AllZero(credits)
      requires Valid() && comm.s.root == Dealing(DealFrom(|credits|, credits, end - iter))
      modifies this, comm
      ensures Kept() && Dealt() == old(Dealt())
      ensures if stopped then comm.s.root.Serving?
              else |left| == |credits| && left[0] == 0 && Sum(left) < Sum(credits)
                   && comm.s.root == Dealing(DealFrom(|left|, left, end - iter))
    {
      left, stopped := credits, false;
      for i := 0 to comm.Size()
        invariant |left| == |credits| == comm.Size() && left[0] == 0 && !stopped
        invariant Kept() && Dealt() == old(Dealt())
        invariant comm.s.root == Dealing(DealFrom(i, left, end - iter))
        invariant Sum(left) < Sum(credits) || (Sum(left) == Sum(credits) && Ahead(left, i))
      {
        left, stopped := Serve(i, left);
        if stopped { return; }
      }
    }

    /** The body of the inner loop. */
    method Serve(i: nat, credits: seq<nat>) returns (left: seq<nat>, stopped: bool)
      requires i < |credits| == comm.Size() && credits[0] == 0
      requires Valid() && comm.s.root == Dealing(DealFrom(i, credits, end - iter))
      modifies this, comm
      ensures Kept() && Dealt() == old(Dealt())
      ensures stopped ==> comm.s.root.Serving?
      ensures !stopped ==>
                |left| == |credits| && left[0] == 0 && comm.s.root == Dealing(DealFrom(i + 1, left, end - iter))
      ensures !stopped ==>
                Sum(left) < Sum(credits) || (left == credits && (Ahead(left, i) ==> Ahead(left, i + 1)))
    {
      if i == ROOT || credits[i] == 0 {
        PassOver(i, credits, end - iter);
        return credits, false;
      }
      left, stopped := ServeOne(i, credits);
    }

    /** A client with credit left gets a value, if there is one. */
    method ServeOne(i: nat, credits: seq<nat>) returns (left: seq<nat>, stopped: bool)
      requires 0 < i < |credits| == comm.Size() && credits[0] == 0 && credits[i] > 0
      requires Valid() && comm.s.root == Dealing(DealFrom(i, credits, end - iter))
      modifies this, comm
      ensures Kept() && Dealt() == old(Dealt())
      ensures stopped ==> comm.s.root.Serving?
      ensures !stopped ==>
                |left| == |credits| && left[0] == 0 && comm.s.root == Dealing(DealFrom(i + 1, left, end - iter))
      ensures !stopped ==> Sum(left) < Sum(credits)
    {
      if Done() {
        NothingToDeal(i, credits);
        StopDealing();
        return credits, true;
      }
      left := Deal(i, credits);
      stopped := false;
    }

    /** `isend` of the first round, the iterator's increment, and the client's credit. */
    method Deal(i: nat, left: seq<nat>) returns (left': seq<nat>)
      requires 0 < i < |left| == comm.Size() && left[0] == 0 && left[i] > 0 && iter < end
      requires Valid() && comm.s.root == Dealing(DealFrom(i, left, end - iter))
      modifies this, comm
      ensures Kept() && Dealt() == old(Dealt())
      ensures left' == left[i := left[i] - 1] && Sum(left') < Sum(left)
      ensures comm.s.root == Dealing(DealFrom(i + 1, left', end - iter))
    {
      left' := left[i := left[i] - 1];
      FirstOf(i, left, end - iter);
      comm.RootIsend(i, ServerSendVal, iter);
      iter := iter + 1;
    }

    method StopDealing()
      requires Valid() && comm.s.root == Dealing([])
      modifies comm
      ensures Kept() && comm.s.root.Serving? && comm.s.owner == old(comm.s.owner) == old(Dealt())
    {
      comm.RootMove();
    }

    method HandleClientRequest()
      requires Valid() && comm.s.root.Serving?
      modifies this, comm
      ensures AtUser() && Kept() && old(comm.s.owner) <= comm.s.owner
    {
      while !Done()
        invariant Kept() && comm.s.root.Serving? && old(comm.s.owner) <= comm.s.owner
        decreases end - iter
      {
        var found, source := comm.RootIprobe(ClientRequestVal);
        if !found { break; }
        Answer(source);
      }
      if Done() { FinishCleanup(); }
    }

    /** The receive of the request that was found, and the value at the iterator in return. */
    method Answer(source: nat)
      requires Valid() && 1 <= source < comm.Size() && comm.s.root == Hearing(source - 1) && !Done()
      modifies this, comm
      ensures Kept() && comm.s.root.Serving? && iter == old(iter) + 1
      ensures comm.s.owner == old(comm.s.owner) + [source]
    {
      var _ := comm.RootRecv(source, ClientRequestVal);
      comm.RootIsend(source, ServerSendVal, iter);
      iter := iter + 1;
    }

    /** `val_gen_done` to every client, then a blocking receive of every client's farewell in turn,
        then every request that is left. */
    method FinishCleanup()
      requires Valid() && comm.s.root.Serving? && Done()
      modifies comm
      ensures Kept() && comm.s.root.Out? && comm.s.owner == old(comm.s.owner)
    {
      Announce();
      Collect();
      Drain();
    }

    method Announce()
      requires Valid() && comm.s.root.Serving? && Done()
      modifies comm
      ensures Kept() && comm.s.root == Collecting(0) && comm.s.owner == old(comm.s.owner)
    {
      comm.RootMove();
      for i := 0 to comm.Size()
        invariant Kept() && comm.s.root == Announcing(if i == 0 then 0 else i - 1)
        invariant comm.s.owner == old(comm.s.owner)
      {
        if i == ROOT { continue; }
        comm.RootIsend(i, ValGenDone, 0);
      }
      comm.RootMove();
    }

    method Collect()
      requires Valid() && comm.s.root == Collecting(0)
      modifies comm
      ensures Kept() && comm.s.root.Draining? && comm.s.owner == old(comm.s.owner)
    {
      for i := 0 to comm.Size()
        invariant Kept() && comm.s.root == Collecting(if i == 0 then 0 else i - 1)
        invariant comm.s.owner == old(comm.s.owner)
      {
        if i == ROOT { continue; }
        var _ := comm.RootRecv(i, ClientFinished);
      }
      comm.RootMove();
    }

    method Drain()
      requires Valid() && comm.s.root.Draining?
      modifies comm
      ensures Kept() && comm.s.root.Out? && comm.s.owner == old(comm.s.owner)
    {
      var found := DropOne();
      while found
        invariant Kept() && comm.s.owner == old(comm.s.owner)
        invariant if found then comm.s.root.Draining? else comm.s.root.Out?
        decreases Measure(comm.s)
      {
        found := DropOne();
      }
    }

    /** The probe of the last loop and, if it finds a request, its receive. */
    method DropOne() returns (found: bool)
      requires Valid() && comm.s.root.Draining?
      modifies comm
      ensures Kept() && comm.s.owner == old(comm.s.owner) && Measure(comm.s) < Measure(old(comm.s))
      ensures if found then comm.s.root.Draining? else comm.s.root.Out?
    {
      var source;
      found, source := comm.RootIprobe(ClientRequestVal);
      if !found { return; }
      var _ := comm.RootRecv(source, ClientRequestVal);
    }

    /** The root has used the value at the iterator. */
    method Next()
      requires AtUser() && !Done()
      modifies this, comm
      ensures AtUser() && old(comm.past) <= comm.past && SameLoop(old(comm.s), comm.s)
      ensures comm.s.consumed == old(comm.s.consumed) + [old(iter)] && iter > old(iter)
    {
      comm.RootConsume(iter);
      iter := iter + 1;
      HandleClientRequest();
    }
  }

  class ClientHandler {
    const comm: Comm
    const client: nat
    var value: nat
    var leaderGenFinished: bool
    var totallyFinished: bool

    ghost predicate Valid()
      reads this, comm
    {
      && comm.Valid() && client < |comm.s.links|
      && leaderGenFinished == comm.s.links[client].genFinished
    }

    /** What every method leaves alone, and that none takes the schedule back. */
    twostate predicate Kept()
      requires old(comm.Valid())
      reads this, comm
    {
      && Valid() && old(comm.past) <= comm.past && SameLoop(old(comm.s), comm.s)
      && Measure(comm.s) <= Measure(old(comm.s))
    }

    ghost function Pc(): ClientPc
      reads this, comm
      requires client < |comm.s.links|
    {
      comm.s.links[client].pc
    }

    ghost function Got(): seq<nat>
      reads this, comm
      requires client < |comm.s.links|
    {
      comm.s.links[client].got
    }

    /** Between two calls of the user the client is in its loop body with the last value it took, or
        it has left the schedule. */
    ghost predicate AtUser()
      reads this, comm
    {
      && Valid()
      && if totallyFinished then Pc().Over? else Pc().Working? && Got() != [] && Got()[|Got()| - 1] == value
    }

    /** The constructor posts the client's requests, waits in the barrier and fetches a value. */
    constructor (comm: Comm, client: nat, bufferSize: nat)
      requires comm.Valid() && client < |comm.s.links| && comm.s.links[client].pc == Posting(bufferSize)
      requires comm.s.links[client].got == [] && !comm.s.links[client].genFinished
      modifies comm
      ensures this.comm == comm && this.client == client && AtUser() && old(comm.past) <= comm.past
      ensures SameLoop(old(comm.s), comm.s)
      ensures if totallyFinished then Got() == [] else Got() == [value]
    {
      this.comm := comm;
      this.client := client;
      value := 0;
      leaderGenFinished, totallyFinished := false, false;
      new;
      Post(bufferSize);
      comm.ClientBarrier(client);
      Fetch();
    }

    /** The ring of requests is filled. */
    method Post(bufferSize: nat)
      requires Valid() && Pc() == Posting(bufferSize)
      modifies comm
      ensures Kept() && Pc() == Posting(0) && Got() == old(Got())
    {
      for i := 0 to bufferSize
        invariant Kept() && Pc() == Posting(bufferSize - i) && Got() == old(Got())
      {
        comm.ClientSend(client, ROOT, ClientRequestVal);
      }
    }

    predicate Done()
      reads this
    {
      totallyFinished
    }

    /** A client that has received the end mark remembers it; otherwise it probes for the mark, and
        receives it if it is there. */
    method LeaderGenFinished() returns (finished: bool)
      requires Valid() && if leaderGenFinished then Pc().Reprobing? else Pc().ProbingDone?
      modifies comm, this`leaderGenFinished
      ensures Kept() && Got() == old(Got())
      ensures old(leaderGenFinished) || old(comm.s.links[client]).down.Visible(ValGenDone) ==> finished
      ensures finished == leaderGenFinished
      ensures if finished then Pc().Reprobing? else Pc().Probing? && !DoneVisible(comm.s.links[client])
    {
      if leaderGenFinished { return true; }
      var found := comm.ClientIprobe(client, ROOT, ValGenDone);
      if !found { return false; }
      var _ := comm.ClientRecv(client, ROOT, ValGenDone);
      leaderGenFinished := true;
      finished := true;
    }

    /** `iprobe` for a value. */
    method HasValInBuffer() returns (has: bool)
      requires Valid() && (Pc().Probing? || Pc().Reprobing?)
      modifies comm
      ensures Kept() && Got() == old(Got())
      ensures old(comm.s.links[client]).down.Visible(ServerSendVal) ==> has
      ensures if has then Pc().Taking?
              else if old(Pc()).Reprobing? then Pc().Leaving?
              else if leaderGenFinished then Pc().Reprobing? else Pc().ProbingDone?
    {
      has := comm.ClientIprobe(client, ROOT, ServerSendVal);
    }

    method Next()
      requires AtUser() && !Done()
      modifies this, comm
      ensures AtUser() && Kept() && Measure(comm.s) < Measure(old(comm.s))
      ensures Got() == if Done() then old(Got()) else old(Got()) + [value]
    {
      comm.ClientReturn(client);
      Fetch();
    }

    /** Receive the value that has been seen and ask for another one. */
    method Take()
      requires Valid() && Pc().Taking? && !totallyFinished
      modifies this, comm
      ensures AtUser() && Kept() && Measure(comm.s) < Measure(old(comm.s))
      ensures !Done() && Got() == old(Got()) + [value]
    {
      value := comm.ClientRecv(client, ROOT, ServerSendVal);
      comm.ClientSend(client, ROOT, ClientRequestVal);
    }

    method Leave()
      requires Valid() && Pc().Leaving? && !totallyFinished
      modifies this, comm
      ensures AtUser() && Kept() && Done() && Got() == old(Got())
    {
      totallyFinished := true;
      comm.ClientSend(client, ROOT, ClientFinished);
    }

    /** The body of the polling loop: when the end mark has come, one more probe for a value decides
        whether the client leaves; otherwise it polls again. */
    method Poll() returns (has: bool)
      requires Valid() && (if leaderGenFinished then Pc().Reprobing? else Pc().ProbingDone?) && !totallyFinished
      modifies this, comm
      ensures Kept() && Got() == old(Got())
      ensures Done() ==> AtUser()
      ensures !Done() && has ==> Pc().Taking?
      ensures !Done() && !has ==>
                !leaderGenFinished && Pc().ProbingDone? && Measure(comm.s) < Measure(old(comm.s))
    {
      var finished := LeaderGenFinished();
      if finished {
        has := HasValInBuffer();
        if !has { Leave(); }
        return;
      }
      comm.ClientAwait(client);
      has := HasValInBuffer();
    }

    /** Poll for a value, then for the end mark, then for a value again, until there is a value to
        take or, the end mark seen, none. */
    method Fetch()
      requires Valid() && Pc().Probing? && !totallyFinished
      modifies this, comm
      ensures AtUser() && Kept()
      ensures Got() == if Done() then old(Got()) else old(Got()) + [value]
    {
      var has := HasValInBuffer();
      while !has
        invariant Kept() && !totallyFinished && Got() == old(Got())
        invariant if has then Pc().Taking? else if leaderGenFinished then Pc().Reprobing? else Pc().ProbingDone?
        decreases !has, Measure(comm.s)
      {
        has := Poll();
        if Done() { return; }
      }
      Take();
    }
  }

  class SingleRankHandler {
    const end: nat
    var iter: nat

    constructor (end: nat)
      ensures this.end == end && iter == 0
    {
      this.end := end;
      iter := 0;
    }

    predicate Done()
      reads this
    {
      iter == end
    }

    method Next()
      requires iter < end
      modifies this
      ensures iter == old(iter) + 1
    {
      iter := iter + 1;
    }
  }

  // ---------------------------------------------------------------- each rank drives its iterator

  /** The root's loop over its iterator uses exactly the values that no client was given, in order,
      and ends with the schedule over. */
  method DriveRoot(comm: Comm, count: nat, bufferSizes: seq<nat>) returns (used: seq<nat>)
    requires comm.Valid() && comm.s.root.InBarrier? && bufferSizes == [0] + comm.s.sizes && count == comm.s.count
    modifies comm
    ensures comm.Valid() && old(comm.past) <= comm.past && SameLoop(old(comm.s), comm.s)
    ensures comm.s.root.Out? && |comm.s.owner| == count && used == Positions(comm.s.owner, 0)
    ensures DealOrder(bufferSizes, count) <= comm.s.owner
  {
    var handler := new ServerHandler(comm, count, bufferSizes);
    used := [];
    while !handler.Done()
      invariant handler.comm == comm && handler.end == count && handler.AtUser() && used == comm.s.consumed
      invariant old(comm.past) <= comm.past && SameLoop(old(comm.s), comm.s)
      decreases handler.end - handler.iter
    {
      used := used + [handler.iter];
      handler.Next();
    }
    assert RootOk(comm.s);
    FirstDealt(comm.s);
  }

  /** The values of the first round are the first ones of the range. */
  lemma FirstDealt(s: State)
    requires Inv(s) && !s.root.InBarrier? && !s.root.Dealing?
    ensures Shares(s) <= s.owner
  {
  }

  /** A client's loop over its iterator uses exactly the values it was given, in order, and ends
      after the root has handed out its whole range. */
  method DriveClient(comm: Comm, client: nat, bufferSize: nat) returns (used: seq<nat>)
    requires comm.Valid() && client < |comm.s.links| && comm.s.links[client].pc == Posting(bufferSize)
    requires comm.s.links[client].got == [] && !comm.s.links[client].genFinished
    modifies comm
    ensures comm.Valid() && old(comm.past) <= comm.past && SameLoop(old(comm.s), comm.s)
    ensures comm.s.links[client].pc.Over? && |comm.s.owner| == comm.s.count
    ensures used == Positions(comm.s.owner, client + 1)
  {
    var handler := new ClientHandler(comm, client, bufferSize);
    used := if handler.Done() then [] else [handler.value];
    while !handler.Done()
      invariant handler.comm == comm && handler.client == client && handler.AtUser() && used == handler.Got()
      invariant old(comm.past) <= comm.past && SameLoop(old(comm.s), comm.s)
      decreases Measure(comm.s)
    {
      handler.Next();
      if !handler.Done() { used := used + [handler.value]; }
    }
    assert LinkOk(comm.s.links[client], ViewOf(comm.s, client));
  }

  /** With one rank the iterator is the range itself. */
  method DriveSingle(count: nat) returns (used: seq<nat>)
    ensures used == seq(count, k => k)
  {
    var handler := new SingleRankHandler(count);
    used := [];
    while !handler.Done()
      invariant handler.end == count && handler.iter <= count && used == seq(handler.iter, k => k)
      decreases handler.end - handler.iter
    {
      used := used + [handler.iter];
      handler.Next();
    }
  }

  /** The rank is between two schedules. */
  predicate Between(s: State, me: Rank) {
    if me.Root? then s.root.Out? else me.client < |s.links| && s.links[me.client].pc.Over?
  }

  /** The iterator's constructor and the loop over it, on any rank: with one rank there is no
      communication; the root offers no credit of its own; the all_gather tells it everybody's; and
      the rank gets the handler of its role. */
  method Drive(comm: Comm, me: Rank, bufferSize: nat, count: nat) returns (used: seq<nat>)
    requires comm.Valid() && Between(comm.s, me)
    modifies comm
    ensures comm.Valid() && old(comm.past) <= comm.past && Between(comm.s, me)
    ensures comm.Size() == old(comm.Size())
    ensures comm.Size() == 1 ==> used == seq(count, k => k)
    ensures comm.Size() > 1 ==>
              && |comm.s.owner| == comm.s.count
              && used == Positions(comm.s.owner, if me.Root? then 0 else me.client + 1)
    ensures comm.Size() > 1 && me.Root? ==> comm.s.count == count
    ensures comm.Size() > 1 && me.Client? ==> |comm.s.sizes| == |comm.s.links| && comm.s.sizes[me.client] == bufferSize
  {
    if comm.Size() == 1 {
      used := DriveSingle(count);
      return;
    }
    if me.Root? {
      var all := comm.RootAllGather(0, count);
      used := DriveRoot(comm, count, all);
    } else {
      var all := comm.ClientAllGather(me.client, bufferSize);
      used := DriveClient(comm, me.client, bufferSize);
    }
  }
}
