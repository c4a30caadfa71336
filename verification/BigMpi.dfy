/** Collectives on more elements than an `int` can count are split into chunks, and the broadcasts of
    many areas are kept in a window of requests. */
module BigMpi {
  import opened Basics
  import opened Reduction

  const INT_MAX := 0x7fff_ffff

  /** The element counts of the calls that a collective on `count` elements is split into. */
  function ChunkCounts(count: nat): seq<nat> {
    if count == 0 then [] else [Min(INT_MAX, count)] + ChunkCounts(count - Min(INT_MAX, count))
  }

  function Total(counts: seq<nat>): nat {
    if counts == [] then 0 else counts[0] + Total(counts[1..])
  }

  /** Every call fits an `int` and moves something, all but the last are full, and together they
      cover the elements. */
  lemma {:induction false} ChunksCover(count: nat)
    ensures Total(ChunkCounts(count)) == count
    ensures forall k :: 0 <= k < |ChunkCounts(count)| ==> 1 <= ChunkCounts(count)[k] <= 0x7fff_ffff
    ensures forall k :: 0 <= k < |ChunkCounts(count)| - 1 ==> ChunkCounts(count)[k] == 0x7fff_ffff
  {
    if count > 0 {
      var n := Min(INT_MAX, count);
      ChunksCover(count - n);
      assert ChunkCounts(count)[1..] == ChunkCounts(count - n);
    }
  }

  /** `Bcast` on a rank that is not the root: the buffer becomes the root's, and the counts it posts
      are those that the root posts, since both derive them from `count` alone. */
  method Bcast<T>(buffer: array<T>, root: seq<T>) returns (posted: seq<nat>)
    requires buffer.Length == |root|
    modifies buffer
    ensures buffer[..] == root
    ensures posted == ChunkCounts(|root|)
  {
    var sent := 0;
    var count := buffer.Length;
    posted := [];
    while sent < count
      invariant sent <= count && forall k :: 0 <= k < sent ==> buffer[k] == root[k]
      invariant posted + ChunkCounts(count - sent) == ChunkCounts(count)
    {
      var n := Min(INT_MAX, count - sent);
      MpiBcast(buffer, sent, n, root);
      posted := posted + [n];
      sent := sent + n;
    }
  }

  /** One call: the part of the buffer from `sent` on is overwritten. */
  method MpiBcast<T>(buffer: array<T>, sent: nat, n: nat, root: seq<T>)
    requires sent + n <= buffer.Length == |root|
    modifies buffer
    ensures forall k :: 0 <= k < buffer.Length ==>
              buffer[k] == if sent <= k < sent + n then root[k] else old(buffer[k])
  {
    forall k | sent <= k < sent + n {
      buffer[k] := root[k];
    }
  }

  /** Element `k` of every client's buffer. */
  function Column<T>(clients: seq<seq<T>>, k: nat): (s: seq<T>)
    requires forall c :: 0 <= c < |clients| ==> k < |clients[c]|
    ensures |s| == |clients| && forall c :: 0 <= c < |clients| ==> s[c] == clients[c][k]
  {
    seq(|clients|, c requires 0 <= c < |clients| => clients[c][k])
  }

  /** What a reduction of the root's `buffer` with the clients' buffers leaves in element `k`. */
  function Reduced<T>(m: Monoid<T>, root: seq<T>, clients: seq<seq<T>>, k: nat): T
    requires k < |root| && forall c :: 0 <= c < |clients| ==> |clients[c]| == |root|
  {
    Fold(m, [root[k]] + Column(clients, k))
  }

  /** `Reduce` on the root, in place: the chunked calls do to every element what a single call on
      all of them would. */
  method Reduce<T>(m: Monoid<T>, buffer: array<T>, clients: seq<seq<T>>) returns (posted: seq<nat>)
    requires forall c :: 0 <= c < |clients| ==> |clients[c]| == buffer.Length
    modifies buffer
    ensures forall k :: 0 <= k < buffer.Length ==> buffer[k] == Reduced(m, old(buffer[..]), clients, k)
    ensures posted == ChunkCounts(buffer.Length)
  {
    var sent := 0;
    var count := buffer.Length;
    posted := [];
    ghost var was := buffer[..];
    while sent < count
      invariant sent <= count
      invariant forall k :: 0 <= k < sent ==> buffer[k] == Reduced(m, was, clients, k)
      invariant forall k :: sent <= k < count ==> buffer[k] == was[k]
      invariant posted + ChunkCounts(count - sent) == ChunkCounts(count)
    {
      var n := Min(INT_MAX, count - sent);
      ghost var now := buffer[..];
      MpiReduce(m, buffer, sent, n, clients);
      forall k | sent <= k < sent + n ensures buffer[k] == Reduced(m, was, clients, k) {
        ReducedSame(m, now, was, clients, k);
      }
      posted := posted + [n];
      sent := sent + n;
    }
  }

  method MpiReduce<T>(m: Monoid<T>, buffer: array<T>, sent: nat, n: nat, clients: seq<seq<T>>)
    requires sent + n <= buffer.Length && forall c :: 0 <= c < |clients| ==> |clients[c]| == buffer.Length
    modifies buffer
    ensures forall k :: 0 <= k < buffer.Length ==>
              buffer[k] ==
              if sent <= k < sent + n then Reduced(m, old(buffer[..]), clients, k) else old(buffer[k])
  {
    forall k | sent <= k < sent + n {
      buffer[k] := Fold(m, [buffer[k]] + Column(clients, k));
    }
  }

  /** Only element `k` of the root's buffer matters for element `k` of the result. */
  lemma {:induction false} ReducedSame<T>(m: Monoid<T>, a: seq<T>, b: seq<T>, clients: seq<seq<T>>, k: nat)
    requires k < |a| == |b| && a[k] == b[k] && forall c :: 0 <= c < |clients| ==> |clients[c]| == |a|
    ensures Reduced(m, a, clients, k) == Reduced(m, b, clients, k)
  {
  }

  // ---------------------------------------------------------------- the request window

  const WINDOW := 256

  /** One broadcast that `sync_areas` posts: `count` bytes of area `area` from `sent` on. */
  datatype Piece = Piece(area: nat, sent: nat, count: nat)

  function AreaPieces(area: nat, sent: nat, size: nat): seq<Piece>
    requires sent <= size
    decreases size - sent
  {
    if sent == size then []
    else
      var n := Min(INT_MAX, size - sent);
      [Piece(area, sent, n)] + AreaPieces(area, sent + n, size)
  }

  function AllPieces(sizes: seq<nat>): seq<Piece> {
    if sizes == [] then []
    else AllPieces(sizes[..|sizes| - 1]) + AreaPieces(|sizes| - 1, 0, sizes[|sizes| - 1])
  }

  predicate TileOf(p: Piece, area: nat, sent: nat, size: nat, k: nat) {
    p.area == area && p.sent == sent + k * INT_MAX && p.count == Min(INT_MAX, size - sent - k * INT_MAX)
  }

  /** Piece `k` of an area starts `k` full pieces from its begin and is full unless it is the last,
      which reaches the area's end: every byte lies in exactly one piece. */
  lemma {:induction false} AreaPiecesTile(area: nat, sent: nat, size: nat)
    requires sent <= size
    ensures var p := AreaPieces(area, sent, size);
            && (forall k :: 0 <= k < |p| ==> TileOf(p[k], area, sent, size, k))
            && size <= sent + |p| * INT_MAX
            && (p == [] <==> sent == size) && (p != [] ==> sent + (|p| - 1) * INT_MAX < size)
    decreases size - sent
  {
    if sent < size {
      var n := Min(INT_MAX, size - sent);
      AreaPiecesTile(area, sent + n, size);
      var p, rest := AreaPieces(area, sent, size), AreaPieces(area, sent + n, size);
      forall k | 0 < k < |p|
        ensures TileOf(p[k], area, sent, size, k)
      {
        assert p[k] == rest[k - 1];
      }
    }
  }

  /** How many of the pieces hold byte `x` of an area. */
  function TimesSent(pieces: seq<Piece>, area: nat, x: nat): nat {
    if pieces == [] then 0
    else
      TimesSent(pieces[..|pieces| - 1], area, x)
      + var p := pieces[|pieces| - 1];
        if p.area == area && p.sent <= x < p.sent + p.count then 1 else 0
  }

  lemma {:induction false} TimesSentAppend(a: seq<Piece>, b: seq<Piece>, area: nat, x: nat)
    ensures TimesSent(a + b, area, x) == TimesSent(a, area, x) + TimesSent(b, area, x)
  {
    if b == [] {
      assert a + b == a;
    } else {
      assert (a + b)[..|a + b| - 1] == a + b[..|b| - 1];
      TimesSentAppend(a, b[..|b| - 1], area, x);
    }
  }

  lemma {:induction false} AreaSentOnce(area: nat, sent: nat, size: nat, other: nat, x: nat)
    requires sent <= size
    ensures TimesSent(AreaPieces(area, sent, size), other, x) == if other == area && sent <= x < size then 1 else 0
    decreases size - sent
  {
    if sent < size {
      var n := Min(INT_MAX, size - sent);
      AreaSentOnce(area, sent + n, size, other, x);
      TimesSentAppend([Piece(area, sent, n)], AreaPieces(area, sent + n, size), other, x);
      assert [Piece(area, sent, n)][..0] == [];
    }
  }

  /** Every byte of every area is broadcast exactly once, and nothing else is. */
  lemma {:induction false} SentOnce(sizes: seq<nat>, area: nat, x: nat)
    ensures TimesSent(AllPieces(sizes), area, x) == if area < |sizes| && x < sizes[area] then 1 else 0
  {
    if sizes != [] {
      var n := |sizes| - 1;
      SentOnce(sizes[..n], area, x);
      AreaSentOnce(n, 0, sizes[n], area, x);
      TimesSentAppend(AllPieces(sizes[..n]), AreaPieces(n, 0, sizes[n]), area, x);
    }
  }

  /** They move the counts that the collectives on the same area would. */
  lemma {:induction false} PiecesAreChunks(area: nat, sent: nat, size: nat)
    requires sent <= size
    ensures var p := AreaPieces(area, sent, size);
            && |p| == |ChunkCounts(size - sent)|
            && forall k :: 0 <= k < |p| ==> p[k].count == ChunkCounts(size - sent)[k]
    decreases size - sent
  {
    if sent < size { PiecesAreChunks(area, sent + Min(INT_MAX, size - sent), size); }
  }

  lemma SlotReused(buffer: seq<Piece>, index: nat, request: Piece)
    requires index < |buffer|
    ensures multiset(buffer[index := request]) + multiset{buffer[index]} == multiset(buffer) + multiset{request}
  {
    assert buffer == buffer[..index] + [buffer[index]] + buffer[index + 1..];
    assert buffer[index := request] == buffer[..index] + [request] + buffer[index + 1..];
  }

  /** The window of outstanding requests. `posted` is what has been posted so far, `completed` what
      has been waited for. */
  class RequestWindow {
    var buffer: seq<Piece>
    ghost var posted: seq<Piece>
    ghost var completed: seq<Piece>

    /** Every request is outstanding or completed, once, and at most 256 are outstanding. */
    ghost predicate Valid()
      reads this
    {
      |buffer| <= WINDOW && multiset(posted) == multiset(buffer) + multiset(completed)
    }

    constructor ()
      ensures Valid() && posted == completed == buffer == []
    {
      buffer, posted, completed := [], [], [];
    }

    /** `async_wait_rquest`: with the window full some request, any one, is waited for and its slot
        reused. */
    method Post(request: Piece)
      requires Valid()
      modifies this
      ensures Valid() && posted == old(posted) + [request]
      ensures old(completed) <= completed && |buffer| <= 256
      ensures multiset(posted) == multiset(buffer) + multiset(completed)
    {
      if |buffer| == WINDOW {
        var index :| 0 <= index < |buffer|;
        SlotReused(buffer, index, request);
        completed := completed + [buffer[index]];
        buffer := buffer[index := request];
      } else {
        buffer := buffer + [request];
      }
      posted := posted + [request];
    }

    /** The broadcasts of one area. */
    method PostArea(area: nat, size: nat)
      requires Valid()
      modifies this
      ensures Valid() && posted == old(posted) + AreaPieces(area, 0, size)
    {
      var sent := 0;
      while sent < size
        invariant Valid() && sent <= size
        invariant posted + AreaPieces(area, sent, size) == old(posted) + AreaPieces(area, 0, size)
      {
        var n := Min(INT_MAX, size - sent);
        Post(Piece(area, sent, n));
        sent := sent + n;
      }
    }

    method WaitAll()
      requires Valid()
      modifies this
      ensures Valid() && buffer == [] && posted == old(posted) && multiset(completed) == multiset(posted)
    {
      completed := completed + buffer;
      buffer := [];
    }
  }

  /** `sync_areas`: the broadcasts of all areas are posted in order, none is left outstanding, and
      each completes once, whatever requests the waits pick. */
  method SyncAreas(sizes: seq<nat>) returns (window: RequestWindow)
    ensures window.Valid() && window.buffer == []
    ensures window.posted == AllPieces(sizes) && multiset(window.completed) == multiset(window.posted)
  {
    window := new RequestWindow();
    for area := 0 to |sizes|
      invariant fresh(window) && window.Valid() && window.posted == AllPieces(sizes[..area])
    {
      assert sizes[..area + 1][..area] == sizes[..area];
      window.PostArea(area, sizes[area]);
    }
    assert sizes[..|sizes|] == sizes;
    window.WaitAll();
  }
}
