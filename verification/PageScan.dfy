/** Which pages the leader sends: the touched dirty pages of live blocks, except those that lie wholly
    in a reduce area, sorted into zero pages and others. */
module PageScan {
  import opened Basics
  import opened Arithmetic
  import opened Pages
  import opened PageTable

  type Memory = nat -> bv8

  const WORDS: nat := PAGE_SIZE / 8

  // ---------------------------------------------------------------- all-zero pages

  function Widen(b: bv8): bv64 { b as bv64 }

  /** The little-endian 64-bit word at an address. */
  function WordAt(mem: Memory, a: nat): bv64 {
    Widen(mem(a)) | (Widen(mem(a + 1)) << 8) | (Widen(mem(a + 2)) << 16) | (Widen(mem(a + 3)) << 24)
    | (Widen(mem(a + 4)) << 32) | (Widen(mem(a + 5)) << 40) | (Widen(mem(a + 6)) << 48) | (Widen(mem(a + 7)) << 56)
  }

  lemma BytesOfWord(b0: bv8, b1: bv8, b2: bv8, b3: bv8, b4: bv8, b5: bv8, b6: bv8, b7: bv8)
    ensures Widen(b0) | (Widen(b1) << 8) | (Widen(b2) << 16) | (Widen(b3) << 24)
            | (Widen(b4) << 32) | (Widen(b5) << 40) | (Widen(b6) << 48) | (Widen(b7) << 56) == 0 <==>
            b0 == 0 && b1 == 0 && b2 == 0 && b3 == 0 && b4 == 0 && b5 == 0 && b6 == 0 && b7 == 0
  {
  }

  lemma {:induction false} WordZero(mem: Memory, a: nat)
    ensures WordAt(mem, a) == 0 <==> forall x :: a <= x < a + 8 ==> mem(x) == 0
  {
    BytesOfWord(mem(a), mem(a + 1), mem(a + 2), mem(a + 3), mem(a + 4), mem(a + 5), mem(a + 6), mem(a + 7));
  }

  /** A page as its words. */
  function WordsOf(mem: Memory, p: nat): (words: seq<bv64>)
    ensures |words| == WORDS
  {
    seq(WORDS, k requires 0 <= k < WORDS => WordAt(mem, Start(p) + 8 * k))
  }

  ghost predicate PageZero(mem: Memory, p: nat) {
    forall x: nat :: PageOf(x) == p ==> mem(x) == 0
  }

  /** The first `n` words are zero. */
  predicate WordsZero(words: seq<bv64>, n: nat)
    requires n <= |words|
  {
    forall k :: 0 <= k < n ==> words[k] == 0
  }

  lemma OnPage(p: nat, x: nat)
    ensures PageOf(x) == p <==> Start(p) <= x < Start(p) + PAGE_SIZE
  {
    PageAtLeast(x, p);
    PageAtLeast(x, p + 1);
    StartSum(p, 1);
  }

  lemma {:induction false} ZeroPageWord(mem: Memory, p: nat, k: nat)
    requires PageZero(mem, p) && k < WORDS
    ensures WordAt(mem, Start(p) + 8 * k) == 0
  {
    var a := Start(p) + 8 * k;
    forall x | a <= x < a + 8 ensures mem(x) == 0 { OnPage(p, x); }
    WordZero(mem, a);
  }

  lemma {:induction false} ZeroWordsByte(mem: Memory, p: nat, x: nat)
    requires WordsZero(WordsOf(mem, p), WORDS) && PageOf(x) == p
    ensures mem(x) == 0
  {
    OnPage(p, x);
    var k := (x - Start(p)) / 8;
    assert WordsOf(mem, p)[k] == 0;
    WordZero(mem, Start(p) + 8 * k);
  }

  lemma {:induction false} PageWords(mem: Memory, p: nat)
    ensures PageZero(mem, p) <==> WordsZero(WordsOf(mem, p), WORDS)
  {
    if PageZero(mem, p) {
      forall k: nat | k < WORDS ensures WordsOf(mem, p)[k] == 0 { ZeroPageWord(mem, p, k); }
    }
    if WordsZero(WordsOf(mem, p), WORDS) {
      forall x: nat | PageOf(x) == p ensures mem(x) == 0 { ZeroWordsByte(mem, p, x); }
    }
  }

  /** A vector register, or-ed lane by lane with the words from word `i` on. */
  function OrLanes(res: seq<bv64>, words: seq<bv64>, i: nat): (r: seq<bv64>)
    requires i + |res| <= |words|
    ensures |r| == |res|
  {
    seq(|res|, l requires 0 <= l < |res| => res[l] | words[i + l])
  }

  predicate LanesZero(res: seq<bv64>) {
    forall l :: 0 <= l < |res| ==> res[l] == 0
  }

  lemma OrIsZero(a: bv64, b: bv64)
    ensures a | b == 0 <==> a == 0 && b == 0
  {
  }

  lemma OrLanesZero(res: seq<bv64>, words: seq<bv64>, i: nat)
    requires i + |res| <= |words| && (LanesZero(res) <==> WordsZero(words, i))
    ensures LanesZero(OrLanes(res, words, i)) <==> WordsZero(words, i + |res|)
  {
    var next := OrLanes(res, words, i);
    forall l | 0 <= l < |res| ensures next[l] == 0 <==> res[l] == 0 && words[i + l] == 0 {
      OrIsZero(res[l], words[i + l]);
    }
    if LanesZero(next) {
      forall k: nat | i <= k < i + |res| ensures words[k] == 0 { assert next[k - i] == 0; }
    }
  }

  /** The fast test and the vector loop of `is_zeroed_pg_simd`, for every number of lanes that
      divides a page. */
  method IsZeroedWords(words: seq<bv64>, lanes: nat) returns (zero: bool)
    requires |words| > 0 && lanes > 0 && |words| % lanes == 0
    ensures zero <==> WordsZero(words, |words|)
  {
    if words[0] != 0 || words[|words| / 2] != 0 {
      return false;
    }
    var res := seq(lanes, _ => 0 as bv64);
    var i: nat := 0;
    ghost var rounds, all := 0, |words| / lanes;
    assert |words| == all * lanes;
    while i < |words|
      invariant 0 <= rounds <= all && i == rounds * lanes && i <= |words| && |res| == lanes
      invariant LanesZero(res) <==> WordsZero(words, i)
    {
      MulLess(rounds, all, lanes);
      OrLanesZero(res, words, i);
      res := OrLanes(res, words, i);
      i, rounds := i + lanes, rounds + 1;
    }
    zero := LanesZero(res);
  }

  lemma MulLess(a: nat, b: int, d: nat)
    requires a * d < b * d
    ensures a < b && (a + 1) * d == a * d + d <= b * d
  {
    if a >= b {
      Multiples(b, a, d);
      assert false;
    }
    Multiples(a, b, d);
  }

  method IsZeroedPage(mem: Memory, p: nat, lanes: nat) returns (zero: bool)
    requires lanes > 0 && WORDS % lanes == 0
    ensures zero <==> PageZero(mem, p)
  {
    PageWords(mem, p);
    zero := IsZeroedWords(WordsOf(mem, p), lanes);
  }

  // ---------------------------------------------------------------- live pages, as maximal runs

  /** `visit_block` is also called without a block, once for every heap area. */
  predicate LivePage(visits: seq<Option<RealArea>>, p: nat) {
    exists k :: 0 <= k < |visits| && visits[k].Some? && InRange(MemArea2PgRange(visits[k].value), p)
  }

  method MallocPages(visits: seq<Option<RealArea>>) returns (pages: set<nat>, bound: nat)
    ensures forall p :: p in pages <==> LivePage(visits, p)
    ensures forall p :: p in pages ==> p < bound
  {
    pages, bound := {}, 0;
    for n := 0 to |visits|
      invariant forall p :: p in pages <==> LivePage(visits[..n], p)
      invariant forall p :: p in pages ==> p < bound
    {
      assert forall p :: LivePage(visits[..n], p) ==> LivePage(visits[..n + 1], p) by {
        assert forall k :: 0 <= k < n ==> visits[..n][k] == visits[..n + 1][k];
      }
      assert visits[..n + 1][n] == visits[n];
      assert forall k :: 0 <= k < n ==> visits[..n][k] == visits[..n + 1][k];
      if visits[n].Some? {
        var r := MemArea2PgRange(visits[n].value);
        pages := pages + set p: nat | r.begin <= p < r.begin + r.count && InRange(r, p);
        if bound < r.begin + r.count { bound := r.begin + r.count; }
      }
    }
    assert visits[..|visits|] == visits;
  }

  /** The first page from `p` on, up to `hi`, that is not in the set. */
  function RunEnd(pages: set<nat>, p: nat, hi: nat): (q: nat)
    requires p <= hi
    ensures p <= q <= hi && (q < hi ==> q !in pages) && (forall x :: p <= x < q ==> x in pages)
    decreases hi - p
  {
    if p == hi || p !in pages then p else RunEnd(pages, p + 1, hi)
  }

  /** The maximal runs of the set in [lo, hi), ascending: the intervals of an interval set. */
  function Runs(pages: set<nat>, lo: nat, hi: nat): seq<PteRange>
    requires lo <= hi
    decreases hi - lo
  {
    if lo == hi then []
    else if lo !in pages then Runs(pages, lo + 1, hi)
    else
      var q := RunEnd(pages, lo, hi);
      [PteRange(lo, q - lo)] + Runs(pages, q, hi)
  }

  predicate InRuns(runs: seq<PteRange>, p: nat) {
    exists k :: 0 <= k < |runs| && InRange(runs[k], p)
  }

  /** The runs hold exactly the pages of the set. */
  lemma {:induction false} RunsExact(pages: set<nat>, lo: nat, hi: nat, p: nat)
    requires lo <= hi
    ensures InRuns(Runs(pages, lo, hi), p) <==> lo <= p < hi && p in pages
    decreases hi - lo
  {
    var runs := Runs(pages, lo, hi);
    if lo < hi && lo in pages {
      var q := RunEnd(pages, lo, hi);
      var rest := Runs(pages, q, hi);
      RunsExact(pages, q, hi, p);
      assert runs[0] == PteRange(lo, q - lo) && forall k :: 0 <= k < |rest| ==> runs[k + 1] == rest[k];
      if InRuns(rest, p) {
        var k :| 0 <= k < |rest| && InRange(rest[k], p);
        assert InRange(runs[k + 1], p);
      }
      if InRuns(runs, p) {
        var k :| 0 <= k < |runs| && InRange(runs[k], p);
        assert k > 0 ==> InRange(rest[k - 1], p);
      }
      if lo <= p < q { assert InRange(runs[0], p); }
    } else if lo < hi {
      RunsExact(pages, lo + 1, hi, p);
    }
  }

  /** The runs ascend, none is empty, and between two of them a page is missing: so they are maximal. */
  lemma {:induction false} RunsMaximal(pages: set<nat>, lo: nat, hi: nat, k: nat)
    requires lo <= hi && k < |Runs(pages, lo, hi)|
    ensures var runs := Runs(pages, lo, hi);
            && 0 < runs[k].count && lo <= runs[k].begin && runs[k].begin + runs[k].count <= hi
            && (k + 1 < |runs| ==> runs[k].begin + runs[k].count < runs[k + 1].begin)
            && (runs[k].begin + runs[k].count < hi ==> runs[k].begin + runs[k].count !in pages)
    decreases hi - lo
  {
    var runs := Runs(pages, lo, hi);
    if lo !in pages {
      RunsMaximal(pages, lo + 1, hi, k);
    } else {
      var q := RunEnd(pages, lo, hi);
      var rest := Runs(pages, q, hi);
      assert runs == [PteRange(lo, q - lo)] + rest;
      assert q > lo;
      if k > 0 {
        assert runs[k] == rest[k - 1] && (k < |rest| ==> runs[k + 1] == rest[k]);
        RunsMaximal(pages, q, hi, k - 1);
      } else if |rest| > 0 {
        RunsBegin(pages, q, hi);
        RunsMaximal(pages, q, hi, 0);
      }
    }
  }

  /** The first run begins on a page of the set. */
  lemma {:induction false} RunsBegin(pages: set<nat>, lo: nat, hi: nat)
    requires lo <= hi && Runs(pages, lo, hi) != []
    ensures Runs(pages, lo, hi)[0].begin in pages
    decreases hi - lo
  {
    if lo !in pages { RunsBegin(pages, lo + 1, hi); }
  }

  // ---------------------------------------------------------------- the scan

  predicate OverlapPages(a: PteRange, b: PteRange) {
    a.begin + a.count > b.begin && a.begin < b.begin + b.count
  }

  predicate InInner(a: RealArea, p: nat) {
    MemArea2InnerPgRange(a).Some? && InRange(MemArea2InnerPgRange(a).value, p)
  }

  /** The page lies wholly in a reduce area. */
  predicate Skipped(reduces: seq<RealArea>, p: nat) {
    exists k :: 0 <= k < |reduces| && InInner(reduces[k], p)
  }

  /** The pages that are sent. */
  predicate Sent(visits: seq<Option<RealArea>>, pte: nat -> bv64, reduces: seq<RealArea>, p: nat) {
    LivePage(visits, p) && IsDirty(pte(p)) && IsTouched(pte(p)) && !Skipped(reduces, p)
  }

  /** The reduce ranges that overlap a run. Only they can hold a page of it. */
  method Prefilter(reduces: seq<RealArea>, run: PteRange) returns (overlap: seq<PteRange>)
    ensures forall p :: InRange(run, p) ==> (InRuns(overlap, p) <==> Skipped(reduces, p))
  {
    overlap := [];
    for n := 0 to |reduces|
      invariant forall p :: InRange(run, p) ==> (InRuns(overlap, p) <==> Skipped(reduces[..n], p))
    {
      var inner := MemArea2InnerPgRange(reduces[n]);
      ghost var was := overlap;
      if inner.Some? && OverlapPages(inner.value, run) {
        overlap := overlap + [inner.value];
      }
      forall p | InRange(run, p) ensures InRuns(overlap, p) <==> Skipped(reduces[..n + 1], p) {
        SkippedSnoc(reduces, n, p);
        if inner.Some? && OverlapPages(inner.value, run) { InRunsSnoc(was, inner.value, p); }
      }
    }
    assert reduces[..|reduces|] == reduces;
  }

  lemma SkippedSnoc(reduces: seq<RealArea>, n: nat, p: nat)
    requires n < |reduces|
    ensures Skipped(reduces[..n + 1], p) <==> Skipped(reduces[..n], p) || InInner(reduces[n], p)
  {
    var a, b := reduces[..n], reduces[..n + 1];
    assert b[n] == reduces[n] && forall k :: 0 <= k < n ==> a[k] == b[k];
    if Skipped(a, p) {
      var k :| 0 <= k < |a| && InInner(a[k], p);
      assert InInner(b[k], p);
    }
  }

  lemma InRunsSnoc(runs: seq<PteRange>, r: PteRange, p: nat)
    ensures InRuns(runs + [r], p) <==> InRuns(runs, p) || InRange(r, p)
  {
    var more := runs + [r];
    assert more[|runs|] == r && forall k :: 0 <= k < |runs| ==> more[k] == runs[k];
    if InRuns(runs, p) {
      var k :| 0 <= k < |runs| && InRange(runs[k], p);
      assert InRange(more[k], p);
    }
  }

  /** One run of live pages. */
  method ScanRun(run: PteRange, pte: nat -> bv64, mem: Memory, reduces: seq<RealArea>, lanes: nat,
                 dirty0: set<nat>, zero0: set<nat>)
    returns (dirty: set<nat>, zero: set<nat>)
    requires lanes > 0 && WORDS % lanes == 0
    ensures forall p :: p in dirty <==> p in dirty0 || (InRange(run, p) && Wanted(pte, reduces, p) && !PageZero(mem, p))
    ensures forall p :: p in zero <==> p in zero0 || (InRange(run, p) && Wanted(pte, reduces, p) && PageZero(mem, p))
  {
    var overlap := Prefilter(reduces, run);
    dirty, zero := dirty0, zero0;
    for i := 0 to run.count
      invariant forall p :: p in dirty <==>
                  p in dirty0 || (run.begin <= p < run.begin + i && Wanted(pte, reduces, p) && !PageZero(mem, p))
      invariant forall p :: p in zero <==>
                  p in zero0 || (run.begin <= p < run.begin + i && Wanted(pte, reduces, p) && PageZero(mem, p))
    {
      var page := run.begin + i;
      if !IsDirty(pte(page)) { continue; }
      if !IsTouched(pte(page)) { continue; }
      if InRuns(overlap, page) { continue; }
      var isZero := IsZeroedPage(mem, page, lanes);
      if isZero {
        zero := zero + {page};
        continue;
      }
      dirty := dirty + {page};
    }
  }

  predicate Wanted(pte: nat -> bv64, reduces: seq<RealArea>, p: nat) {
    IsDirty(pte(p)) && IsTouched(pte(p)) && !Skipped(reduces, p)
  }

  /** `get_zero_and_dirty_pages`: the zero pages are exactly the sent pages without a byte set, the
      dirty pages are exactly the other sent pages. */
  method GetZeroAndDirtyPages(visits: seq<Option<RealArea>>, pte: nat -> bv64, mem: Memory,
                              reduces: seq<RealArea>, lanes: nat)
    returns (dirty: set<nat>, zero: set<nat>, bound: nat)
    requires lanes > 0 && WORDS % lanes == 0
    ensures forall p :: p in dirty + zero ==> p < bound
    ensures forall p :: p in dirty <==> Sent(visits, pte, reduces, p) && !PageZero(mem, p)
    ensures forall p :: p in zero <==> Sent(visits, pte, reduces, p) && PageZero(mem, p)
  {
    var pages;
    pages, bound := MallocPages(visits);
    var runs := Runs(pages, 0, bound);
    dirty, zero := {}, {};
    for n := 0 to |runs|
      invariant forall p :: p in dirty <==> InRuns(runs[..n], p) && Wanted(pte, reduces, p) && !PageZero(mem, p)
      invariant forall p :: p in zero <==> InRuns(runs[..n], p) && Wanted(pte, reduces, p) && PageZero(mem, p)
    {
      assert runs[..n + 1] == runs[..n] + [runs[n]];
      dirty, zero := ScanRun(runs[n], pte, mem, reduces, lanes, dirty, zero);
      forall p ensures InRuns(runs[..n + 1], p) <==> InRuns(runs[..n], p) || InRange(runs[n], p) {
        InRunsSnoc(runs[..n], runs[n], p);
      }
    }
    assert runs[..|runs|] == runs;
    forall p ensures InRuns(runs, p) <==> LivePage(visits, p) {
      RunsExact(pages, 0, bound, p);
    }
  }
}
