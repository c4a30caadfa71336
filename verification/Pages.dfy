/** Addresses, pages and the conversions between byte areas and page ranges. */
module Pages {
  import opened Basics
  import opened Arithmetic

  type PageSize = p: nat | p > 0 && p % 8 == 0 witness 4096

  /** The page size is whatever the build detected. */
  const PAGE_SIZE: PageSize

  datatype Area = Area(begin: nat, size: nat)

  /** Areas of real objects: not empty and not at the null address. */
  type RealArea = a: Area | a.size > 0 && a.begin > 0 witness Area(1, 1)

  datatype PteRange = PteRange(begin: nat, count: nat)

  predicate InArea(a: Area, x: nat) { a.begin <= x < a.begin + a.size }

  predicate InRange(r: PteRange, p: nat) { r.begin <= p < r.begin + r.count }

  /** `mem_area_overlap`. */
  predicate Overlap(a: Area, b: Area) {
    a.begin + a.size > b.begin && a.begin < b.begin + b.size
  }

  /** Areas that are not empty overlap if and only if some byte is in both. */
  lemma OverlapExact(a: Area, b: Area)
    requires a.size > 0 && b.size > 0
    ensures Overlap(a, b) <==> exists x: nat :: InArea(a, x) && InArea(b, x)
  {
    if Overlap(a, b) {
      var x := if a.begin >= b.begin then a.begin else b.begin;
      assert InArea(a, x) && InArea(b, x);
    }
  }

  function PageOf(x: nat): nat {
    QuotientNonNegative(x, PAGE_SIZE);
    x / PAGE_SIZE
  }

  function Start(p: nat): nat { p * PAGE_SIZE }

  function MemArea2PgRange(a: Area): PteRange
    requires a.size > 0
  {
    PageMonotone(a.begin, a.begin + a.size - 1);
    var begin := PageOf(a.begin);
    var end := PageOf(a.begin + a.size - 1) + 1;
    PteRange(begin, end - begin)
  }

  /** The pages that lie wholly inside an area. An area never starts at the null address. */
  function MemArea2InnerPgRange(a: Area): Option<PteRange>
    requires a.size > 0 && a.begin > 0
  {
    var begin := PageOf(a.begin - 1) + 1;
    var end := PageOf(a.begin + a.size);
    if begin >= end then None else Some(PteRange(begin, end - begin))
  }

  function PgRange2MemArea(r: PteRange): Area {
    Area(Start(r.begin), r.count * PAGE_SIZE)
  }

  // ---------------------------------------------------------------- rounding

  lemma PageBounds(x: nat)
    ensures Start(PageOf(x)) <= x < Start(PageOf(x) + 1)
  {
    assert x == PageOf(x) * PAGE_SIZE + x % PAGE_SIZE;
    assert (PageOf(x) + 1) * PAGE_SIZE == PageOf(x) * PAGE_SIZE + PAGE_SIZE;
  }

  lemma StartMonotone(p: nat, q: nat)
    ensures p < q ==> Start(p) + PAGE_SIZE <= Start(q)
    ensures p <= q ==> Start(p) <= Start(q)
  {
    if p <= q { Multiples(p, q, PAGE_SIZE); }
  }

  /** Division and multiplication by the page size are adjoint. */
  lemma PageAtLeast(x: nat, q: nat)
    ensures PageOf(x) >= q <==> x >= Start(q)
  {
    PageBounds(x);
    StartMonotone(q, PageOf(x));
    StartMonotone(PageOf(x) + 1, q);
  }

  lemma PageMonotone(x: nat, y: nat)
    requires x <= y
    ensures PageOf(x) <= PageOf(y)
  {
    PageBounds(x);
    PageAtLeast(y, PageOf(x));
  }

  lemma StartSum(p: nat, n: nat)
    ensures Start(p + n) == Start(p) + n * PAGE_SIZE
  {
  }

  /** The bytes of a page range are those of its pages. */
  lemma RangeBytes(r: PteRange, x: nat)
    ensures InArea(PgRange2MemArea(r), x) <==> InRange(r, PageOf(x))
  {
    StartSum(r.begin, r.count);
    PageAtLeast(x, r.begin);
    PageAtLeast(x, r.begin + r.count);
  }

  // ---------------------------------------------------------------- the adjunctions

  /** A page is in the outer range exactly if some byte of the area is on it. */
  lemma OuterExact(a: Area, p: nat)
    requires a.size > 0
    ensures InRange(MemArea2PgRange(a), p) <==> a.begin < Start(p + 1) && Start(p) < a.begin + a.size
    ensures InRange(MemArea2PgRange(a), p) <==> exists x: nat :: InArea(a, x) && PageOf(x) == p
  {
    var last := a.begin + a.size - 1;
    PageAtLeast(a.begin, p + 1);
    PageAtLeast(last, p);
    if InRange(MemArea2PgRange(a), p) {
      var x := if a.begin >= Start(p) then a.begin else Start(p);
      PageAtLeast(x, p);
      PageAtLeast(x, p + 1);
      StartMonotone(p, p + 1);
      assert InArea(a, x) && PageOf(x) == p;
    }
    forall x: nat | InArea(a, x) && PageOf(x) == p ensures InRange(MemArea2PgRange(a), p) {
      PageMonotone(a.begin, x);
      PageMonotone(x, last);
    }
  }

  /** A page is in the inner range exactly if all its bytes are in the area. */
  lemma InnerExact(a: Area, p: nat)
    requires a.size > 0 && a.begin > 0
    ensures var inner := MemArea2InnerPgRange(a);
            && (inner.Some? && InRange(inner.value, p) <==> a.begin <= Start(p) && Start(p + 1) <= a.begin + a.size)
            && (inner.Some? && InRange(inner.value, p) <==> forall x: nat :: PageOf(x) == p ==> InArea(a, x))
  {
    PageAtLeast(a.begin - 1, p);
    PageAtLeast(a.begin + a.size, p + 1);
    StartMonotone(p, p + 1);
    forall x: nat | PageOf(x) == p ensures Start(p) <= x < Start(p + 1) { PageBounds(x); }
    PageAtLeast(Start(p), p);
    PageAtLeast(Start(p), p + 1);
    PageAtLeast(Start(p + 1) - 1, p);
    PageAtLeast(Start(p + 1) - 1, p + 1);
  }

  /** A page range lies in the inner range exactly if its bytes lie in the area. */
  lemma InnerAdjoint(a: Area, r: PteRange)
    requires a.size > 0 && a.begin > 0
    ensures var inner := MemArea2InnerPgRange(a);
            (forall p: nat :: InRange(r, p) ==> inner.Some? && InRange(inner.value, p)) <==>
            (forall x: nat :: InArea(PgRange2MemArea(r), x) ==> InArea(a, x))
  {
    var inner := MemArea2InnerPgRange(a);
    if forall p: nat :: InRange(r, p) ==> inner.Some? && InRange(inner.value, p) {
      forall x: nat | InArea(PgRange2MemArea(r), x) ensures InArea(a, x) {
        RangeBytes(r, x);
        InnerExact(a, PageOf(x));
      }
    }
    if forall x: nat :: InArea(PgRange2MemArea(r), x) ==> InArea(a, x) {
      forall p: nat | InRange(r, p) ensures inner.Some? && InRange(inner.value, p) {
        InnerExact(a, p);
        forall x: nat | PageOf(x) == p ensures InArea(a, x) { RangeBytes(r, x); }
      }
    }
  }

  /** A page range contains the outer range exactly if its bytes contain the area. */
  lemma OuterAdjoint(a: Area, r: PteRange)
    requires a.size > 0
    ensures (forall p: nat :: InRange(MemArea2PgRange(a), p) ==> InRange(r, p)) <==>
            (forall x: nat :: InArea(a, x) ==> InArea(PgRange2MemArea(r), x))
  {
    if forall p: nat :: InRange(MemArea2PgRange(a), p) ==> InRange(r, p) {
      forall x: nat | InArea(a, x) ensures InArea(PgRange2MemArea(r), x) {
        OuterExact(a, PageOf(x));
        RangeBytes(r, x);
      }
    }
    if forall x: nat :: InArea(a, x) ==> InArea(PgRange2MemArea(r), x) {
      forall p: nat | InRange(MemArea2PgRange(a), p) ensures InRange(r, p) {
        OuterExact(a, p);
        var x: nat :| InArea(a, x) && PageOf(x) == p;
        RangeBytes(r, x);
      }
    }
  }

  /** Going from pages to bytes and back changes nothing, outward or inward. */
  lemma PagesRoundTrip(r: PteRange)
    requires r.count > 0
    ensures PgRange2MemArea(r).size > 0 && MemArea2PgRange(PgRange2MemArea(r)) == r
    ensures r.begin > 0 ==> PgRange2MemArea(r).begin > 0 && MemArea2InnerPgRange(PgRange2MemArea(r)) == Some(r)
  {
    var a := PgRange2MemArea(r);
    StartSum(r.begin, r.count);
    StartMonotone(r.begin, r.begin + r.count);
    PageAtLeast(a.begin, r.begin);
    PageAtLeast(a.begin, r.begin + 1);
    StartMonotone(r.begin, r.begin + 1);
    PageAtLeast(a.begin + a.size - 1, r.begin + r.count);
    PageAtLeast(a.begin + a.size - 1, r.begin + r.count - 1);
    StartMonotone(r.begin + r.count - 1, r.begin + r.count);
    if r.begin > 0 {
      StartMonotone(0, r.begin);
      StartMonotone(r.begin - 1, r.begin);
      PageAtLeast(a.begin - 1, r.begin);
      PageAtLeast(a.begin - 1, r.begin - 1);
      PageAtLeast(a.begin + a.size, r.begin + r.count);
      PageAtLeast(a.begin + a.size, r.begin + r.count + 1);
      StartMonotone(r.begin + r.count, r.begin + r.count + 1);
    }
  }
}
