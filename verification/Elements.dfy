/** Arrays of numbers in memory: reading, writing and updating the elements of an area. */
module Elements {
  import opened ByteNumbers
  import opened Arithmetic
  import opened Pages
  import opened PageScan

  function BytesAt(mem: Memory, a: Area): (s: seq<bv8>)
    ensures |s| == a.size
  {
    seq(a.size, k requires 0 <= k < a.size => mem(a.begin + k))
  }

  // ---------------------------------------------------------------- numbers as bytes

  function Pow256(n: nat): (p: nat)
    ensures p > 0
  {
    if n == 0 then 1 else 256 * Pow256(n - 1)
  }

  /** A little-endian number. */
  function Number(bytes: seq<bv8>): nat {
    if bytes == [] then 0 else bytes[0] as nat + 256 * Number(bytes[1..])
  }

  /** The lowest `size` bytes of a number. */
  function Digits(v: nat, size: nat): (s: seq<bv8>)
    ensures |s| == size
  {
    if size == 0 then [] else [(v % 256) as bv8] + Digits(v / 256, size - 1)
  }

  lemma {:induction false} NumberOfDigits(v: nat, size: nat)
    requires v < Pow256(size)
    ensures Number(Digits(v, size)) == v
  {
    if size > 0 {
      NumberOfDigits(v / 256, size - 1);
      ByteIs(v % 256);
      assert Digits(v, size)[1..] == Digits(v / 256, size - 1);
    }
  }

  lemma {:induction false} NumberBound(bytes: seq<bv8>)
    ensures Number(bytes) < Pow256(|bytes|)
  {
    if bytes != [] { NumberBound(bytes[1..]); }
  }

  lemma {:induction false} ZeroBytes(bytes: seq<bv8>)
    requires forall k :: 0 <= k < |bytes| ==> bytes[k] == 0
    ensures Number(bytes) == 0
  {
    if bytes != [] { ZeroBytes(bytes[1..]); }
  }

  // ---------------------------------------------------------------- one element

  function Read(mem: Memory, at: nat, size: nat): nat { Number(BytesAt(mem, Area(at, size))) }

  function Store(mem: Memory, at: nat, size: nat, v: nat): Memory {
    var bytes := Digits(v, size);
    (x: nat) => if at <= x < at + size then bytes[x - at] else mem(x)
  }

  lemma {:induction false} ReadStore(mem: Memory, at: nat, size: nat, v: nat)
    requires v < Pow256(size)
    ensures Read(Store(mem, at, size, v), at, size) == v
  {
    assert BytesAt(Store(mem, at, size, v), Area(at, size)) == Digits(v, size);
    NumberOfDigits(v, size);
  }

  /** What is read depends only on the bytes that are there. */
  lemma {:induction false} ReadSame(mem: Memory, mem': Memory, at: nat, size: nat)
    requires forall x :: at <= x < at + size ==> mem(x) == mem'(x)
    ensures Read(mem, at, size) == Read(mem', at, size)
  {
    assert BytesAt(mem, Area(at, size)) == BytesAt(mem', Area(at, size));
  }

  // ---------------------------------------------------------------- an area of elements

  /** `count` elements of `size` bytes. */
  datatype Elems = Elems(begin: nat, size: nat, count: nat)

  function Bytes(a: Elems): Area { Area(a.begin, a.count * a.size) }

  function At(a: Elems, e: nat): nat { a.begin + e * a.size }

  function Elem(mem: Memory, a: Elems, e: nat): nat { Read(mem, At(a, e), a.size) }

  /** Elements lie inside their area, and one after the other. */
  lemma Placed(a: Elems, d: nat, e: nat)
    requires d <= e
    ensures d < e ==> At(a, d) + a.size <= At(a, e)
    ensures e < a.count ==> a.begin <= At(a, e) && At(a, e) + a.size <= a.begin + a.count * a.size
  {
    Multiples(d, e, a.size);
    if e < a.count {
      Multiples(e, a.count, a.size);
      Multiples(0, e, a.size);
    }
  }

  /** The bytes of an area are exactly those of its elements. */
  lemma BytesExact(a: Elems, x: nat)
    requires a.size > 0
    ensures InArea(Bytes(a), x) <==> exists e: nat :: e < a.count && At(a, e) <= x < At(a, e) + a.size
  {
    if InArea(Bytes(a), x) {
      var e := (x - a.begin) / a.size;
      QuotientNonNegative(x - a.begin, a.size);
      assert x - a.begin == e * a.size + (x - a.begin) % a.size;
      if e >= a.count {
        Multiples(a.count, e, a.size);
        assert false;
      }
      assert At(a, e) <= x < At(a, e) + a.size;
    }
    if e: nat :| e < a.count && At(a, e) <= x < At(a, e) + a.size { Placed(a, e, e); }
  }

  /** The first `n` elements are replaced by `g` of their position and old value. */
  function Update(mem: Memory, a: Elems, n: nat, g: (nat, nat) -> nat): Memory {
    if n == 0 then mem
    else Store(Update(mem, a, n - 1, g), At(a, n - 1), a.size, g(n - 1, Elem(mem, a, n - 1)))
  }

  lemma {:induction false} StoreApart(mem: Memory, at: nat, size: nat, v: nat, at': nat, size': nat)
    requires at + size <= at' || at' + size' <= at
    ensures Read(Store(mem, at, size, v), at', size') == Read(mem, at', size')
  {
    ReadSame(Store(mem, at, size, v), mem, at', size');
  }

  lemma {:induction false} StoreOther(mem: Memory, a: Elems, d: nat, v: nat, e: nat)
    requires d != e
    ensures Elem(Store(mem, At(a, d), a.size, v), a, e) == Elem(mem, a, e)
  {
    Placed(a, d, if d < e then e else d);
    Placed(a, e, if d < e then e else d);
    StoreApart(mem, At(a, d), a.size, v, At(a, e), a.size);
  }

  lemma {:induction false} UpdateElem(mem: Memory, a: Elems, n: nat, g: (nat, nat) -> nat, e: nat)
    requires e < n ==> g(e, Elem(mem, a, e)) < Pow256(a.size)
    ensures Elem(Update(mem, a, n, g), a, e) == if e < n then g(e, Elem(mem, a, e)) else Elem(mem, a, e)
  {
    if n > 0 {
      UpdateElem(mem, a, n - 1, g, e);
      var v := g(n - 1, Elem(mem, a, n - 1));
      if e == n - 1 {
        ReadStore(Update(mem, a, n - 1, g), At(a, e), a.size, v);
      } else {
        StoreOther(Update(mem, a, n - 1, g), a, n - 1, v, e);
      }
    }
  }

  lemma {:induction false} UpdateOutside(mem: Memory, a: Elems, n: nat, g: (nat, nat) -> nat, x: nat)
    requires n <= a.count && !InArea(Bytes(a), x)
    ensures Update(mem, a, n, g)(x) == mem(x)
  {
    if n > 0 {
      UpdateOutside(mem, a, n - 1, g, x);
      Placed(a, n - 1, n - 1);
    }
  }

  /** Only the values that `g` takes on the old elements matter. */
  lemma {:induction false} UpdateSame(mem: Memory, a: Elems, n: nat, g: (nat, nat) -> nat, h: (nat, nat) -> nat)
    requires forall e :: 0 <= e < n ==> g(e, Elem(mem, a, e)) == h(e, Elem(mem, a, e))
    ensures Update(mem, a, n, g) == Update(mem, a, n, h)
  {
    if n > 0 { UpdateSame(mem, a, n - 1, g, h); }
  }

  // ---------------------------------------------------------------- several areas

  ghost predicate Apart(areas: seq<Elems>) {
    forall j, k :: 0 <= j < k < |areas| ==> !Overlap(Bytes(areas[j]), Bytes(areas[k]))
  }

  /** `g` on the elements of area `k`. */
  function OfArea(g: (nat, nat, nat) -> nat, k: nat): (nat, nat) -> nat { (e: nat, v: nat) => g(k, e, v) }

  /** The elements of the first `n` areas are replaced, area by area. */
  function UpdateAll(mem: Memory, areas: seq<Elems>, n: nat, g: (nat, nat, nat) -> nat): Memory
    requires n <= |areas|
  {
    if n == 0 then mem
    else Update(UpdateAll(mem, areas, n - 1, g), areas[n - 1], areas[n - 1].count, OfArea(g, n - 1))
  }

  lemma {:induction false} ElemApart(mem: Memory, a: Elems, g: (nat, nat) -> nat, b: Elems, e: nat)
    requires e < b.count && (!Overlap(Bytes(a), Bytes(b)) || !Overlap(Bytes(b), Bytes(a)))
    ensures Elem(Update(mem, a, a.count, g), b, e) == Elem(mem, b, e)
  {
    var after := Update(mem, a, a.count, g);
    Placed(b, e, e);
    forall x | At(b, e) <= x < At(b, e) + b.size ensures after(x) == mem(x) {
      UpdateOutside(mem, a, a.count, g, x);
    }
    ReadSame(after, mem, At(b, e), b.size);
  }

  /** Updating disjoint areas one after the other replaces every element of each exactly once, from
      the value that it had at first. */
  lemma {:induction false} UpdateAllElem(mem: Memory, areas: seq<Elems>, n: nat, g: (nat, nat, nat) -> nat,
                                         k: nat, e: nat)
    requires Apart(areas) && n <= |areas| && k < |areas| && e < areas[k].count
    requires k < n ==> g(k, e, Elem(mem, areas[k], e)) < Pow256(areas[k].size)
    ensures Elem(UpdateAll(mem, areas, n, g), areas[k], e) ==
            if k < n then g(k, e, Elem(mem, areas[k], e)) else Elem(mem, areas[k], e)
  {
    if n > 0 {
      UpdateAllElem(mem, areas, n - 1, g, k, e);
      var before := UpdateAll(mem, areas, n - 1, g);
      if k == n - 1 {
        UpdateElem(before, areas[k], areas[k].count, OfArea(g, k), e);
      } else {
        assert !Overlap(Bytes(areas[if k < n - 1 then k else n - 1]), Bytes(areas[if k < n - 1 then n - 1 else k]));
        ElemApart(before, areas[n - 1], OfArea(g, n - 1), areas[k], e);
      }
    }
  }

  /** No byte outside the areas changes. */
  lemma {:induction false} UpdateAllOutside(mem: Memory, areas: seq<Elems>, n: nat, g: (nat, nat, nat) -> nat, x: nat)
    requires n <= |areas| && forall k :: 0 <= k < n ==> !InArea(Bytes(areas[k]), x)
    ensures UpdateAll(mem, areas, n, g)(x) == mem(x)
  {
    if n > 0 {
      UpdateAllOutside(mem, areas, n - 1, g, x);
      UpdateOutside(UpdateAll(mem, areas, n - 1, g), areas[n - 1], areas[n - 1].count, OfArea(g, n - 1), x);
    }
  }
}
