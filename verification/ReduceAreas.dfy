/** Reduce areas: the check that they are disjoint, and what a worker's copy of an element is set to
    when it enters a region. */
module ReduceAreas {
  import opened Basics
  import opened Pages
  import opened Elements
  import opened Sums
  import opened Reduction
  import Replica

  // ---------------------------------------------------------------- no two of them overlap

  /** The pairs that the nested loops have compared when they stand at (`lhs`, `rhs`). */
  predicate Compared(lhs: nat, rhs: nat, j: nat, k: nat) {
    j < k && (j < lhs || (j == lhs && k < rhs))
  }

  /** `verify_reduces_no_overlap`: there is an error if and only if some byte is in two areas, and then it
      names the first two such areas. */
  method VerifyReducesNoOverlap(reduces: seq<Replica.ReduceArea>) returns (clash: Option<(nat, nat)>)
    ensures clash.None? <==> Replica.NoOverlap(reduces)
    ensures clash.None? <==> forall j, k, x: nat :: 0 <= j < k < |reduces| && InArea(reduces[j].area, x) ==>
                               !InArea(reduces[k].area, x)
    ensures clash.Some? ==>
              && clash.value.0 < clash.value.1 < |reduces|
              && (exists x: nat :: InArea(reduces[clash.value.0].area, x) && InArea(reduces[clash.value.1].area, x))
              && forall j, k, x: nat ::
                   (&& 0 <= j < k < |reduces| && (j < clash.value.0 || (j == clash.value.0 && k < clash.value.1))
                    && InArea(reduces[j].area, x)) ==> !InArea(reduces[k].area, x)
  {
    clash := FirstOverlap(reduces);
    if clash.Some? {
      var lhs, rhs := clash.value.0, clash.value.1;
      OverlapExact(reduces[lhs].area, reduces[rhs].area);
      forall j, k, x: nat | 0 <= j < k < |reduces| && Compared(lhs, rhs, j, k) && InArea(reduces[j].area, x)
        ensures !InArea(reduces[k].area, x)
      {
        NoByteInBoth(reduces[j].area, reduces[k].area, x);
      }
    } else {
      forall j, k, x: nat | 0 <= j < k < |reduces| && InArea(reduces[j].area, x) ensures !InArea(reduces[k].area, x) {
        NoByteInBoth(reduces[j].area, reduces[k].area, x);
      }
    }
  }

  lemma NoByteInBoth(a: RealArea, b: RealArea, x: nat)
    requires !Overlap(a, b) && InArea(a, x)
    ensures !InArea(b, x)
  {
    OverlapExact(a, b);
  }

  /** The nested loops. */
  method FirstOverlap(reduces: seq<Replica.ReduceArea>) returns (clash: Option<(nat, nat)>)
    ensures clash.None? <==> Replica.NoOverlap(reduces)
    ensures clash.Some? ==>
              && clash.value.0 < clash.value.1 < |reduces|
              && Overlap(reduces[clash.value.0].area, reduces[clash.value.1].area)
              && forall j, k ::
                   0 <= j < |reduces| && 0 <= k < |reduces| && Compared(clash.value.0, clash.value.1, j, k) ==>
                     !Overlap(reduces[j].area, reduces[k].area)
  {
    for lhs := 0 to |reduces|
      invariant forall j, k :: 0 <= j < |reduces| && 0 <= k < |reduces| && Compared(lhs, 0, j, k) ==>
                  !Overlap(reduces[j].area, reduces[k].area)
    {
      for rhs := lhs + 1 to |reduces|
        invariant forall j, k :: 0 <= j < |reduces| && 0 <= k < |reduces| && Compared(lhs, rhs, j, k) ==>
                    !Overlap(reduces[j].area, reduces[k].area)
      {
        if Overlap(reduces[lhs].area, reduces[rhs].area) {
          return Some((lhs, rhs));
        }
      }
    }
    forall j, k | 0 <= j < k < |reduces| ensures !Overlap(reduces[j].area, reduces[k].area) {
      assert Compared(|reduces|, 0, j, k);
    }
    clash := None;
  }

  // ---------------------------------------------------------------- identities

  datatype ElementType =
    | MpiShort | MpiInt | MpiLong | MpiUnsignedLong | MpiLongLongInt | MpiLongLong
    | MpiFloat | MpiDouble | MpiLongDouble
    | MpiInt8 | MpiInt16 | MpiInt32 | MpiInt64 | MpiUint8 | MpiUint16 | MpiUint32 | MpiUint64
    | MpiCBool | OtherType

  datatype Operator = MpiSum | MpiLand | MpiLor | OtherOperator

  /** The byte that `init_reduce_area_on_worker` fills an area with, or none if the pair is not
      supported. */
  function IdentityByte(t: ElementType, op: Operator): (b: Option<bv8>)
    ensures b.Some? <==> (op == MpiSum && t != MpiCBool && t != OtherType) || (t == MpiCBool && op in {MpiLand, MpiLor})
  {
    if t != MpiCBool && t != OtherType && op == MpiSum then Some(0)
    else if t == MpiCBool then
      match op
      case MpiLand => Some(1)
      case MpiLor => Some(0)
      case _ => None
    else None
  }

  predicate IsFloat(t: ElementType) { t == MpiFloat || t == MpiDouble || t == MpiLongDouble }

  /** A reduction that is supported, and that is a commutative operation on values. */
  predicate Exact(t: ElementType, op: Operator) { IdentityByte(t, op).Some? && !IsFloat(t) }

  /** Bytes of an element. */
  function SizeOf(t: ElementType): (n: nat)
    ensures n > 0
  {
    match t
    case MpiCBool => 1
    case MpiInt8 => 1
    case MpiUint8 => 1
    case MpiShort => 2
    case MpiInt16 => 2
    case MpiUint16 => 2
    case MpiInt => 4
    case MpiInt32 => 4
    case MpiUint32 => 4
    case MpiFloat => 4
    case MpiLongDouble => 16
    case OtherType => 1
    case _ => 8
  }

  /** What the operator does to the numbers that the elements are stored as. Signed integers are
      stored in two's complement, so their sums are sums modulo a power of 256 like those of unsigned
      ones. */
  function MonoidOf(t: ElementType, op: Operator): Monoid<nat>
    requires Exact(t, op)
  {
    if t != MpiCBool then SumModulo(Pow256(SizeOf(t)))
    else if op == MpiLand then Conjunction()
    else Disjunction()
  }

  lemma PowAtLeast(n: nat)
    requires n > 0
    ensures Pow256(n) >= 256
  {
  }

  /** For every supported reduction of integers or booleans: the operator is a commutative monoid, its
      values fit an element, and an element filled with the identity byte reads as its unit. */
  lemma SupportedIsExact(t: ElementType, op: Operator, bytes: seq<bv8>)
    requires Exact(t, op)
    requires |bytes| == SizeOf(t) && forall k :: 0 <= k < |bytes| ==> bytes[k] == IdentityByte(t, op).value
    ensures Commutative(MonoidOf(t, op)) && Number(bytes) == MonoidOf(t, op).unit
    ensures forall v: nat :: MonoidOf(t, op).has(v) ==> v < Pow256(SizeOf(t))
  {
    PowAtLeast(SizeOf(t));
    SumIsMonoid(Pow256(SizeOf(t)));
    LogicalIsMonoid();
    if op == MpiLand {
      assert bytes[1..] == [];
      assert Number(bytes) == bytes[0] as nat;
    } else {
      ZeroBytes(bytes);
    }
  }

  /** The numbers of values that the integer types have. */
  lemma Widths(t: ElementType)
    ensures t in {MpiInt8, MpiUint8} ==> Pow256(SizeOf(t)) == 0x100
    ensures t in {MpiShort, MpiInt16, MpiUint16} ==> Pow256(SizeOf(t)) == 0x1_0000
    ensures t in {MpiInt, MpiInt32, MpiUint32} ==> Pow256(SizeOf(t)) == 0x1_0000_0000
    ensures t in {MpiLong, MpiUnsignedLong, MpiLongLongInt, MpiLongLong, MpiInt64, MpiUint64} ==>
              Pow256(SizeOf(t)) == 0x1_0000_0000_0000_0000
    ensures t == MpiCBool ==> SizeOf(t) == 1
  {
    assert Pow256(1) == 256 * Pow256(0) == 0x100;
    assert Pow256(2) == 256 * Pow256(1) == 0x1_0000;
    assert Pow256(4) == 256 * Pow256(3) && Pow256(3) == 256 * Pow256(2);
    assert Pow256(6) == 256 * Pow256(5) && Pow256(5) == 256 * Pow256(4);
    assert Pow256(8) == 256 * Pow256(7) && Pow256(7) == 256 * Pow256(6);
  }

  /** What the supported reductions of integers and booleans compute: MPI_SUM adds, modulo the number of
      values of the type; MPI_LAND is 1 if and only if no element is 0; MPI_LOR is 1 if and only if some
      element is not 0. */
  lemma {:induction false} WhatIsReduced(t: ElementType, op: Operator, xs: seq<nat>)
    requires Exact(t, op) && AllIn(MonoidOf(t, op), xs)
    ensures op == MpiSum ==> Fold(MonoidOf(t, op), xs) == Sum(xs) % Pow256(SizeOf(t))
    ensures op == MpiLand ==>
              Fold(MonoidOf(t, op), xs) == if forall k :: 0 <= k < |xs| ==> xs[k] != 0 then 1 else 0
    ensures op == MpiLor ==>
              Fold(MonoidOf(t, op), xs) == if exists k :: 0 <= k < |xs| && xs[k] != 0 then 1 else 0
  {
    if op == MpiSum {
      FoldSum(Pow256(SizeOf(t)), xs);
    } else if op == MpiLand {
      FoldConjunction(xs);
    } else {
      FoldDisjunction(xs);
    }
  }

  /** When a region is entered, every element of every supported reduce area of integers or booleans
      reads as its operator's unit on a worker, and the leader's memory is as it was. */
  lemma {:induction false} EntersAtUnit(w: Replica.World, reduces: seq<Replica.ReduceArea>, k: nat, at: nat,
                                        t: ElementType, op: Operator)
    requires Replica.Inv(w) && Replica.Enabled(w, Replica.Enter(reduces))
    requires Exact(t, op) && k < |reduces| && IdentityByte(t, op) == Some(reduces[k].identity)
    requires var a := reduces[k].area; a.begin <= at && at + SizeOf(t) <= a.begin + a.size
    ensures var w' := Replica.Apply(w, Replica.Enter(reduces));
            Read(w'.worker, at, SizeOf(t)) == MonoidOf(t, op).unit && w'.leader == w.leader
  {
    var w' := Replica.Apply(w, Replica.Enter(reduces));
    var bytes := BytesAt(w'.worker, Area(at, SizeOf(t)));
    forall i | 0 <= i < |bytes| ensures bytes[i] == reduces[k].identity { Replica.AfterEnter(w, reduces, at + i); }
    SupportedIsExact(t, op, bytes);
  }
}
