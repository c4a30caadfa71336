/** Reductions over a parallel region: every rank folds what it was given into its own copy, which
    starts at the identity on a client and at the original value on the root, and the copies are
    combined in the end. The result is the sequential fold, however the work was dealt. */
module Reduction {
  import opened Arithmetic
  import opened Sums
  import opened Protocol

  /** An operator on the values that satisfy `has`. */
  datatype Monoid<!T> = Monoid(op: (T, T) -> T, unit: T, has: T -> bool)

  predicate Closed<T>(m: Monoid<T>, a: T, b: T) { m.has(a) && m.has(b) ==> m.has(m.op(a, b)) }

  predicate Associates<T(==)>(m: Monoid<T>, a: T, b: T, c: T) {
    m.has(a) && m.has(b) && m.has(c) ==> m.op(m.op(a, b), c) == m.op(a, m.op(b, c))
  }

  predicate Commutes<T(==)>(m: Monoid<T>, a: T, b: T) { m.has(a) && m.has(b) ==> m.op(a, b) == m.op(b, a) }

  predicate Neutral<T(==)>(m: Monoid<T>, a: T) { m.has(a) ==> m.op(m.unit, a) == a == m.op(a, m.unit) }

  ghost predicate Commutative<T(!new)>(m: Monoid<T>) {
    && m.has(m.unit)
    && (forall a, b :: Closed(m, a, b))
    && (forall a, b, c :: Associates(m, a, b, c))
    && (forall a, b :: Commutes(m, a, b))
    && (forall a :: Neutral(m, a))
  }

  predicate AllIn<T>(m: Monoid<T>, xs: seq<T>) {
    forall k :: 0 <= k < |xs| ==> m.has(xs[k])
  }

  function Fold<T>(m: Monoid<T>, xs: seq<T>): T {
    if xs == [] then m.unit else m.op(Fold(m, xs[..|xs| - 1]), xs[|xs| - 1])
  }

  lemma {:induction false} FoldIn<T(!new)>(m: Monoid<T>, xs: seq<T>)
    requires Commutative(m) && AllIn(m, xs)
    ensures m.has(Fold(m, xs))
  {
    if xs != [] {
      var n := |xs| - 1;
      FoldIn(m, xs[..n]);
      assert Closed(m, Fold(m, xs[..n]), xs[n]);
    }
  }

  lemma {:induction false} FoldAppend<T(!new)>(m: Monoid<T>, xs: seq<T>, ys: seq<T>)
    requires Commutative(m) && AllIn(m, xs) && AllIn(m, ys)
    ensures Fold(m, xs + ys) == m.op(Fold(m, xs), Fold(m, ys))
  {
    FoldIn(m, xs);
    if ys == [] {
      assert xs + ys == xs && Neutral(m, Fold(m, xs));
    } else {
      var n := |ys| - 1;
      assert (xs + ys)[..|xs| + n] == xs + ys[..n];
      FoldIn(m, ys[..n]);
      FoldAppend(m, xs, ys[..n]);
      assert Associates(m, Fold(m, xs), Fold(m, ys[..n]), ys[n]);
    }
  }

  lemma {:induction false} FoldSnoc<T>(m: Monoid<T>, xs: seq<T>, x: T)
    ensures Fold(m, xs + [x]) == m.op(Fold(m, xs), x)
  {
    assert (xs + [x])[..|xs|] == xs;
  }

  /** The items at the given positions. */
  function Pick<T>(items: seq<T>, at: seq<nat>): (s: seq<T>)
    requires forall k :: 0 <= k < |at| ==> at[k] < |items|
    ensures |s| == |at| && forall k :: 0 <= k < |at| ==> s[k] == items[at[k]]
  {
    seq(|at|, k requires 0 <= k < |at| => items[at[k]])
  }

  /** What rank `r` has folded together of the items it was given. */
  function Part<T>(m: Monoid<T>, items: seq<T>, owner: seq<nat>, r: nat): T
    requires |owner| <= |items|
  {
    PositionsBelow(owner, r);
    Fold(m, Pick(items, Positions(owner, r)))
  }

  lemma {:induction false} PositionsBelow(owner: seq<nat>, r: nat)
    ensures forall k :: 0 <= k < |Positions(owner, r)| ==> Positions(owner, r)[k] < |owner|
  {
    if owner != [] { PositionsBelow(owner[..|owner| - 1], r); }
  }

  /** The parts of the first `ranks` ranks. */
  function Parts<T>(m: Monoid<T>, items: seq<T>, owner: seq<nat>, ranks: nat): (s: seq<T>)
    requires |owner| <= |items|
    ensures |s| == ranks
  {
    seq(ranks, r requires 0 <= r < ranks => Part(m, items, owner, r))
  }

  lemma {:induction false} PartIn<T(!new)>(m: Monoid<T>, items: seq<T>, owner: seq<nat>, r: nat)
    requires Commutative(m) && AllIn(m, items) && |owner| <= |items|
    ensures m.has(Part(m, items, owner, r))
  {
    PositionsBelow(owner, r);
    FoldIn(m, Pick(items, Positions(owner, r)));
  }

  lemma {:induction false} PartsIn<T(!new)>(m: Monoid<T>, items: seq<T>, owner: seq<nat>, ranks: nat)
    requires Commutative(m) && AllIn(m, items) && |owner| <= |items|
    ensures AllIn(m, Parts(m, items, owner, ranks))
  {
    forall r: nat | r < ranks ensures m.has(Parts(m, items, owner, ranks)[r]) { PartIn(m, items, owner, r); }
  }

  lemma {:induction false} PartSnoc<T(!new)>(m: Monoid<T>, items: seq<T>, owner: seq<nat>, x: nat, r: nat)
    requires |owner| < |items|
    ensures Part(m, items, owner + [x], r) ==
            if x == r then m.op(Part(m, items, owner, r), items[|owner|]) else Part(m, items, owner, r)
  {
    var n := |owner|;
    assert (owner + [x])[..n] == owner;
    PositionsBelow(owner, r);
    PositionsBelow(owner + [x], r);
    var before := Pick(items, Positions(owner, r));
    if x == r {
      assert Pick(items, Positions(owner + [x], r)) == before + [items[n]];
      FoldSnoc(m, before, items[n]);
    } else {
      assert Positions(owner + [x], r) == Positions(owner, r);
    }
  }

  /** Giving one more item to rank `x` multiplies the combined parts by it. */
  lemma {:induction false} PartsSnoc<T(!new)>(m: Monoid<T>, items: seq<T>, owner: seq<nat>, x: nat, ranks: nat)
    requires Commutative(m) && AllIn(m, items) && |owner| < |items|
    ensures Fold(m, Parts(m, items, owner + [x], ranks)) ==
            if x < ranks then m.op(Fold(m, Parts(m, items, owner, ranks)), items[|owner|])
            else Fold(m, Parts(m, items, owner, ranks))
    decreases ranks
  {
    if ranks > 0 {
      var r := ranks - 1;
      var v := items[|owner|];
      assert Parts(m, items, owner + [x], ranks)[..r] == Parts(m, items, owner + [x], r);
      assert Parts(m, items, owner, ranks)[..r] == Parts(m, items, owner, r);
      PartsSnoc(m, items, owner, x, r);
      PartSnoc(m, items, owner, x, r);
      PartsIn(m, items, owner, r);
      FoldIn(m, Parts(m, items, owner, r));
      PartIn(m, items, owner, r);
      Shuffle(m, Fold(m, Parts(m, items, owner, r)), v, Part(m, items, owner, r));
    }
  }

  lemma {:induction false} Shuffle<T(!new)>(m: Monoid<T>, a: T, b: T, c: T)
    requires Commutative(m) && m.has(a) && m.has(b) && m.has(c)
    ensures m.op(m.op(a, b), c) == m.op(m.op(a, c), b)
    ensures m.op(a, m.op(c, b)) == m.op(m.op(a, c), b)
  {
    assert Associates(m, a, b, c) && Associates(m, a, c, b) && Commutes(m, b, c);
  }

  lemma {:induction false} NothingDealt<T(!new)>(m: Monoid<T>, items: seq<T>, ranks: nat)
    requires Commutative(m)
    ensures Fold(m, Parts(m, items, [], ranks)) == m.unit
    decreases ranks
  {
    if ranks > 0 {
      assert Parts(m, items, [], ranks)[..ranks - 1] == Parts(m, items, [], ranks - 1);
      NothingDealt(m, items, ranks - 1);
      assert Pick(items, Positions([], ranks - 1)) == [];
      assert Neutral(m, m.unit);
    }
  }

  lemma {:induction false} DealOne<T(!new)>(m: Monoid<T>, items: seq<T>, owner: seq<nat>, x: nat, ranks: nat)
    requires Commutative(m) && AllIn(m, items) && |owner| < |items| && x < ranks
    requires Fold(m, Parts(m, items, owner, ranks)) == Fold(m, items[..|owner|])
    ensures Fold(m, Parts(m, items, owner + [x], ranks)) == Fold(m, items[..|owner| + 1])
  {
    PartsSnoc(m, items, owner, x, ranks);
    FoldSnoc(m, items[..|owner|], items[|owner|]);
    assert items[..|owner|] + [items[|owner|]] == items[..|owner| + 1];
  }

  /** However the items are dealt to the ranks, the ranks' parts combine to the fold over all. */
  lemma {:induction false} DealingDoesNotMatter<T(!new)>(m: Monoid<T>, items: seq<T>, owner: seq<nat>, ranks: nat)
    requires Commutative(m) && AllIn(m, items)
    requires |owner| <= |items| && (forall k :: 0 <= k < |owner| ==> owner[k] < ranks)
    ensures Fold(m, Parts(m, items, owner, ranks)) == Fold(m, items[..|owner|])
    decreases |owner|
  {
    if owner == [] {
      NothingDealt(m, items, ranks);
    } else {
      var n := |owner| - 1;
      var x := owner[n];
      assert owner == owner[..n] + [x] && |owner[..n]| == n;
      DealingDoesNotMatter(m, items, owner[..n], ranks);
      DealOne(m, items, owner[..n], x, ranks);
    }
  }

  lemma {:induction false} FoldOne<T(!new)>(m: Monoid<T>, x: T)
    requires Commutative(m) && m.has(x)
    ensures Fold(m, [x]) == x
  {
    assert [x][..0] == [] && Neutral(m, x);
  }

  function Flatten<U>(pieces: seq<seq<U>>): seq<U> {
    if pieces == [] then [] else pieces[0] + Flatten(pieces[1..])
  }

  function Map<U, T>(f: U -> T, xs: seq<U>): (s: seq<T>)
    ensures |s| == |xs| && forall k :: 0 <= k < |xs| ==> s[k] == f(xs[k])
  {
    seq(|xs|, k requires 0 <= k < |xs| => f(xs[k]))
  }

  /** What each piece of a loop contributes. */
  function FoldEach<U, T>(m: Monoid<T>, body: U -> T, pieces: seq<seq<U>>): (s: seq<T>)
    ensures |s| == |pieces|
  {
    seq(|pieces|, k requires 0 <= k < |pieces| => Fold(m, Map(body, pieces[k])))
  }

  lemma {:induction false} MapAppend<U, T>(f: U -> T, xs: seq<U>, ys: seq<U>)
    ensures Map(f, xs + ys) == Map(f, xs) + Map(f, ys)
  {
  }

  /** The body's contributions are values of the operator. */
  predicate BodyIn<U, T>(m: Monoid<T>, body: U -> T, xs: seq<U>) {
    forall k :: 0 <= k < |xs| ==> m.has(body(xs[k]))
  }

  lemma {:induction false} FoldPiece<U, T(!new)>(m: Monoid<T>, body: U -> T, piece: seq<U>, rest: seq<U>,
                                                 values: seq<T>)
    requires Commutative(m) && BodyIn(m, body, piece) && BodyIn(m, body, rest) && AllIn(m, values)
    requires Fold(m, values) == Fold(m, Map(body, rest))
    ensures Fold(m, [Fold(m, Map(body, piece))] + values) == Fold(m, Map(body, piece + rest))
  {
    var first := Fold(m, Map(body, piece));
    FoldIn(m, Map(body, piece));
    FoldAppend(m, [first], values);
    FoldOne(m, first);
    MapAppend(body, piece, rest);
    FoldAppend(m, Map(body, piece), Map(body, rest));
  }

  lemma {:induction false} FoldEachIn<U, T(!new)>(m: Monoid<T>, body: U -> T, pieces: seq<seq<U>>)
    requires Commutative(m) && forall k :: 0 <= k < |pieces| ==> BodyIn(m, body, pieces[k])
    ensures AllIn(m, FoldEach(m, body, pieces))
  {
    forall k | 0 <= k < |pieces| ensures m.has(FoldEach(m, body, pieces)[k]) { FoldIn(m, Map(body, pieces[k])); }
  }

  lemma {:induction false} FlattenIn<U, T>(m: Monoid<T>, body: U -> T, pieces: seq<seq<U>>)
    requires forall k :: 0 <= k < |pieces| ==> BodyIn(m, body, pieces[k])
    ensures BodyIn(m, body, Flatten(pieces))
  {
    if pieces != [] { FlattenIn(m, body, pieces[1..]); }
  }

  /** Folding the contributions of the pieces is folding over the whole loop. */
  lemma {:induction false} FoldPieces<U, T(!new)>(m: Monoid<T>, body: U -> T, pieces: seq<seq<U>>)
    requires Commutative(m) && forall k :: 0 <= k < |pieces| ==> BodyIn(m, body, pieces[k])
    ensures Fold(m, FoldEach(m, body, pieces)) == Fold(m, Map(body, Flatten(pieces)))
  {
    if pieces != [] {
      FoldPieces(m, body, pieces[1..]);
      FlattenIn(m, body, pieces[1..]);
      FoldEachIn(m, body, pieces[1..]);
      FoldPiece(m, body, pieces[0], Flatten(pieces[1..]), FoldEach(m, body, pieces[1..]));
      assert FoldEach(m, body, pieces) == [Fold(m, Map(body, pieces[0]))] + FoldEach(m, body, pieces[1..]);
    }
  }

  // ---------------------------------------------------------------- the operators that are supported

  /** The sum of integers below `modulus`, which wraps around. */
  function SumModulo(modulus: nat): Monoid<nat> {
    var op: (nat, nat) -> nat := (a, b) => if a + b >= modulus then a + b - modulus else a + b;
    var has: nat -> bool := a => a < modulus;
    Monoid(op, 0, has)
  }

  /** Booleans are 0 and 1. */
  function Conjunction(): Monoid<nat> {
    Monoid((a: nat, b: nat) => if a != 0 && b != 0 then 1 else 0, 1, (a: nat) => a <= 1)
  }

  function Disjunction(): Monoid<nat> {
    Monoid((a: nat, b: nat) => if a != 0 || b != 0 then 1 else 0, 0, (a: nat) => a <= 1)
  }

  lemma {:induction false} SumIsMonoid(modulus: nat)
    requires modulus > 0
    ensures Commutative(SumModulo(modulus))
  {
    var m := SumModulo(modulus);
    forall a: nat, b: nat, c: nat
      ensures Closed(m, a, b) && Associates(m, a, b, c) && Commutes(m, a, b) && Neutral(m, a)
    {
    }
  }

  lemma {:induction false} LogicalIsMonoid()
    ensures Commutative(Conjunction()) && Commutative(Disjunction())
  {
    var land, lor := Conjunction(), Disjunction();
    forall a: nat, b: nat, c: nat
      ensures Closed(land, a, b) && Associates(land, a, b, c) && Commutes(land, a, b) && Neutral(land, a)
      ensures Closed(lor, a, b) && Associates(lor, a, b, c) && Commutes(lor, a, b) && Neutral(lor, a)
    {
    }
  }

  // ---------------------------------------------------------------- what the operators compute

  /** A sum of integers is their sum modulo the number of values. */
  lemma {:induction false} FoldSum(modulus: nat, xs: seq<nat>)
    requires modulus > 0 && forall k :: 0 <= k < |xs| ==> xs[k] < modulus
    ensures Fold(SumModulo(modulus), xs) == Sum(xs) % modulus
  {
    if xs == [] {
      RemainderIs(0, 0, 0, modulus);
    } else {
      var n := |xs| - 1;
      FoldSum(modulus, xs[..n]);
      ModAdd(Sum(xs[..n]), xs[n], modulus);
    }
  }

  /** A conjunction is 1 if and only if no element is 0, and 0 otherwise. */
  lemma {:induction false} FoldConjunction(xs: seq<nat>)
    ensures Fold(Conjunction(), xs) == if forall k :: 0 <= k < |xs| ==> xs[k] != 0 then 1 else 0
  {
    if xs != [] {
      var n := |xs| - 1;
      FoldConjunction(xs[..n]);
      assert forall k :: 0 <= k < n ==> xs[..n][k] == xs[k];
    }
  }

  /** A disjunction is 1 if and only if some element is not 0, and 0 otherwise. */
  lemma {:induction false} FoldDisjunction(xs: seq<nat>)
    ensures Fold(Disjunction(), xs) == if exists k :: 0 <= k < |xs| && xs[k] != 0 then 1 else 0
  {
    if xs != [] {
      var n := |xs| - 1;
      FoldDisjunction(xs[..n]);
      assert forall k :: 0 <= k < n ==> xs[..n][k] == xs[k];
    }
  }
}
