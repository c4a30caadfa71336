/** The root's first round of dealing: one value to every client with credit left, round after
    round, until the credits or the values run out. Rank 0 is the root itself. */
module FirstRound {
  import opened Basics
  import opened Sums

  predicate AllZero(left: seq<nat>) {
    forall k :: 0 <= k < |left| ==> left[k] == 0
  }

  /** Some client at or after loop position `i` still has credit. */
  predicate Ahead(left: seq<nat>, i: nat) {
    exists k :: i <= k < |left| && left[k] != 0
  }

  /** The ranks that are dealt a value, in order, from loop position `i` on, when `left` are the
      remaining credits and `n` values remain. Position `|left|` is the test of the outer loop. */
  function DealFrom(i: nat, left: seq<nat>, n: nat): (order: seq<nat>)
    requires i <= |left| && |left| > 0 && left[0] == 0
    ensures forall k :: 0 <= k < |order| ==> 1 <= order[k] < |left|
    decreases Sum(left), if Ahead(left, i) then 0 else 1, |left| - i
  {
    if i == |left| then
      if AllZero(left) then [] else DealFrom(0, left, n)
    else if i == 0 || left[i] == 0 then
      assert Ahead(left, i) ==> Ahead(left, i + 1);
      DealFrom(i + 1, left, n)
    else if n == 0 then []
    else
      SumUpdate(left, i, left[i] - 1);
      [i] + DealFrom(i + 1, left[i := left[i] - 1], n - 1)
  }

  function DealOrder(sizes: seq<nat>, n: nat): (order: seq<nat>)
    requires |sizes| > 0 && sizes[0] == 0
    ensures forall k :: 0 <= k < |order| ==> 1 <= order[k] < |sizes|
  {
    DealFrom(|sizes|, sizes, n)
  }

  /** What rank `k` holds after `r` full rounds and a further round cut just before rank `c`. */
  function Share(b: nat, r: nat, c: nat, k: nat): nat {
    if k < c then Min(b, r + 1) else Min(b, r)
  }

  /** `left` are the credits left when the loop stands at position `i` of round `r`. */
  predicate Round(sizes: seq<nat>, left: seq<nat>, r: nat, i: nat) {
    && |left| == |sizes|
    && forall k :: 0 <= k < |left| ==> left[k] == sizes[k] - Share(sizes[k], r, i, k)
  }

  /** The dealing in `order` uses up the credits of `left` or the `n` values, and brings every
      rank to its share of round `r` cut at `c`. */
  predicate Ends(sizes: seq<nat>, left: seq<nat>, order: seq<nat>, n: nat, r: nat, c: nat)
    requires |left| == |sizes|
  {
    && |order| == Min(n, Sum(left))
    && forall k :: 0 <= k < |sizes| ==> sizes[k] - left[k] + Occurs(order, k) == Share(sizes[k], r, c, k)
  }

  lemma EndsCons(sizes: seq<nat>, left: seq<nat>, order: seq<nat>, n: nat, i: nat, r: nat, c: nat)
    requires i < |left| == |sizes| && left[i] != 0 && n > 0
    requires Ends(sizes, left[i := left[i] - 1], order, n - 1, r, c)
    ensures Ends(sizes, left, [i] + order, n, r, c)
    ensures Sum(left[i := left[i] - 1]) < Sum(left)
  {
    SumUpdate(left, i, left[i] - 1);
    forall k | 0 <= k < |sizes|
      ensures sizes[k] - left[k] + Occurs([i] + order, k) == Share(sizes[k], r, c, k)
    {
      assert ([i] + order)[1..] == order;
    }
  }

  lemma NextRound(sizes: seq<nat>, left: seq<nat>, r: nat)
    requires Round(sizes, left, r, |sizes|)
    ensures Round(sizes, left, r + 1, 0)
  {
  }

  lemma RoundServed(sizes: seq<nat>, left: seq<nat>, r: nat, i: nat)
    requires i < |sizes| && Round(sizes, left, r, i) && left[i] != 0
    ensures Round(sizes, left[i := left[i] - 1], r, i + 1) && Sum(left[i := left[i] - 1]) < Sum(left)
  {
    SumUpdate(left, i, left[i] - 1);
  }

  /** A rank without credit left in this round is passed over, and so is the root. */
  lemma RoundSkipped(sizes: seq<nat>, left: seq<nat>, r: nat, i: nat)
    requires i < |sizes| && sizes[0] == 0 && Round(sizes, left, r, i) && (i == 0 || left[i] == 0)
    ensures Round(sizes, left, r, i + 1) && (Ahead(left, i) ==> Ahead(left, i + 1))
  {
  }

  /** Dealing is balanced, from every point of the loop. */
  lemma {:induction false} DealFromBalanced(sizes: seq<nat>, left: seq<nat>, r: nat, i: nat, n: nat)
    returns (r2: nat, c2: nat)
    requires i <= |sizes| && |sizes| > 0 && sizes[0] == 0 && Round(sizes, left, r, i)
    ensures Ends(sizes, left, DealFrom(i, left, n), n, r2, c2)
    decreases Sum(left), if Ahead(left, i) then 0 else 1, |left| - i
  {
    r2, c2 := r, i;
    if i == |sizes| {
      if AllZero(left) {
        SumZero(left);
      } else {
        NextRound(sizes, left, r);
        r2, c2 := DealFromBalanced(sizes, left, r + 1, 0, n);
      }
    } else if i == 0 || left[i] == 0 {
      RoundSkipped(sizes, left, r, i);
      r2, c2 := DealFromBalanced(sizes, left, r, i + 1, n);
    } else if n > 0 {
      RoundServed(sizes, left, r, i);
      r2, c2 := DealFromBalanced(sizes, left[i := left[i] - 1], r, i + 1, n - 1);
      EndsCons(sizes, left, DealFrom(i + 1, left[i := left[i] - 1], n - 1), n, i, r2, c2);
    }
  }

  /** The first round hands out as many values as there are, up to the credits, no rank gets more
      than its credit, and for some round `r` and cut `c` rank `k` gets one more than `r` rounds
      would give it exactly when it stands before the cut. */
  lemma Balanced(sizes: seq<nat>, n: nat) returns (r: nat, c: nat)
    requires |sizes| > 0 && sizes[0] == 0
    ensures |DealOrder(sizes, n)| == Min(n, Sum(sizes))
    ensures forall k :: 0 <= k < |sizes| ==> Occurs(DealOrder(sizes, n), k) == Share(sizes[k], r, c, k) <= sizes[k]
  {
    if AllZero(sizes) {
      SumZero(sizes);
      r, c := 0, 0;
    } else {
      r, c := DealFromBalanced(sizes, sizes, 0, 0, n);
    }
  }

  /** Dealing fewer values is dealing the first of them. */
  lemma {:induction false} DealPrefix(i: nat, left: seq<nat>, n: nat, m: nat)
    requires i <= |left| && |left| > 0 && left[0] == 0 && m <= |DealFrom(i, left, n)|
    ensures DealFrom(i, left, n)[..m] == DealFrom(i, left, m)
    decreases Sum(left), if Ahead(left, i) then 0 else 1, |left| - i
  {
    if i == |left| {
      if !AllZero(left) { DealPrefix(0, left, n, m); }
    } else if i == 0 || left[i] == 0 {
      assert Ahead(left, i) ==> Ahead(left, i + 1);
      DealPrefix(i + 1, left, n, m);
    } else if m > 0 {
      SumUpdate(left, i, left[i] - 1);
      DealPrefix(i + 1, left[i := left[i] - 1], n - 1, m - 1);
    }
  }

  /** The dealing is balanced all the time, and not only in the end: whenever `m` values have been dealt,
      the ranks before some cut have got one more than the others, up to their credits. */
  lemma BalancedAlways(sizes: seq<nat>, n: nat, m: nat) returns (r: nat, c: nat)
    requires |sizes| > 0 && sizes[0] == 0 && m <= |DealOrder(sizes, n)|
    ensures forall k :: 0 <= k < |sizes| ==>
              Occurs(DealOrder(sizes, n)[..m], k) == if k < c then Min(sizes[k], r + 1) else Min(sizes[k], r)
  {
    DealPrefix(|sizes|, sizes, n, m);
    r, c := Balanced(sizes, m);
  }
}
