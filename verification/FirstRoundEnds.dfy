/** When the nested loops of the first round end, for any credit of the root. The root's own entry is
    never served, so the outer loop's test can stay false for ever. */
module FirstRoundEnds {
  import opened Sums
  import opened FirstRound

  /** The loops stand at position `i`, with the credits `left` and `n` values; at |left| is the test of
      the outer loop. */
  datatype Loop = At(i: nat, left: seq<nat>, n: nat) | Finished

  predicate Standing(s: Loop) {
    s.At? && s.i <= |s.left| && |s.left| > 0
  }

  function Step(s: Loop): (s': Loop)
    requires Standing(s)
    ensures s'.At? ==> Standing(s') && |s'.left| == |s.left|
  {
    if s.i == |s.left| then
      if AllZero(s.left) then Finished else At(0, s.left, s.n)
    else if s.i == 0 || s.left[s.i] == 0 then At(s.i + 1, s.left, s.n)
    else if s.n == 0 then Finished
    else At(s.i + 1, s.left[s.i := s.left[s.i] - 1], s.n - 1)
  }

  function Steps(s: Loop, k: nat): Loop
    requires s.At? ==> Standing(s)
    decreases k
  {
    if k == 0 || s.Finished? then s else Steps(Step(s), k - 1)
  }

  /** The ranks that the steps serve. */
  function Served(s: Loop, k: nat): seq<nat>
    requires s.At? ==> Standing(s)
    decreases k
  {
    if k == 0 || s.Finished? then []
    else (if 0 < s.i < |s.left| && s.left[s.i] > 0 && s.n > 0 then [s.i] else []) + Served(Step(s), k - 1)
  }

  /** The credits of the clients, all together. */
  function Others(left: seq<nat>): nat
    requires |left| > 0
  {
    Sum(left[0 := 0])
  }

  lemma OthersServe(left: seq<nat>, i: nat)
    requires 0 < i < |left| && left[i] > 0
    ensures Others(left) >= left[i]
    ensures Others(left[i := left[i] - 1]) == Others(left) - 1
    ensures Sum(left[i := left[i] - 1]) < Sum(left)
  {
    SumUpdate(left[0 := 0], i, left[i] - 1);
    SumUpdate(left, i, left[i] - 1);
    assert left[i := left[i] - 1][0 := 0] == left[0 := 0][i := left[i] - 1];
  }

  /** The root's credit keeps the outer loop going, and the values cannot run out before the clients'
      credits do. */
  predicate Stuck(s: Loop) {
    Standing(s) && s.left[0] > 0 && s.n >= Others(s.left)
  }

  lemma {:induction false} StuckForEver(s: Loop, k: nat)
    requires Stuck(s)
    ensures Steps(s, k).At?
    decreases k
  {
    if k > 0 {
      if 0 < s.i < |s.left| && s.left[s.i] > 0 { OthersServe(s.left, s.i); }
      StuckForEver(Step(s), k - 1);
    }
  }

  predicate Ending(s: Loop) {
    Standing(s) && (s.left[0] == 0 || s.n < Others(s.left))
  }

  lemma SomeCredit(s: Loop)
    requires Ending(s) && !AllZero(s.left)
    ensures Ahead(s.left, 1)
  {
    if s.left[0] != 0 {
      SumZero(s.left[0 := 0]);
      var k :| 0 <= k < |s.left| && s.left[0 := 0][k] != 0;
      assert k >= 1 && s.left[k] != 0;
    }
  }

  lemma {:induction false} EndsSometime(s: Loop) returns (k: nat)
    requires Ending(s)
    ensures Steps(s, k).Finished?
    decreases Sum(s.left), if Ahead(s.left, if s.i == 0 then 1 else s.i) then 0 else 1, |s.left| - s.i
  {
    if Step(s).Finished? { return 1; }
    if s.i == |s.left| {
      SomeCredit(s);
    } else if s.i > 0 && s.left[s.i] > 0 {
      OthersServe(s.left, s.i);
    } else {
      assert Ahead(s.left, if s.i == 0 then 1 else s.i) ==> Ahead(s.left, s.i + 1);
    }
    var rest := EndsSometime(Step(s));
    k := rest + 1;
  }

  /** When the loops have ended they have served the ranks in the dealing order. */
  lemma {:induction false} ServesTheOrder(s: Loop, k: nat)
    requires Standing(s) && s.left[0] == 0 && Steps(s, k).Finished?
    ensures Served(s, k) == DealFrom(s.i, s.left, s.n)
    decreases k
  {
    if Step(s).At? {
      ServesTheOrder(Step(s), k - 1);
    } else {
      assert Served(Step(s), k - 1) == [];
    }
  }

  /** The first round ends if and only if the root has no credit of its own or there are fewer values
      than the clients have credit. The iterator's constructor sets the root's credit to 0. */
  lemma EndsExactlyWhen(sizes: seq<nat>, n: nat)
    requires |sizes| > 0
    ensures (exists k: nat :: Steps(At(|sizes|, sizes, n), k).Finished?) <==> sizes[0] == 0 || n < Others(sizes)
  {
    var s := At(|sizes|, sizes, n);
    if Ending(s) {
      var k := EndsSometime(s);
    } else {
      forall k: nat ensures !Steps(s, k).Finished? { StuckForEver(s, k); }
    }
  }
}
