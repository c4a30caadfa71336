/** Sums and occurrence counts over sequences, shared by the protocol modules. */
module Sums {

  function Sum(s: seq<nat>): nat {
    if s == [] then 0 else Sum(s[..|s| - 1]) + s[|s| - 1]
  }

  /** How often `x` occurs in `s`. */
  function Occurs(s: seq<nat>, x: nat): nat {
    if s == [] then 0 else (if s[0] == x then 1 else 0) + Occurs(s[1..], x)
  }

  lemma {:induction false} SumUpdate(s: seq<nat>, i: nat, v: nat)
    requires i < |s|
    ensures Sum(s[i := v]) == Sum(s) - s[i] + v
    ensures Sum(s) >= s[i]
  {
    var n := |s| - 1;
    if i == n {
      assert s[i := v][..n] == s[..n];
    } else {
      assert s[i := v][..n] == s[..n][i := v];
      SumUpdate(s[..n], i, v);
    }
  }

  lemma {:induction false} SumZero(s: seq<nat>)
    ensures Sum(s) == 0 <==> forall k :: 0 <= k < |s| ==> s[k] == 0
  {
    if s != [] {
      SumZero(s[..|s| - 1]);
      if forall k :: 0 <= k < |s| ==> s[k] == 0 {
        assert forall k :: 0 <= k < |s| - 1 ==> s[..|s| - 1][k] == s[k];
      } else {
        var k :| 0 <= k < |s| && s[k] != 0;
        SumUpdate(s, k, 0);
      }
    }
  }

  lemma {:induction false} SumCons(x: nat, s: seq<nat>)
    ensures Sum([x] + s) == x + Sum(s)
  {
    var all, n := [x] + s, |s|;
    if s == [] {
      assert all[..0] == [] && all[0] == x;
    } else {
      assert all[..n] == [x] + s[..n - 1] && all[n] == s[n - 1];
      SumCons(x, s[..n - 1]);
    }
  }

  lemma {:induction false} SumMonotone(s: seq<nat>, t: seq<nat>)
    requires |s| == |t| && forall k :: 0 <= k < |s| ==> s[k] <= t[k]
    ensures Sum(s) <= Sum(t)
  {
    if s != [] { SumMonotone(s[..|s| - 1], t[..|t| - 1]); }
  }

  lemma {:induction false} OccursAppend(s: seq<nat>, t: seq<nat>, x: nat)
    ensures Occurs(s + t, x) == Occurs(s, x) + Occurs(t, x)
  {
    if s == [] {
      assert s + t == t;
    } else {
      assert (s + t)[1..] == s[1..] + t;
      OccursAppend(s[1..], t, x);
    }
  }

  lemma {:induction false} OccursSnoc(s: seq<nat>, y: nat, x: nat)
    ensures Occurs(s + [y], x) == Occurs(s, x) + if x == y then 1 else 0
  {
    if s != [] {
      assert (s + [y])[1..] == s[1..] + [y];
      OccursSnoc(s[1..], y, x);
    }
  }
}
