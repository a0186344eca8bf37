/** The moves of the annealer (HotSpot/npe.c) connect all normalized Polish expressions over the same
    units: from any one of them every other one can be reached. */
module Connectivity {
  import opened PolishExpression

  lemma ReachesFurther(s: Expr, t: Expr, u: Expr)
    requires Reachable(s, t) && Reachable(t, u)
    ensures Reachable(s, u)
  {
    var run, moves :| IsRun(run, moves) && run[0] == s && run[|run| - 1] == t;
    var run', moves' :| IsRun(run', moves') && run'[0] == t && run'[|run'| - 1] == u;
    var all := run + run'[1..];
    assert IsRun(all, moves + moves') by {
      forall i | 0 <= i < |moves + moves'|
        ensures Enabled((moves + moves')[i], all[i]) && all[i + 1] == Apply((moves + moves')[i], all[i])
      {
        if i >= |moves| {
          assert all[i] == run'[i - |moves|] && all[i + 1] == run'[i - |moves| + 1];
        }
      }
    }
    assert all[0] == s && all[|all| - 1] == u;
  }

  lemma StepThen(s: Expr, m: Move, n: nat, t: Expr)
    requires IsNpe(s, n) && Enabled(m, s) && Reachable(Apply(m, s), t)
    ensures Reachable(s, t)
  {
    ReachesItself(s);
    ReachesNext(s, s, m);
    ReachesFurther(s, Apply(m, s), t);
  }

  // ----- cuts as early as they can be -----

  /** Where the cuts of the initial expression are: two units, then a cut and a unit in turn. */
  predicate CutPlace(i: int) {
    i >= 2 && i % 2 == 0
  }

  ghost predicate SpreadTo(s: Expr, k: nat) {
    k <= |s| && forall i | 0 <= i < k :: IsCut(s[i]) <==> CutPlace(i)
  }

  lemma {:induction false} SpreadCuts(s: Expr, k: nat)
    requires SpreadTo(s, k)
    ensures Cuts(s, k) == if k <= 2 then 0 else (k - 1) / 2
  {
    if k > 0 {
      SpreadCuts(s, k - 1);
    }
  }

  /** A cut after the place where one is due can be moved one step towards it. */
  lemma MoveCutLeft(s: Expr, n: nat, k: nat) returns (p: nat)
    requires IsNpe(s, n) && SpreadTo(s, k) && k < |s| && CutPlace(k) && !IsCut(s[k])
    ensures IsCut(s[|s| - 1]) && p == NextCut(s, k) - 1 && k <= p
    ensures Enabled(M3(p), s) && SpreadTo(Apply(M3(p), s), k)
    ensures IsNpe(Apply(M3(p), s), n)
    ensures IsCut(Apply(M3(p), s)[p]) && forall i | k <= i < p :: !IsCut(Apply(M3(p), s)[i])
  {
    hide IsNpe;
    LastIsCut(s, n);
    var q := NextCut(s, k);
    p := q - 1;
    SpreadCuts(s, k);
    NoCutsBetween(s, k, q);
    assert Cuts(s, q + 1) == Cuts(s, q) + 1;
    assert !IsCut(s[p - 1]);
    MoveKeepsNpe(M3(p), s, n);
  }

  lemma {:induction false} NoCutsBetween(s: Expr, k: nat, q: nat)
    requires k <= q <= |s| && forall i | k <= i < q :: !IsCut(s[i])
    ensures Cuts(s, q) == Cuts(s, k)
  {
    if k < q {
      NoCutsBetween(s, k, q - 1);
    }
  }

  lemma NextCutAt(s: Expr, k: nat, p: nat)
    requires k <= p < |s| && IsCut(s[|s| - 1]) && IsCut(s[p]) && forall i | k <= i < p :: !IsCut(s[i])
    ensures NextCut(s, k) == p
  {
  }

  /** Balloting leaves no room for a cut before it is due. */
  lemma NoCutTooEarly(s: Expr, n: nat, k: nat)
    requires IsNpe(s, n) && SpreadTo(s, k) && k < |s| && IsCut(s[k])
    ensures CutPlace(k)
  {
    SpreadCuts(s, k);
    assert Cuts(s, k + 1) == Cuts(s, k) + 1;
    assert 2 * Cuts(s, k + 1) < k + 1;
  }

  lemma {:induction false} SpreadOut(s: Expr, n: nat, k: nat, far: nat) returns (t: Expr)
    requires IsNpe(s, n) && SpreadTo(s, k)
    requires far == if k < |s| && IsCut(s[|s| - 1]) then NextCut(s, k) - k else 0
    ensures IsNpe(t, n) && SpreadTo(t, |t|) && Reachable(s, t)
    decreases |s| - k, far
  {
    LastIsCut(s, n);
    if k == |s| {
      t := s;
      ReachesItself(s);
    } else if CutPlace(k) && !IsCut(s[k]) {
      var p := MoveCutLeft(s, n, k);
      var u := Apply(M3(p), s);
      LastIsCut(u, n);
      NextCutAt(u, k, p);
      t := SpreadOut(u, n, k, p - k);
      StepThen(s, M3(p), n, t);
    } else {
      if IsCut(s[k]) {
        NoCutTooEarly(s, n, k);
      }
      t := SpreadOut(s, n, k + 1, if k + 1 < |s| then NextCut(s, k + 1) - (k + 1) else 0);
    }
  }

  // ----- all cuts alike -----

  ghost predicate UprightTo(s: Expr, k: nat) {
    SpreadTo(s, |s|) && k <= |s| && forall i | 0 <= i < k && IsCut(s[i]) :: s[i] == CUT_VERTICAL
  }

  /** Each chain is one cut long, so inverting it turns just that cut. */
  lemma TurnCut(s: Expr, n: nat, k: nat)
    requires IsNpe(s, n) && UprightTo(s, k) && k < |s| && s[k] == CUT_HORIZONTAL
    ensures Enabled(M2(k), s) && Apply(M2(k), s) == s[k := CUT_VERTICAL]
    ensures IsNpe(s[k := CUT_VERTICAL], n) && UprightTo(s[k := CUT_VERTICAL], k + 1)
  {
    hide Balloting, Normalized;
    assert CutPlace(k) && !CutPlace(k - 1) && !CutPlace(k + 1);
    assert Enabled(M2(k), s);
    NextUnitUnique(s, k, k + 1);
    var u := Apply(M2(k), s);
    assert u == s[k := CUT_VERTICAL];
    MoveKeepsNpe(M2(k), s, n);
  }

  lemma {:induction false} StandUpright(s: Expr, n: nat, k: nat) returns (t: Expr)
    requires IsNpe(s, n) && UprightTo(s, k)
    ensures IsNpe(t, n) && UprightTo(t, |t|) && Reachable(s, t)
    decreases |s| - k
  {
    hide Balloting, Normalized, Enabled, Apply, Reachable;
    if k == |s| {
      t := s;
      ReachesItself(s);
    } else if s[k] == CUT_HORIZONTAL {
      TurnCut(s, n, k);
      t := StandUpright(s[k := CUT_VERTICAL], n, k + 1);
      StepThen(s, M2(k), n, t);
    } else {
      t := StandUpright(s, n, k + 1);
    }
  }

  // ----- units in order -----

  /** Where unit number j is in the initial expression. */
  function UnitPlace(j: nat): nat {
    if j == 0 then 0 else 2 * j - 1
  }

  ghost predicate OrderedTo(s: Expr, n: nat, k: nat) {
    IsNpe(s, n) && UprightTo(s, |s|) && k <= n && forall j: nat | j < k :: s[UnitPlace(j)] == j
  }

  /** Unit k moves down from place j to place k, past the units between. */
  lemma {:induction false} MoveUnitDown(s: Expr, n: nat, k: nat, j: nat) returns (t: Expr)
    requires OrderedTo(s, n, k) && k <= j < n && s[UnitPlace(j)] == k
    ensures OrderedTo(t, n, k + 1) && Reachable(s, t)
    decreases j
  {
    hide Reachable, Normalized;
    if j == k {
      t := s;
      ReachesItself(s);
    } else {
      var p, q := UnitPlace(j - 1), UnitPlace(j);
      UnitsInTurn(s, n, k, j);
      var u := Apply(M1(p), s);
      MoveKeepsNpe(M1(p), s, n);
      assert u == s[p := s[q]][q := s[p]];
      SwappedOrdered(s, u, n, k, j);
      t := MoveUnitDown(u, n, k, j - 1);
      StepThen(s, M1(p), n, t);
    }
  }

  /** The unit after a unit, in the form that the moves lead to. */
  lemma UnitsInTurn(s: Expr, n: nat, k: nat, j: nat)
    requires OrderedTo(s, n, k) && 0 < j < n
    ensures NextUnit(s, UnitPlace(j - 1) + 1) == UnitPlace(j)
  {
    var p, q := UnitPlace(j - 1), UnitPlace(j);
    if p + 1 < q {
      assert IsCut(s[p + 1]) && NextUnit(s, p + 2) == q;
    }
  }

  lemma SwappedOrdered(s: Expr, u: Expr, n: nat, k: nat, j: nat)
    requires OrderedTo(s, n, k) && k < j < n && IsNpe(u, n)
    requires u == s[UnitPlace(j - 1) := s[UnitPlace(j)]][UnitPlace(j) := s[UnitPlace(j - 1)]]
    ensures OrderedTo(u, n, k)
  {
    assert !IsCut(s[UnitPlace(j)]) && !IsCut(s[UnitPlace(j - 1)]);
  }

  /** The place of a unit that is not yet in order. */
  lemma FindUnit(s: Expr, n: nat, k: nat) returns (j: nat)
    requires OrderedTo(s, n, k) && k < n
    ensures k <= j < n && s[UnitPlace(j)] == k
  {
    assert multiset(s)[k] == 1;
    var i :| 0 <= i < |s| && s[i] == k;
    j := if i == 0 then 0 else (i + 1) / 2;
    assert !CutPlace(i) && UnitPlace(j) == i;
  }

  lemma {:induction false} PutInOrder(s: Expr, n: nat, k: nat) returns (t: Expr)
    requires OrderedTo(s, n, k)
    ensures OrderedTo(t, n, n) && Reachable(s, t)
    decreases n - k
  {
    if k == n {
      t := s;
      ReachesItself(s);
    } else {
      var j := FindUnit(s, n, k);
      var u := MoveUnitDown(s, n, k, j);
      t := PutInOrder(u, n, k + 1);
      ReachesFurther(s, u, t);
    }
  }

  lemma OrderedIsInitial(s: Expr, n: nat)
    requires OrderedTo(s, n, n)
    ensures s == Initial(n)
  {
    InitialShape(n);
    forall i | 0 <= i < |s|
      ensures s[i] == Initial(n)[i]
    {
      if !CutPlace(i) {
        assert UnitPlace((i + 1) / 2) == i;
      }
    }
  }

  // ----- the theorem -----

  lemma InitialReached(s: Expr, n: nat)
    requires IsNpe(s, n)
    ensures Reachable(s, Initial(n))
  {
    LastIsCut(s, n);
    var spread := SpreadOut(s, n, 0, NextCut(s, 0));
    var upright := StandUpright(spread, n, 0);
    var ordered := PutInOrder(upright, n, 0);
    OrderedIsInitial(ordered, n);
    ReachesFurther(s, spread, upright);
    ReachesFurther(s, upright, ordered);
  }

  /** What runs of moves from the initial expression can reach is exactly the normalized Polish
      expressions over the units. */
  lemma ReachableExactly(n: nat, t: Expr)
    requires n >= 2
    ensures Reachable(Initial(n), t) <==> IsNpe(t, n)
  {
    InitialIsNpe(n);
    if IsNpe(t, n) {
      InitialReached(t, n);
      ReachabilitySymmetric(t, Initial(n), n);
    }
    if Reachable(Initial(n), t) {
      ReachableIsNpe(n, t);
    }
  }

  /** So from any one of them to any other. */
  lemma AllConnected(s: Expr, t: Expr, n: nat)
    requires IsNpe(s, n) && IsNpe(t, n)
    ensures Reachable(s, t)
  {
    InitialReached(s, n);
    ReachableExactly(n, t);
    ReachesFurther(s, Initial(n), t);
  }
}
