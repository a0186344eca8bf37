/** Normalized Polish expressions (HotSpot/npe.h, HotSpot/npe.c) as plain sequences: what
    makes one well formed, what the position caches of an expression must hold, the three
    annealing moves as functions, and the laws of those moves. The class in NpeState.dfy is
    the in-place form; its methods are proved against the functions of this module. */
module PolishExpression {

  const CUT_VERTICAL: int := -2
  const CUT_HORIZONTAL: int := -3

  type Expr = seq<int>

  predicate IsCut(e: int) {
    e < 0
  }

  function FlipCut(e: int): int {
    if e == CUT_VERTICAL then CUT_HORIZONTAL else if e == CUT_HORIZONTAL then CUT_VERTICAL else e
  }

  // ----- counting cuts -----

  /** The number of cuts among the first k elements. */
  function Cuts(s: Expr, k: nat): (c: nat)
    requires k <= |s|
    ensures c <= k
  {
    if k == 0 then 0 else Cuts(s, k - 1) + (if IsCut(s[k - 1]) then 1 else 0)
  }

  lemma {:induction false} CutsAgree(s: Expr, t: Expr, k: nat)
    requires k <= |s| && k <= |t|
    requires forall i | 0 <= i < k :: IsCut(s[i]) <==> IsCut(t[i])
    ensures Cuts(s, k) == Cuts(t, k)
  {
    if k > 0 {
      CutsAgree(s, t, k - 1);
    }
  }

  lemma {:induction false} CutsGrow(s: Expr, i: nat, k: nat)
    requires i <= k <= |s|
    ensures Cuts(s, i) <= Cuts(s, k) <= Cuts(s, i) + (k - i)
    decreases k
  {
    if i < k {
      CutsGrow(s, i, k - 1);
    }
  }

  /** Exchanging the neighbours at p and p + 1 changes the count of one prefix only. */
  lemma {:induction false} CutsAfterExchange(s: Expr, p: nat, k: nat)
    requires p + 1 < |s| && k <= |s|
    ensures var t := s[p := s[p + 1]][p + 1 := s[p]];
            if k == p + 1 then Cuts(t, k) == Cuts(s, p) + (if IsCut(s[p + 1]) then 1 else 0)
            else Cuts(t, k) == Cuts(s, k)
    decreases k
  {
    var t := s[p := s[p + 1]][p + 1 := s[p]];
    if k > 0 {
      CutsAfterExchange(s, p, k - 1);
      if k == p + 1 {
        CutsAgree(s, t, p);
      } else if k == p + 2 {
        CutsAgree(s, t, p);
      }
    }
  }

  // ----- positions -----

  /** The three kinds of position that an expression caches. */
  datatype Kind = UnitKind | FlipKind | ChainKind

  /** Is i a position of this kind: a unit; an element whose right neighbour is of the other
      sort; the first cut of a maximal run of cuts. */
  predicate Marked(kind: Kind, s: Expr, i: int) {
    0 <= i < |s| &&
    match kind
    case UnitKind => !IsCut(s[i])
    case FlipKind => i + 1 < |s| && IsCut(s[i]) != IsCut(s[i + 1])
    case ChainKind => IsCut(s[i]) && (i == 0 || !IsCut(s[i - 1]))
  }

  /** The positions below k of one kind, in increasing order. */
  function Positions(kind: Kind, s: Expr, k: nat): seq<int> {
    if k == 0 then []
    else if Marked(kind, s, k - 1) then Positions(kind, s, k - 1) + [k - 1]
    else Positions(kind, s, k - 1)
  }

  lemma {:induction false} PositionsExact(kind: Kind, s: Expr, k: nat)
    ensures |Positions(kind, s, k)| <= k
    ensures forall i :: i in Positions(kind, s, k) <==> 0 <= i < k && Marked(kind, s, i)
    ensures forall a, b | 0 <= a < b < |Positions(kind, s, k)| ::
              Positions(kind, s, k)[a] < Positions(kind, s, k)[b]
  {
    if k > 0 {
      PositionsExact(kind, s, k - 1);
      var r := Positions(kind, s, k - 1);
      assert forall a | 0 <= a < |r| :: r[a] in r;
    }
  }

  /** Only where the cuts are matters to the cached positions. */
  lemma {:induction false} PositionsAgree(kind: Kind, s: Expr, t: Expr, k: nat)
    requires |s| == |t|
    requires forall i | 0 <= i < |s| :: IsCut(s[i]) <==> IsCut(t[i])
    ensures Positions(kind, s, k) == Positions(kind, t, k)
  {
    if k > 0 {
      PositionsAgree(kind, s, t, k - 1);
    }
  }

  lemma {:induction false} UnitCount(s: Expr, k: nat)
    requires k <= |s|
    ensures |Positions(UnitKind, s, k)| == k - Cuts(s, k)
  {
    if k > 0 {
      UnitCount(s, k - 1);
    }
  }

  lemma {:induction false} ChainCount(s: Expr, k: nat)
    requires k <= |s|
    ensures |Positions(ChainKind, s, k)| <= Cuts(s, k)
  {
    if k > 0 {
      ChainCount(s, k - 1);
    }
  }

  /** When a unit and its neighbouring cut change places, one cached unit position moves. */
  lemma {:induction false} UnitPositionsAfterExchange(s: Expr, p: nat, k: nat, j: nat)
    requires p + 1 < |s| && IsCut(s[p]) != IsCut(s[p + 1])
    requires j == |Positions(UnitKind, s, p)|
    requires k <= |s|
    ensures var t := s[p := s[p + 1]][p + 1 := s[p]];
            (k <= p ==> Positions(UnitKind, t, k) == Positions(UnitKind, s, k)) &&
            (k >= p + 2 ==> |Positions(UnitKind, s, k)| > j &&
                            Positions(UnitKind, s, k)[j] == (if IsCut(s[p]) then p + 1 else p) &&
                            Positions(UnitKind, t, k)
                              == Positions(UnitKind, s, k)[j := if IsCut(s[p]) then p else p + 1])
  {
    var t := s[p := s[p + 1]][p + 1 := s[p]];
    if k > 0 {
      UnitPositionsAfterExchange(s, p, k - 1, j);
      if k == p + 2 {
        UnitPositionsAfterExchange(s, p, p, j);
        assert Positions(UnitKind, s, p) == Positions(UnitKind, t, p);
        if IsCut(s[p]) {
          assert Positions(UnitKind, s, p + 1) == Positions(UnitKind, s, p);
          assert Positions(UnitKind, s, p + 2) == Positions(UnitKind, s, p) + [p + 1];
          assert Positions(UnitKind, t, p + 1) == Positions(UnitKind, s, p) + [p];
          assert Positions(UnitKind, t, p + 2) == Positions(UnitKind, s, p) + [p];
        } else {
          assert Positions(UnitKind, s, p + 1) == Positions(UnitKind, s, p) + [p];
          assert Positions(UnitKind, s, p + 2) == Positions(UnitKind, s, p) + [p];
          assert Positions(UnitKind, t, p + 1) == Positions(UnitKind, s, p);
          assert Positions(UnitKind, t, p + 2) == Positions(UnitKind, s, p) + [p + 1];
        }
      }
    }
  }

  /** Hence none of the caches changes when every cut stays a cut and every unit a unit. */
  lemma SameSignsSameCaches(s: Expr, t: Expr)
    requires |s| == |t|
    requires forall i | 0 <= i < |s| :: IsCut(s[i]) <==> IsCut(t[i])
    ensures forall kind :: Positions(kind, s, |s|) == Positions(kind, t, |t|)
    ensures forall k | 0 <= k <= |s| :: Cuts(s, k) == Cuts(t, k)
  {
    forall kind
      ensures Positions(kind, s, |s|) == Positions(kind, t, |t|)
    {
      PositionsAgree(kind, s, t, |s|);
    }
    forall k | 0 <= k <= |s|
      ensures Cuts(s, k) == Cuts(t, k)
    {
      CutsAgree(s, t, k);
    }
  }

  // ----- well-formed expressions -----

  /** No two adjacent cuts are equal. */
  predicate Normalized(s: Expr) {
    forall i | 0 <= i < |s| - 1 && IsCut(s[i]) :: s[i] != s[i + 1]
  }

  /** In every non-empty prefix the cuts are fewer than the units. */
  predicate Balloting(s: Expr) {
    forall k | 1 <= k <= |s| :: 2 * Cuts(s, k) < k
  }

  /** A normalized Polish expression over the units 0 .. n - 1. */
  ghost predicate IsNpe(s: Expr, n: nat) {
    n >= 2 && |s| == 2 * n - 1 &&
    (forall i | 0 <= i < |s| :: s[i] < n) &&
    (forall i | 0 <= i < |s| && IsCut(s[i]) :: s[i] == CUT_VERTICAL || s[i] == CUT_HORIZONTAL) &&
    (forall u | 0 <= u < n :: multiset(s)[u] == 1) &&
    Cuts(s, |s|) == n - 1 &&
    Balloting(s) &&
    Normalized(s)
  }

  // ----- the starting expression -----

  /** 0, 1, V, 2, V, ..., n - 1, V */
  function Initial(n: nat): (s: Expr)
    requires n >= 1
    ensures |s| == 2 * n - 1
  {
    if n == 1 then [0] else Initial(n - 1) + [n - 1, CUT_VERTICAL]
  }

  lemma {:induction false} InitialShape(n: nat)
    requires n >= 1
    ensures var s := Initial(n);
            s[0] == 0 &&
            (forall i | 0 <= i < |s| && i % 2 == 1 :: s[i] == (i + 1) / 2) &&
            (forall i | 0 < i < |s| && i % 2 == 0 :: s[i] == CUT_VERTICAL)
  {
    if n > 1 {
      InitialShape(n - 1);
    }
  }

  lemma {:induction false} InitialUnits(n: nat)
    requires n >= 1
    ensures forall i | 0 <= i < 2 * n - 1 :: Initial(n)[i] < n
    ensures forall u | 0 <= u < n :: multiset(Initial(n))[u] == 1
  {
    if n > 1 {
      InitialUnits(n - 1);
      var r := Initial(n - 1);
      assert (n - 1) !in multiset(r);
      assert multiset(Initial(n)) == multiset(r) + multiset([n - 1, CUT_VERTICAL]);
    }
  }

  lemma {:induction false} InitialCuts(n: nat, k: nat)
    requires n >= 1 && k <= 2 * n - 1
    ensures Cuts(Initial(n), k) == if k == 0 then 0 else (k - 1) / 2
    decreases k
  {
    if k > 0 {
      InitialCuts(n, k - 1);
      InitialShape(n);
    }
  }

  lemma InitialIsNpe(n: nat)
    requires n >= 2
    ensures IsNpe(Initial(n), n)
  {
    hide Initial;
    InitialShape(n);
    InitialUnits(n);
    var s := Initial(n);
    forall k | 0 <= k <= |s|
      ensures Cuts(s, k) == if k == 0 then 0 else (k - 1) / 2
    {
      InitialCuts(n, k);
    }
  }

  // ----- the three moves -----

  /** The first unit at or after position i, or |s|. */
  function NextUnit(s: Expr, i: nat): (j: nat)
    requires i <= |s|
    ensures i <= j <= |s|
    ensures forall k | i <= k < j :: IsCut(s[k])
    ensures j < |s| ==> !IsCut(s[j])
    decreases |s| - i
  {
    if i < |s| && IsCut(s[i]) then NextUnit(s, i + 1) else i
  }

  /** M1: exchange the unit at p with the next unit to its right. */
  function SwapUnits(s: Expr, p: nat): Expr
    requires p < |s| && NextUnit(s, p + 1) < |s|
  {
    var j := NextUnit(s, p + 1);
    s[p := s[j]][j := s[p]]
  }

  /** M2: invert every cut of the run that starts at p. */
  function InvertChain(s: Expr, p: nat): (t: Expr)
    requires p < |s|
    ensures |t| == |s|
    ensures forall i | 0 <= i < |s| ::
              t[i] == if p <= i < NextUnit(s, p) then FlipCut(s[i]) else s[i]
  {
    seq(|s|, i requires 0 <= i < |s| => if p <= i < NextUnit(s, p) then FlipCut(s[i]) else s[i])
  }

  /** M3: exchange the unit and the cut at p and p + 1. */
  function SwapCutUnit(s: Expr, p: nat): Expr
    requires p + 1 < |s|
  {
    s[p := s[p + 1]][p + 1 := s[p]]
  }

  /** The guards under which NPE_swap_cut_unit goes through with the exchange. */
  predicate SwapCutUnitLegal(s: Expr, p: nat)
    requires 0 < p < |s| - 1
  {
    if !IsCut(s[p]) then
      s[p - 1] != s[p + 1] && 2 * Cuts(s, p + 2) < p + 1
    else
      !(p < |s| - 2 && s[p] == s[p + 2])
  }

  datatype Move = M1(pos: nat) | M2(pos: nat) | M3(pos: nat)

  /** The positions at which make_random_move tries each move, with the guards of M3. */
  predicate Enabled(m: Move, s: Expr) {
    match m
    case M1(p) => Marked(UnitKind, s, p) && NextUnit(s, p + 1) < |s|
    case M2(p) => Marked(ChainKind, s, p)
    case M3(p) => Marked(FlipKind, s, p) && 0 < p < |s| - 1 && SwapCutUnitLegal(s, p)
  }

  function Apply(m: Move, s: Expr): (t: Expr)
    requires Enabled(m, s)
    ensures |t| == |s|
  {
    match m
    case M1(p) => SwapUnits(s, p)
    case M2(p) => InvertChain(s, p)
    case M3(p) => SwapCutUnit(s, p)
  }

  lemma {:induction false} SameUnitCounts(s: Expr, t: Expr, u: int)
    requires |s| == |t| && u >= 0
    requires forall i | 0 <= i < |s| :: s[i] == t[i] || (IsCut(s[i]) && IsCut(t[i]))
    ensures multiset(s)[u] == multiset(t)[u]
  {
    if |s| > 0 {
      var m := |s| - 1;
      assert s == s[..m] + [s[m]] && t == t[..m] + [t[m]];
      SameUnitCounts(s[..m], t[..m], u);
    }
  }

  lemma NextUnitBeyond(s: Expr, i: nat, k: nat)
    requires i <= k < |s|
    requires forall q | i <= q <= k :: IsCut(s[q])
    ensures NextUnit(s, i) > k
  {
  }

  lemma NextUnitUnique(s: Expr, i: nat, j: nat)
    requires i <= j <= |s|
    requires forall k | i <= k < j :: IsCut(s[k])
    requires j < |s| ==> !IsCut(s[j])
    ensures NextUnit(s, i) == j
  {
  }

  /** M1 moves no cut. */
  lemma SwapUnitsKeeps(s: Expr, p: nat, n: nat)
    requires IsNpe(s, n) && Enabled(M1(p), s)
    ensures IsNpe(SwapUnits(s, p), n)
  {
    hide Balloting, Normalized;
    var t := SwapUnits(s, p);
    assert SameCuts(s, t) && multiset(t) == multiset(s);
    SameCutsKeep(s, t, n);
  }

  /** Moving units among the places of units keeps everything. */
  lemma SameCutsKeep(s: Expr, t: Expr, n: nat)
    requires IsNpe(s, n) && SameCuts(s, t) && multiset(t) == multiset(s)
    requires forall i | 0 <= i < |s| && IsCut(s[i]) :: t[i] == s[i]
    ensures IsNpe(t, n)
  {
    SameCutsSameCounts(s, t);
    forall i | 0 <= i < |t|
      ensures t[i] < n
    {
      assert t[i] in multiset(s);
    }
    assert Normalized(t) by {
      forall i | 0 <= i < |t| - 1 && IsCut(t[i])
        ensures t[i] != t[i + 1]
      {
        assert IsCut(s[i]) && t[i] == s[i];
      }
    }
  }

  /** Cuts are in the same places. */
  ghost predicate SameCuts(s: Expr, t: Expr) {
    |t| == |s| && forall i | 0 <= i < |s| :: IsCut(s[i]) <==> IsCut(t[i])
  }

  lemma SameCutsSameCounts(s: Expr, t: Expr)
    requires SameCuts(s, t)
    ensures forall k | 0 <= k <= |s| :: Cuts(t, k) == Cuts(s, k)
  {
    forall k | 0 <= k <= |s|
      ensures Cuts(t, k) == Cuts(s, k)
    {
      CutsAgree(s, t, k);
    }
  }

  /** M2 keeps every cut a cut, and flips a whole maximal run. */
  lemma InvertChainKeeps(s: Expr, p: nat, n: nat)
    requires IsNpe(s, n) && Enabled(M2(p), s)
    ensures IsNpe(InvertChain(s, p), n)
  {
    var t := InvertChain(s, p);
    assert SameCuts(s, t);
    SameCutsSameCounts(s, t);
    forall u | 0 <= u < n
      ensures multiset(t)[u] == 1
    {
      SameUnitCounts(s, t, u);
    }
    forall i | 0 <= i < |t| - 1 && IsCut(t[i])
      ensures t[i] != t[i + 1]
    {
      assert s[i] != s[i + 1];
    }
  }

  /** The two guards of M3 are just what normalization and balloting need. */
  lemma SwapCutUnitKeeps(s: Expr, p: nat, n: nat)
    requires IsNpe(s, n) && Enabled(M3(p), s)
    ensures IsNpe(SwapCutUnit(s, p), n)
  {
    var t := SwapCutUnit(s, p);
    forall k | 0 <= k <= |s|
      ensures k != p + 1 ==> Cuts(t, k) == Cuts(s, k)
      ensures k >= 1 ==> 2 * Cuts(t, k) < k
    {
      CutsAfterExchange(s, p, k);
      if k == p + 1 {
        assert Cuts(s, p + 2) == Cuts(s, p) + 1;
      }
    }
    assert multiset(t) == multiset(s);
    forall i | 0 <= i < |t| - 1 && IsCut(t[i])
      ensures t[i] != t[i + 1]
    {
      if i + 1 == p {
        assert t[i] == s[p - 1] && t[i + 1] == s[p + 1];
      } else if i == p {
      } else if i == p + 1 {
        assert t[i] == s[p];
      } else {
        assert s[i] != s[i + 1];
      }
    }
  }

  /** M3 with its guards refused would leave the well-formed expressions: the guards are exact. */
  lemma SwapCutUnitGuardsExact(s: Expr, p: nat, n: nat)
    requires IsNpe(s, n) && Marked(FlipKind, s, p)
    ensures 0 < p < |s| - 1
    ensures SwapCutUnitLegal(s, p) <==> IsNpe(SwapCutUnit(s, p), n)
  {
    FirstTwoAreUnits(s, n);
    if SwapCutUnitLegal(s, p) {
      SwapCutUnitKeeps(s, p, n);
    } else {
      var t := SwapCutUnit(s, p);
      CutsAfterExchange(s, p, p + 1);
      if !IsCut(s[p]) {
        assert Cuts(s, p + 2) == Cuts(s, p) + 1;
        if s[p - 1] == s[p + 1] {
          assert t[p - 1] == t[p] && IsCut(t[p - 1]);
        } else {
          assert 2 * Cuts(t, p + 1) >= p + 1;
        }
      } else {
        assert t[p + 1] == t[p + 2] && IsCut(t[p + 1]);
      }
    }
  }

  lemma FirstTwoAreUnits(s: Expr, n: nat)
    requires IsNpe(s, n)
    ensures |s| >= 3 && !IsCut(s[0]) && !IsCut(s[1])
  {
    assert Cuts(s, 1) == Cuts(s, 0) + if IsCut(s[0]) then 1 else 0;
    assert 2 * Cuts(s, 1) < 1;
    assert Cuts(s, 2) == Cuts(s, 1) + if IsCut(s[1]) then 1 else 0;
    assert 2 * Cuts(s, 2) < 2;
  }

  /** The first cut at or after position i. */
  function NextCut(s: Expr, i: nat): (j: nat)
    requires i < |s| && IsCut(s[|s| - 1])
    ensures i <= j < |s| && IsCut(s[j])
    ensures forall k | i <= k < j :: !IsCut(s[k])
    decreases |s| - i
  {
    if IsCut(s[i]) then i else NextCut(s, i + 1)
  }

  lemma LastIsCut(s: Expr, n: nat)
    requires IsNpe(s, n)
    ensures IsCut(s[|s| - 1])
  {
    assert Cuts(s, |s|) == Cuts(s, |s| - 1) + if IsCut(s[|s| - 1]) then 1 else 0;
    assert 2 * Cuts(s, |s| - 1) < |s| - 1;
  }

  /** Every enabled move keeps the expression a normalized Polish expression. */
  lemma MoveKeepsNpe(m: Move, s: Expr, n: nat)
    requires IsNpe(s, n) && Enabled(m, s)
    ensures IsNpe(Apply(m, s), n)
  {
    match m
    case M1(p) => SwapUnitsKeeps(s, p, n);
    case M2(p) => InvertChainKeeps(s, p, n);
    case M3(p) => SwapCutUnitKeeps(s, p, n);
  }

  lemma SwapUnitsUndoesItself(s: Expr, p: nat)
    requires Enabled(M1(p), s)
    ensures Enabled(M1(p), SwapUnits(s, p)) && SwapUnits(SwapUnits(s, p), p) == s
  {
    NextUnitUnique(SwapUnits(s, p), p + 1, NextUnit(s, p + 1));
  }

  lemma InvertChainUndoesItself(s: Expr, p: nat, n: nat)
    requires IsNpe(s, n) && Enabled(M2(p), s)
    ensures Enabled(M2(p), InvertChain(s, p)) && InvertChain(InvertChain(s, p), p) == s
  {
    NextUnitUnique(InvertChain(s, p), p, NextUnit(s, p));
  }

  /** Going back, the guards of M3 ask for the normalization and the balloting that s had. */
  lemma SwapCutUnitUndoesItself(s: Expr, p: nat, n: nat)
    requires IsNpe(s, n) && Enabled(M3(p), s)
    ensures Enabled(M3(p), SwapCutUnit(s, p)) && SwapCutUnit(SwapCutUnit(s, p), p) == s
  {
    var t := SwapCutUnit(s, p);
    CutsAfterExchange(s, p, p + 2);
    assert 2 * Cuts(s, p + 1) < p + 1;
    assert Cuts(s, p + 2) == Cuts(s, p + 1) + if IsCut(s[p + 1]) then 1 else 0;
    assert IsCut(s[p - 1]) ==> s[p - 1] != s[p];
    assert IsCut(s[p + 1]) && p < |s| - 2 ==> s[p + 1] != s[p + 2];
  }

  /** The same move at the same place is enabled again and takes the expression back. */
  lemma MoveUndoesItself(m: Move, s: Expr, n: nat)
    requires IsNpe(s, n) && Enabled(m, s)
    ensures Enabled(m, Apply(m, s))
    ensures Apply(m, Apply(m, s)) == s
  {
    match m
    case M1(p) => SwapUnitsUndoesItself(s, p);
    case M2(p) => InvertChainUndoesItself(s, p, n);
    case M3(p) => SwapCutUnitUndoesItself(s, p, n);
  }

  // ----- runs of moves -----

  /** The expressions passed through, from the first to the last, each by one enabled move. */
  ghost predicate IsRun(run: seq<Expr>, moves: seq<Move>) {
    |run| == |moves| + 1 &&
    forall i | 0 <= i < |moves| :: Enabled(moves[i], run[i]) && run[i + 1] == Apply(moves[i], run[i])
  }

  ghost predicate Reachable(s: Expr, t: Expr) {
    exists run, moves :: IsRun(run, moves) && run[0] == s && run[|run| - 1] == t
  }

  lemma ReachesItself(s: Expr)
    ensures Reachable(s, s)
  {
    assert IsRun([s], []) && [s][0] == s;
  }

  lemma ReachesNext(s: Expr, t: Expr, m: Move)
    requires Reachable(s, t) && Enabled(m, t)
    ensures Reachable(s, Apply(m, t))
  {
    var run, moves :| IsRun(run, moves) && run[0] == s && run[|run| - 1] == t;
    var longer := run + [Apply(m, t)];
    assert IsRun(longer, moves + [m]) && longer[0] == s;
  }

  lemma {:induction false} RunKeepsNpe(run: seq<Expr>, moves: seq<Move>, n: nat, k: nat)
    requires IsRun(run, moves) && IsNpe(run[0], n) && k < |run|
    ensures IsNpe(run[k], n)
  {
    if k > 0 {
      RunKeepsNpe(run, moves, n, k - 1);
      MoveKeepsNpe(moves[k - 1], run[k - 1], n);
    }
  }

  /** Whatever can be reached from the starting expression is a normalized Polish expression. */
  lemma ReachableIsNpe(n: nat, t: Expr)
    requires n >= 2 && Reachable(Initial(n), t)
    ensures IsNpe(t, n)
  {
    InitialIsNpe(n);
    var run, moves :| IsRun(run, moves) && run[0] == Initial(n) && run[|run| - 1] == t;
    RunKeepsNpe(run, moves, n, |run| - 1);
  }

  function Reversed<T>(s: seq<T>): (r: seq<T>)
    ensures |r| == |s|
    ensures forall i | 0 <= i < |s| :: r[i] == s[|s| - 1 - i]
  {
    if s == [] then [] else Reversed(s[1..]) + [s[0]]
  }

  /** A run read backwards is a run, made of the same moves in the opposite order. */
  lemma RunReverses(run: seq<Expr>, moves: seq<Move>, n: nat)
    requires IsRun(run, moves) && IsNpe(run[0], n)
    ensures IsRun(Reversed(run), Reversed(moves))
  {
    var back, undo := Reversed(run), Reversed(moves);
    forall i | 0 <= i < |undo|
      ensures Enabled(undo[i], back[i]) && back[i + 1] == Apply(undo[i], back[i])
    {
      var k := |moves| - 1 - i;
      RunKeepsNpe(run, moves, n, k);
      MoveUndoesItself(moves[k], run[k], n);
      assert undo[i] == moves[k] && back[i] == run[k + 1] && back[i + 1] == run[k];
    }
  }

  lemma ReachabilitySymmetric(s: Expr, t: Expr, n: nat)
    requires IsNpe(s, n) && Reachable(s, t)
    ensures IsNpe(t, n) && Reachable(t, s)
  {
    var run, moves :| IsRun(run, moves) && run[0] == s && run[|run| - 1] == t;
    RunKeepsNpe(run, moves, n, |run| - 1);
    RunReverses(run, moves, n);
    var back := Reversed(run);
    assert back[0] == t && back[|back| - 1] == s;
  }
}
