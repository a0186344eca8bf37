/** The expression object of HotSpot/npe.c: the element array, edited in place by the three
    moves, and the four position caches kept beside it. */
module NpeState {
  import opened PolishExpression

  /** How often make_random_move tries before it gives up (HotSpot/flp.h). */
  const MAX_MOVES: nat := 16

  class Npe {
    const elements: array<int>
    const unitPos: array<int>
    var nUnits: nat
    const flipPos: array<int>
    var nFlips: nat
    const chainPos: array<int>
    var nChains: nat
    const ballotCount: array<int>

    ghost function Repr(): set<object> {
      {this, elements, unitPos, flipPos, chainPos, ballotCount}
    }

    /** The arrays are separate and have the sizes that NPE_get_initial gives them. */
    ghost predicate Shaped() {
      elements != unitPos && elements != flipPos && elements != chainPos && elements != ballotCount &&
      unitPos != flipPos && unitPos != chainPos && unitPos != ballotCount &&
      flipPos != chainPos && flipPos != ballotCount && chainPos != ballotCount &&
      elements.Length == flipPos.Length == ballotCount.Length &&
      elements.Length == 2 * unitPos.Length - 1 &&
      chainPos.Length == unitPos.Length - 1
    }

    ghost predicate UnitsCached()
      requires Shaped()
      reads this, elements, unitPos
    {
      nUnits <= unitPos.Length && unitPos[..nUnits] == Positions(UnitKind, elements[..], elements.Length)
    }

    ghost predicate FlipsCached()
      requires Shaped()
      reads this, elements, flipPos
    {
      nFlips <= flipPos.Length && flipPos[..nFlips] == Positions(FlipKind, elements[..], elements.Length)
    }

    ghost predicate ChainsCached()
      requires Shaped()
      reads this, elements, chainPos
    {
      nChains <= chainPos.Length && chainPos[..nChains] == Positions(ChainKind, elements[..], elements.Length)
    }

    ghost predicate BallotsCached()
      requires Shaped()
      reads elements, ballotCount
    {
      forall i | 0 <= i < elements.Length :: ballotCount[i] == Cuts(elements[..], i + 1)
    }

    /** Each cache holds what a fresh recomputation would give. */
    ghost predicate Cached()
      requires Shaped()
      reads Repr()
    {
      UnitsCached() && FlipsCached() && ChainsCached() && BallotsCached()
    }

    /** A normalized Polish expression over unitPos.Length units, with its caches up to date. */
    ghost predicate Valid()
      reads Repr()
    {
      Shaped() && IsNpe(elements[..], unitPos.Length) && Cached()
    }

    /** The allocation of NPE_get_initial and NPE_duplicate, before anything is filled in. */
    constructor Allocate(n: nat)
      requires n >= 1
      ensures Shaped() && unitPos.Length == n
      ensures fresh(Repr())
    {
      elements := new int[2 * n - 1];
      unitPos := new int[n];
      flipPos := new int[2 * n - 1];
      chainPos := new int[n - 1];
      ballotCount := new int[2 * n - 1];
      nUnits, nFlips, nChains := 0, 0, 0;
    }

    /** The loop of NPE_get_initial that writes 0, 1, V, 2, V, ... */
    method FillInitial()
      requires Shaped()
      modifies elements
      ensures elements[..] == PolishExpression.Initial(unitPos.Length)
    {
      elements[0] := 0;
      var i := 1;
      while i < elements.Length
        invariant 1 <= i <= elements.Length && i % 2 == 1
        invariant elements[0] == 0
        invariant forall k | 0 <= k < i && k % 2 == 1 :: elements[k] == (k + 1) / 2
        invariant forall k | 0 < k < i && k % 2 == 0 :: elements[k] == CUT_VERTICAL
      {
        elements[i] := (i + 1) / 2;
        elements[i + 1] := CUT_VERTICAL;
        i := i + 2;
      }
      InitialShape(unitPos.Length);
    }

    method FillUnitPos()
      requires Shaped()
      requires Cuts(elements[..], elements.Length) >= unitPos.Length - 1
      modifies this`nUnits, unitPos
      ensures UnitsCached()
    {
      ghost var s := elements[..];
      var j := 0;
      for i := 0 to elements.Length
        invariant 0 <= j <= unitPos.Length && elements[..] == s
        invariant unitPos[..j] == Positions(UnitKind, s, i)
      {
        if elements[i] >= 0 {
          UnitCount(s, i + 1);
          CutsGrow(s, i + 1, |s|);
          unitPos[j] := i;
          j := j + 1;
        }
      }
      nUnits := j;
    }

    method FillFlipPos()
      requires Shaped()
      modifies this`nFlips, flipPos
      ensures FlipsCached()
    {
      ghost var s := elements[..];
      var j := 0;
      for i := 0 to elements.Length - 1
        invariant 0 <= j <= i && elements[..] == s
        invariant flipPos[..j] == Positions(FlipKind, s, i)
      {
        if (elements[i] < 0 && elements[i + 1] >= 0) || (elements[i] >= 0 && elements[i + 1] < 0) {
          flipPos[j] := i;
          j := j + 1;
        }
      }
      nFlips := j;
    }

    /** The rest of a run of cuts; it fails where two equal cuts are neighbours. */
    method SkipRun(start: nat) returns (ok: bool, end: nat)
      requires start < elements.Length && IsCut(elements[start])
      ensures ok ==> RunOfCuts(elements[..], start, end)
      ensures !ok ==> !Normalized(elements[..])
    {
      ghost var s := elements[..];
      var prev := elements[start];
      end := start + 1;
      while end < elements.Length && elements[end] < 0
        invariant start < end <= elements.Length && prev == s[end - 1]
        invariant forall q | start <= q < end :: IsCut(s[q])
        invariant forall q | start <= q < end - 1 :: s[q] != s[q + 1]
      {
        if elements[end] == prev {
          assert s[end - 1] == s[end];
          return false, end;
        }
        prev := elements[end];
        end := end + 1;
      }
      return true, end;
    }

    /** Succeeds exactly on normalized expressions; the source aborts with "NPE not normalized"
        where this returns false. */
    method FillChainPos() returns (ok: bool)
      requires Shaped()
      requires Cuts(elements[..], elements.Length) <= chainPos.Length
      modifies this`nChains, chainPos
      ensures ok <==> Normalized(elements[..])
      ensures ok ==> ChainsCached()
      ensures !ok ==> nChains == old(nChains)
    {
      hide Positions, Cuts, NoEqualCuts, AfterRun, RunOfCuts, Normalized;
      ghost var s := elements[..];
      var i, j := 0, 0;
      NothingYet(s);
      while i < elements.Length
        invariant i <= elements.Length && j <= chainPos.Length && elements[..] == s && nChains == old(nChains)
        invariant chainPos[..j] == Positions(ChainKind, s, i) && NoEqualCuts(s, i) && AfterRun(s, i)
      {
        if elements[i] < 0 {
          RunStarts(s, i);
          chainPos[j] := i;
          j := j + 1;
          var inOrder, end := SkipRun(i);
          if !inOrder {
            return false;
          }
          RunEnds(s, i, end);
          i := end;
        } else {
          UnitPassed(s, i);
          i := i + 1;
        }
      }
      NoneEqual(s);
      nChains := j;
      return true;
    }

    method FillBallotCount()
      requires Shaped()
      modifies ballotCount
      ensures BallotsCached()
    {
      ghost var s := elements[..];
      var count := 0;
      for i := 0 to elements.Length
        invariant elements[..] == s
        invariant count == Cuts(s, i)
        invariant forall q | 0 <= q < i :: ballotCount[q] == Cuts(s, q + 1)
      {
        if elements[i] < 0 {
          count := count + 1;
        }
        ballotCount[i] := count;
      }
    }

    /** Move M1. Fails, touching nothing, exactly when there is no unit to the right; the source
        aborts then. No cache is recomputed, and none needs to be. */
    method SwapUnits(pos: nat) returns (ok: bool)
      requires Shaped() && Cached() && Marked(UnitKind, elements[..], pos)
      modifies elements
      ensures ok <==> NextUnit(old(elements[..]), pos + 1) < elements.Length
      ensures ok ==> elements[..] == PolishExpression.SwapUnits(old(elements[..]), pos)
      ensures !ok ==> elements[..] == old(elements[..])
      ensures Cached()
    {
      ghost var s := elements[..];
      var i := pos + 1;
      while i < elements.Length && elements[i] < 0
        invariant pos < i <= elements.Length
        invariant forall k | pos < k < i :: IsCut(s[k])
      {
        i := i + 1;
      }
      NextUnitUnique(s, pos + 1, i);
      if i >= elements.Length {
        return false;
      }
      var t := elements[pos];
      elements[pos] := elements[i];
      elements[i] := t;
      SameSignsSameCaches(s, elements[..]);
      return true;
    }

    /** An element is replaced by the other cut; it fails where the element is no known cut. */
    method FlipOne(i: nat) returns (known: bool)
      requires i < elements.Length
      modifies elements
      ensures known <==> KnownCut(old(elements[i]))
      ensures elements[..] == old(elements[..])[i := FlipCut(old(elements[i]))]
    {
      known := true;
      if elements[i] == CUT_VERTICAL {
        elements[i] := CUT_HORIZONTAL;
      } else if elements[i] == CUT_HORIZONTAL {
        elements[i] := CUT_VERTICAL;
      } else {
        known := false;
      }
    }

    /** Move M2. Fails exactly when the run of cuts at pos holds an unknown cut or two equal
        neighbours; the source aborts then. */
    method InvertChain(pos: nat) returns (ok: bool)
      requires Shaped() && Cached() && pos < elements.Length
      modifies elements
      ensures ok <==> IsCut(old(elements[pos])) && ChainProper(old(elements[..]), pos)
      ensures ok ==> elements[..] == PolishExpression.InvertChain(old(elements[..]), pos)
      ensures ok ==> Cached()
    {
      hide Balloting, Positions, Cuts, RunFlipped, ChainProper, FlipCut, PolishExpression.InvertChain;
      ghost var s := elements[..];
      var i, prev := pos + 1, elements[pos];
      var known := FlipOne(pos);
      if !known {
        NotKnown(s, pos, pos);
        return false;
      }
      FlipStarts(s, elements[..], pos);
      while i < elements.Length && elements[i] < 0
        invariant i <= elements.Length && RunFlipped(s, elements[..], pos, i)
        invariant prev == s[i - 1]
      {
        RestKept(s, elements[..], pos, i);
        if elements[i] == prev {
          EqualCuts(s, elements[..], pos, i);
          return false;
        }
        prev := elements[i];
        ghost var t := elements[..];
        known := FlipOne(i);
        if !known {
          UnknownLater(s, t, pos, i);
          return false;
        }
        FlipStep(s, t, pos, i);
        i := i + 1;
      }
      if i < elements.Length {
        RestKept(s, elements[..], pos, i);
      }
      RunInverted(s, elements[..], pos, i);
      return true;
    }

    /** Binary search of the cached unit positions; the one that equals pos moves by delta. */
    method UpdateUnitPos(pos: int, delta: int, start: int, end: int) returns (found: bool)
      requires Shaped()
      requires 0 <= start <= end + 1 <= unitPos.Length
      requires forall a, b | start <= a < b <= end :: unitPos[a] < unitPos[b]
      modifies unitPos
      ensures found <==> exists k :: start <= k <= end && old(unitPos[k]) == pos
      ensures forall k | 0 <= k < unitPos.Length ::
                unitPos[k] == old(unitPos[k]) + if start <= k <= end && old(unitPos[k]) == pos then delta else 0
      decreases end - start + 1
    {
      if start > end {
        return false;
      }
      var mid := (start + end) / 2;
      if unitPos[mid] == pos {
        unitPos[mid] := unitPos[mid] + delta;
        return true;
      } else if unitPos[mid] > pos {
        found := UpdateUnitPos(pos, delta, start, mid - 1);
      } else {
        found := UpdateUnitPos(pos, delta, mid + 1, end);
      }
    }

    /** Move M3 on a well-formed expression with current caches: at a flip position neither
        abort of the source is reached, and the exchange is made exactly when it leaves a
        well-formed expression; otherwise nothing at all changes. */
    method SwapCutUnit(pos: nat) returns (legal: bool)
      requires Valid() && Marked(FlipKind, elements[..], pos)
      modifies Repr()
      ensures Valid()
      ensures legal <==> IsNpe(PolishExpression.SwapCutUnit(old(elements[..]), pos), unitPos.Length)
      ensures legal <==> Enabled(M3(pos), old(elements[..]))
      ensures legal ==> elements[..] == PolishExpression.SwapCutUnit(old(elements[..]), pos)
      ensures !legal ==> elements[..] == old(elements[..]) && unitPos[..] == old(unitPos[..]) &&
                         flipPos[..] == old(flipPos[..]) && chainPos[..] == old(chainPos[..]) &&
                         ballotCount[..] == old(ballotCount[..]) &&
                         nUnits == old(nUnits) && nFlips == old(nFlips) && nChains == old(nChains)
    {
      hide Marked, IsNpe, FlipsCached, ChainsCached, Positions, Cuts;
      ghost var s := elements[..];
      ghost var n := unitPos.Length;
      SwapCutUnitGuardsExact(s, pos, n);
      UnitPositionsSorted(s);
      ghost var was, ballots := unitPos[..nUnits], ballotCount[..];
      ghost var at := UnitEntry(s, pos);
      if elements[pos] >= 0 {
        if elements[pos - 1] == elements[pos + 1] {
          return false;
        }
        if 2 * ballotCount[pos + 1] >= pos + 1 {
          return false;
        }
        var found := UpdateUnitPos(pos, 1, 0, nUnits - 1);
        assert found;
        ballotCount[pos] := ballotCount[pos] + 1;
      } else {
        if pos < elements.Length - 2 && elements[pos] == elements[pos + 2] {
          return false;
        }
        var found := UpdateUnitPos(pos + 1, -1, 0, nUnits - 1);
        assert found;
        ballotCount[pos] := ballotCount[pos] - 1;
      }
      MovedUnitCached(s, pos, was, unitPos[..nUnits]);
      MovedBallotsCached(s, pos, ballots, ballotCount[..]);
      MoveElement(pos);
      return true;
    }

    /** The end of NPE_swap_cut_unit: the exchange itself and the two recomputed caches. */
    method MoveElement(pos: nat)
      requires Shaped() && pos + 1 < elements.Length
      requires var t := PolishExpression.SwapCutUnit(elements[..], pos);
               IsNpe(t, unitPos.Length) &&
               nUnits <= unitPos.Length && unitPos[..nUnits] == Positions(UnitKind, t, |t|) &&
               forall i | 0 <= i < |t| :: ballotCount[i] == Cuts(t, i + 1)
      modifies this`nFlips, this`nChains, elements, flipPos, chainPos
      ensures Valid()
      ensures elements[..] == PolishExpression.SwapCutUnit(old(elements[..]), pos)
    {
      ghost var s := elements[..];
      var t := elements[pos];
      elements[pos] := elements[pos + 1];
      elements[pos + 1] := t;
      assert elements[..] == PolishExpression.SwapCutUnit(s, pos);
      FillFlipPos();
      var ok := FillChainPos();
    }
  }

  // ----- runs of cuts -----

  /** A run of cuts up to a unit or the end, no two neighbours being equal. */
  ghost predicate RunOfCuts(s: Expr, start: nat, end: nat) {
    start < end <= |s| && (forall q | start <= q < end :: IsCut(s[q])) && (end < |s| ==> !IsCut(s[end])) &&
    forall q | start <= q < end - 1 :: s[q] != s[q + 1]
  }

  /** No equal cuts are neighbours, as far as the first i elements tell. */
  ghost predicate NoEqualCuts(s: Expr, i: nat) {
    forall q | 0 <= q < i && q < |s| - 1 && IsCut(s[q]) :: s[q] != s[q + 1]
  }

  /** A run of cuts that begins at i does not begin before it. */
  ghost predicate AfterRun(s: Expr, i: nat) {
    0 < i < |s| && IsCut(s[i]) ==> !IsCut(s[i - 1])
  }

  lemma NothingYet(s: Expr)
    ensures Positions(ChainKind, s, 0) == [] && NoEqualCuts(s, 0) && AfterRun(s, 0)
  {
  }

  lemma RunStarts(s: Expr, i: nat)
    requires i < |s| && IsCut(s[i]) && AfterRun(s, i)
    ensures |Positions(ChainKind, s, i)| < Cuts(s, |s|)
  {
    ChainCount(s, i + 1);
    CutsGrow(s, i + 1, |s|);
  }

  lemma {:induction false} RunEnds(s: Expr, start: nat, end: nat)
    requires RunOfCuts(s, start, end) && AfterRun(s, start) && NoEqualCuts(s, start)
    ensures Positions(ChainKind, s, end) == Positions(ChainKind, s, start) + [start] && NoEqualCuts(s, end)
    ensures AfterRun(s, end)
  {
    RunIsOne(s, start, end);
  }

  lemma {:induction false} RunIsOne(s: Expr, start: nat, end: nat)
    requires start < end <= |s| && AfterRun(s, start) && forall q | start <= q < end :: IsCut(s[q])
    ensures Positions(ChainKind, s, end) == Positions(ChainKind, s, start) + [start]
  {
    if start < end - 1 {
      RunIsOne(s, start, end - 1);
    }
  }

  lemma UnitPassed(s: Expr, i: nat)
    requires i < |s| && !IsCut(s[i]) && NoEqualCuts(s, i)
    ensures Positions(ChainKind, s, i + 1) == Positions(ChainKind, s, i) && NoEqualCuts(s, i + 1) && AfterRun(s, i + 1)
  {
  }

  lemma NoneEqual(s: Expr)
    requires NoEqualCuts(s, |s|)
    ensures Normalized(s)
  {
  }

  /** The cuts from pos up to i are known, no two neighbours are equal, and they are flipped. */
  ghost predicate RunFlipped(s: Expr, t: Expr, pos: nat, i: nat) {
    pos < i <= |s| == |t| && (forall k | pos <= k < i :: IsCut(s[k]) && KnownCut(s[k])) &&
    (forall k | pos < k < i :: s[k] != s[k - 1]) &&
    forall k | 0 <= k < |s| :: t[k] == if pos <= k < i then FlipCut(s[k]) else s[k]
  }

  lemma FlipStarts(s: Expr, t: Expr, pos: nat)
    requires pos < |s| && KnownCut(s[pos]) && t == s[pos := FlipCut(s[pos])]
    ensures RunFlipped(s, t, pos, pos + 1)
  {
  }

  lemma RestKept(s: Expr, t: Expr, pos: nat, i: nat)
    requires RunFlipped(s, t, pos, i) && i < |s|
    ensures t[i] == s[i]
  {
  }

  lemma FlipStep(s: Expr, t: Expr, pos: nat, i: nat)
    requires RunFlipped(s, t, pos, i) && i < |s| && KnownCut(s[i]) && s[i] != s[i - 1]
    ensures RunFlipped(s, t[i := FlipCut(s[i])], pos, i + 1)
  {
  }

  lemma NotKnown(s: Expr, pos: nat, i: nat)
    requires pos <= i < |s| && !KnownCut(s[i]) && forall k | pos <= k <= i :: i == pos || IsCut(s[k])
    ensures !(IsCut(s[pos]) && ChainProper(s, pos))
  {
    if IsCut(s[pos]) {
      NextUnitBeyond(s, pos, i);
    }
  }

  lemma UnknownLater(s: Expr, t: Expr, pos: nat, i: nat)
    requires RunFlipped(s, t, pos, i) && i < |s| && IsCut(s[i]) && !KnownCut(s[i])
    ensures !ChainProper(s, pos)
  {
    NextUnitBeyond(s, pos, i);
  }

  lemma EqualCuts(s: Expr, t: Expr, pos: nat, i: nat)
    requires RunFlipped(s, t, pos, i) && i < |s| && IsCut(s[i]) && s[i] == s[i - 1]
    ensures !ChainProper(s, pos)
  {
    NextUnitBeyond(s, pos, i);
  }

  lemma RunInverted(s: Expr, t: Expr, pos: nat, i: nat)
    requires RunFlipped(s, t, pos, i) && (i == |s| || !IsCut(s[i]))
    ensures t == PolishExpression.InvertChain(s, pos) && IsCut(s[pos]) && ChainProper(s, pos)
    ensures forall kind :: Positions(kind, s, |s|) == Positions(kind, t, |t|)
    ensures forall k | 0 <= k <= |s| :: Cuts(t, k) == Cuts(s, k)
  {
    hide Positions, Cuts;
    ChainInverted(s, t, pos, i);
  }

  /** A whole run of cuts has been flipped. */
  lemma ChainInverted(s: Expr, t: Expr, pos: nat, i: nat)
    requires pos < i <= |s| == |t| && (i == |s| || !IsCut(s[i]))
    requires forall k | pos <= k < i :: IsCut(s[k]) && KnownCut(s[k])
    requires forall k | pos < k < i :: s[k] != s[k - 1]
    requires forall k | 0 <= k < |s| :: t[k] == if pos <= k < i then FlipCut(s[k]) else s[k]
    ensures t == PolishExpression.InvertChain(s, pos) && ChainProper(s, pos)
    ensures forall kind :: Positions(kind, s, |s|) == Positions(kind, t, |t|)
    ensures forall k | 0 <= k <= |s| :: Cuts(t, k) == Cuts(s, k)
  {
    NextUnitUnique(s, pos, i);
    SameSignsSameCaches(s, t);
  }

  lemma UnitPositionsSorted(s: Expr)
    ensures var r := Positions(UnitKind, s, |s|);
            |r| == |s| - Cuts(s, |s|) &&
            (forall p :: p in r <==> Marked(UnitKind, s, p)) &&
            forall a, b | 0 <= a < b < |r| :: r[a] < r[b]
  {
    PositionsExact(UnitKind, s, |s|);
    UnitCount(s, |s|);
  }

  /** The unit of a flip at pos has an entry among the unit positions. */
  lemma UnitEntry(s: Expr, pos: nat) returns (k: nat)
    requires Marked(FlipKind, s, pos)
    ensures k < |Positions(UnitKind, s, |s|)|
    ensures Positions(UnitKind, s, |s|)[k] == if IsCut(s[pos]) then pos + 1 else pos
  {
    UnitPositionsSorted(s);
    var p := if IsCut(s[pos]) then pos + 1 else pos;
    assert p in Positions(UnitKind, s, |s|);
    k :| 0 <= k < |Positions(UnitKind, s, |s|)| && Positions(UnitKind, s, |s|)[k] == p;
  }

  /** One ballot count changes when the elements at a flip change places. */
  lemma MovedBallotsCached(s: Expr, pos: nat, was: seq<int>, now: seq<int>)
    requires Marked(FlipKind, s, pos)
    requires |was| == |s| && forall i | 0 <= i < |s| :: was[i] == Cuts(s, i + 1)
    requires now == was[pos := if IsCut(s[pos]) then was[pos] - 1 else was[pos] + 1]
    ensures forall i | 0 <= i < |s| :: now[i] == Cuts(PolishExpression.SwapCutUnit(s, pos), i + 1)
  {
    forall i | 0 <= i < |s|
      ensures now[i] == Cuts(PolishExpression.SwapCutUnit(s, pos), i + 1)
    {
      CutsAfterExchange(s, pos, i + 1);
    }
  }

  /** After the binary search has moved the one entry, the unit positions are those of the
      exchanged expression. */
  lemma MovedUnitCached(s: Expr, pos: nat, was: seq<int>, now: seq<int>)
    requires Marked(FlipKind, s, pos)
    requires was == Positions(UnitKind, s, |s|) && |now| == |was|
    requires var from, to := if IsCut(s[pos]) then pos + 1 else pos, if IsCut(s[pos]) then pos else pos + 1;
             forall k | 0 <= k < |was| :: now[k] == if was[k] == from then to else was[k]
    ensures now == Positions(UnitKind, PolishExpression.SwapCutUnit(s, pos), |s|)
  {
    var j := |Positions(UnitKind, s, pos)|;
    UnitPositionsAfterExchange(s, pos, |s|, j);
    UnitPositionsSorted(s);
  }

  /** NPE_get_initial: the starting expression of the annealing. */
  method GetInitial(n: nat) returns (expr: Npe)
    requires n >= 2
    ensures fresh(expr.Repr()) && expr.Valid() && expr.unitPos.Length == n
    ensures expr.elements[..] == Initial(n)
  {
    hide Normalized, Balloting, Initial, Positions;
    expr := new Npe.Allocate(n);
    expr.FillInitial();
    InitialIsNpe(n);
    expr.FillUnitPos();
    expr.FillFlipPos();
    var ok := expr.FillChainPos();
    expr.FillBallotCount();
  }

  predicate KnownCut(e: int) {
    e == CUT_VERTICAL || e == CUT_HORIZONTAL
  }

  /** The run of cuts at pos holds known cuts only, and no two equal neighbours. */
  predicate ChainProper(s: Expr, pos: nat)
    requires pos < |s|
  {
    (forall k | pos <= k < NextUnit(s, pos) :: KnownCut(s[k])) &&
    (forall k | pos < k < NextUnit(s, pos) :: s[k] != s[k - 1])
  }

  /** The loops of NPE_duplicate. */
  method CopyCaches(expr: Npe, copy: Npe)
    requires expr.Shaped() && copy.Shaped() && expr.Repr() !! copy.Repr() && copy.unitPos.Length == expr.unitPos.Length
    requires expr.nUnits <= expr.unitPos.Length && expr.nFlips <= expr.flipPos.Length
    requires expr.nChains <= expr.chainPos.Length
    modifies copy.elements, copy.unitPos, copy.flipPos, copy.chainPos, copy.ballotCount
    ensures copy.elements[..] == expr.elements[..] && copy.unitPos[..expr.nUnits] == expr.unitPos[..expr.nUnits]
    ensures copy.flipPos[..expr.nFlips] == expr.flipPos[..expr.nFlips]
    ensures copy.chainPos[..expr.nChains] == expr.chainPos[..expr.nChains]
    ensures copy.ballotCount[..] == expr.ballotCount[..]
  {
    CopyInto(expr.elements, copy.elements, expr.elements.Length);
    CopyInto(expr.unitPos, copy.unitPos, expr.nUnits);
    CopyInto(expr.flipPos, copy.flipPos, expr.nFlips);
    CopyInto(expr.chainPos, copy.chainPos, expr.nChains);
    CopyInto(expr.ballotCount, copy.ballotCount, expr.elements.Length);
  }

  /** NPE_duplicate: a separate object with the same expression and the same caches. */
  method Duplicate(expr: Npe) returns (copy: Npe)
    requires expr.Valid()
    ensures fresh(copy.Repr()) && copy.Valid() && copy.unitPos.Length == expr.unitPos.Length
    ensures copy.elements[..] == expr.elements[..]
    ensures copy.nUnits == expr.nUnits && copy.nFlips == expr.nFlips && copy.nChains == expr.nChains
  {
    CacheSizes(expr.elements[..], expr.unitPos.Length);
    hide IsNpe, Positions, Cuts;
    copy := new Npe.Allocate(expr.nUnits);
    CopyCaches(expr, copy);
    copy.nUnits, copy.nFlips, copy.nChains := expr.nUnits, expr.nFlips, expr.nChains;
    assert forall i | 0 <= i < expr.ballotCount.Length :: copy.ballotCount[..][i] == expr.ballotCount[..][i];
  }

  method CopyInto(src: array<int>, dst: array<int>, n: nat)
    requires src != dst && n <= src.Length && n <= dst.Length
    modifies dst
    ensures dst[..n] == src[..n]
  {
    for i := 0 to n
      invariant dst[..i] == src[..i]
    {
      dst[i] := src[i];
    }
  }

  /** What a well-formed expression has to choose from. */
  lemma CacheSizes(s: Expr, n: nat)
    requires IsNpe(s, n)
    ensures |Positions(UnitKind, s, |s|)| == n
    ensures 0 < |Positions(FlipKind, s, |s|)| < |s|
    ensures 0 < |Positions(ChainKind, s, |s|)| < n
  {
    UnitCount(s, |s|);
    ChainCount(s, |s|);
    FirstTwoAreUnits(s, n);
    LastIsCut(s, n);
    var p := NextCut(s, 0);
    PositionsExact(FlipKind, s, |s|);
    PositionsExact(ChainKind, s, |s|);
    assert p - 1 in Positions(FlipKind, s, |s|);
    assert p in Positions(ChainKind, s, |s|);
    assert Positions(FlipKind, s, |s|) == Positions(FlipKind, s, |s| - 1);
    PositionsExact(FlipKind, s, |s| - 1);
  }

  // ----- random moves -----

  /** What rand() comes to as a fraction of its range, draw by draw. */
  type Fraction = u: real | 0.0 <= u < 1.0
  type Draws = nat -> Fraction

  /** rand_upto. */
  function Upto(u: Fraction, max: nat): (r: nat)
    requires max > 0
    ensures r < max
  {
    UptoInRange(u, max as real);
    (max as real * u).Floor
  }

  lemma UptoInRange(u: Fraction, max: real)
    requires max > 0.0
    ensures 0.0 <= max * u < max
  {
  }

  /** An entry of a cache. */
  function EntryAt(kind: Kind, s: Expr, i: nat): (p: nat)
    requires i < |Positions(kind, s, |s|)|
    ensures Marked(kind, s, p)
  {
    PositionsExact(kind, s, |s|);
    assert Positions(kind, s, |s|)[i] in Positions(kind, s, |s|);
    Positions(kind, s, |s|)[i]
  }

  /** Every kind of move has something to choose from. */
  ghost predicate Movable(s: Expr) {
    |Positions(UnitKind, s, |s|)| > 1 && |Positions(FlipKind, s, |s|)| > 0 && |Positions(ChainKind, s, |s|)| > 0
  }

  /** What a draw chooses: a unit but the last, a run of cuts, a flip. */
  ghost function UnitChosen(s: Expr, u: Fraction): nat
    requires Movable(s)
  {
    EntryAt(UnitKind, s, Upto(u, |Positions(UnitKind, s, |s|)| - 1))
  }

  ghost function ChainChosen(s: Expr, u: Fraction): nat
    requires Movable(s)
  {
    EntryAt(ChainKind, s, Upto(u, |Positions(ChainKind, s, |s|)|))
  }

  ghost function FlipChosen(s: Expr, u: Fraction): nat
    requires Movable(s)
  {
    EntryAt(FlipKind, s, Upto(u, |Positions(FlipKind, s, |s|)|))
  }

  /** The j-th flip that a try at M3 draws cannot be made. */
  ghost predicate Refused(draws: Draws, s: Expr, at: nat, j: nat)
    requires Movable(s)
  {
    !Enabled(M3(FlipChosen(s, draws(at + j))), s)
  }

  ghost predicate FirstRefused(draws: Draws, s: Expr, at: nat, k: nat)
    requires Movable(s)
  {
    forall j: nat | 1 <= j <= k :: Refused(draws, s, at, j)
  }

  /** A try of make_random_move that comes to nothing: an M3 refused MAX_MOVES times. */
  ghost predicate FailedTry(draws: Draws, s: Expr, at: nat)
    requires Movable(s)
  {
    Upto(draws(at), 3) == 2 && FirstRefused(draws, s, at, MAX_MOVES)
  }

  /** Where the t-th try begins in the draws, if those before it came to nothing. */
  function TryStart(t: nat): nat {
    t * (MAX_MOVES + 1)
  }

  ghost predicate FailedTries(draws: Draws, s: Expr, t: nat)
    requires Movable(s)
  {
    forall i: nat | i < t :: FailedTry(draws, s, TryStart(i))
  }

  /** The move that a try makes: at M3, the first flip drawn that is not refused. */
  ghost predicate MadeBy(draws: Draws, s: Expr, at: nat, move: Move)
    requires Movable(s)
  {
    match Upto(draws(at), 3)
    case 0 => move == M1(UnitChosen(s, draws(at + 1)))
    case 1 => move == M2(ChainChosen(s, draws(at + 1)))
    case _ => exists k: nat :: 1 <= k <= MAX_MOVES && FirstRefused(draws, s, at, k - 1) && !Refused(draws, s, at, k) &&
                               move == M3(FlipChosen(s, draws(at + k)))
  }

  /** The move that make_random_move makes: that of the first try that does not come to nothing, unless
      that is the last one. */
  ghost predicate RandomMove(draws: Draws, s: Expr, move: Move)
    requires Movable(s)
  {
    exists t: nat :: t < MAX_MOVES - 1 && FailedTries(draws, s, t) && !FailedTry(draws, s, TryStart(t)) &&
                     MadeBy(draws, s, TryStart(t), move)
  }

  datatype MoveOutcome = Moved(next: Npe) | GaveUp

  lemma AlwaysMovable(s: Expr, n: nat)
    requires IsNpe(s, n)
    ensures Movable(s)
  {
    CacheSizes(s, n);
  }

  /** make_random_move at M1: any unit but the last changes places with its neighbour. */
  method TrySwapUnits(expr: Npe, copy: Npe, u: Fraction) returns (ghost move: Move)
    requires expr.Valid() && copy.Valid() && expr.Repr() !! copy.Repr() && Movable(expr.elements[..])
    requires copy.elements[..] == expr.elements[..] && copy.unitPos.Length == expr.unitPos.Length
    modifies copy.elements
    ensures copy.Valid()
    ensures Enabled(move, expr.elements[..]) && copy.elements[..] == Apply(move, expr.elements[..])
    ensures move == M1(UnitChosen(expr.elements[..], u))
  {
    hide IsNpe, Upto;
    ghost var s := expr.elements[..];
    var i := Upto(u, expr.nUnits - 1);
    UnitNotLast(s, i);
    assert expr.unitPos[..expr.nUnits][i] == UnitChosen(s, u);
    move := M1(expr.unitPos[i]);
    MoveKeepsNpe(move, s, expr.unitPos.Length);
    var ok := copy.SwapUnits(expr.unitPos[i]);
  }

  /** make_random_move at M2: any run of cuts is inverted. */
  method TryInvertChain(expr: Npe, copy: Npe, u: Fraction) returns (ghost move: Move)
    requires expr.Valid() && copy.Valid() && expr.Repr() !! copy.Repr() && Movable(expr.elements[..])
    requires copy.elements[..] == expr.elements[..] && copy.unitPos.Length == expr.unitPos.Length
    modifies copy.elements
    ensures copy.Valid()
    ensures Enabled(move, expr.elements[..]) && copy.elements[..] == Apply(move, expr.elements[..])
    ensures move == M2(ChainChosen(expr.elements[..], u))
  {
    hide IsNpe, Upto;
    ghost var s := expr.elements[..];
    var i := Upto(u, expr.nChains);
    ChainEntry(s, i, expr.unitPos.Length);
    assert expr.chainPos[..expr.nChains][i] == ChainChosen(s, u);
    move := M2(expr.chainPos[i]);
    MoveKeepsNpe(move, s, expr.unitPos.Length);
    var ok := copy.InvertChain(expr.chainPos[i]);
  }

  /** One draw at M3. */
  method TryFlip(expr: Npe, copy: Npe, u: Fraction) returns (done: bool, ghost move: Move)
    requires expr.Valid() && copy.Valid() && expr.Repr() !! copy.Repr() && Movable(expr.elements[..])
    requires copy.elements[..] == expr.elements[..] && copy.unitPos.Length == expr.unitPos.Length
    modifies copy.Repr()
    ensures copy.Valid() && move == M3(FlipChosen(expr.elements[..], u))
    ensures done <==> Enabled(move, expr.elements[..])
    ensures copy.elements[..] == if done then Apply(move, expr.elements[..]) else expr.elements[..]
  {
    hide IsNpe, Upto;
    ghost var s := expr.elements[..];
    var i := Upto(u, expr.nFlips);
    assert expr.flipPos[..expr.nFlips][i] == FlipChosen(s, u);
    move := M3(expr.flipPos[i]);
    done := copy.SwapCutUnit(expr.flipPos[i]);
  }

  /** One try of make_random_move at M3: up to MAX_MOVES random flip positions. */
  method TrySwapCutUnit(expr: Npe, copy: Npe, draws: Draws, at: nat) returns (done: bool, count: nat, ghost move: Move)
    requires expr.Valid() && copy.Valid() && expr.Repr() !! copy.Repr() && Movable(expr.elements[..])
    requires copy.elements[..] == expr.elements[..] && copy.unitPos.Length == expr.unitPos.Length
    modifies copy.Repr()
    ensures copy.Valid() && count <= MAX_MOVES
    ensures done ==> Enabled(move, expr.elements[..]) && copy.elements[..] == Apply(move, expr.elements[..])
    ensures done ==> 1 <= count
    ensures done ==>
            FirstRefused(draws, expr.elements[..], at, count - 1) && !Refused(draws, expr.elements[..], at, count)
    ensures done ==> move == M3(FlipChosen(expr.elements[..], draws(at + count)))
    ensures !done ==> copy.elements[..] == expr.elements[..]
    ensures !done ==> count == MAX_MOVES && FirstRefused(draws, expr.elements[..], at, MAX_MOVES)
  {
    hide IsNpe, Movable, FlipChosen, Enabled, Apply;
    ghost var s := expr.elements[..];
    done, count, move := false, 0, M3(0);
    while !done && count < MAX_MOVES
      invariant copy.Valid() && count <= MAX_MOVES && copy.unitPos.Length == expr.unitPos.Length
      invariant done ==> Enabled(move, s) && copy.elements[..] == Apply(move, s)
      invariant done ==> count >= 1 && FirstRefused(draws, s, at, count - 1) && !Refused(draws, s, at, count)
      invariant done ==> move == M3(FlipChosen(s, draws(at + count)))
      invariant !done ==> copy.elements[..] == s && FirstRefused(draws, s, at, count)
    {
      count := count + 1;
      done, move := TryFlip(expr, copy, draws(at + count));
    }
  }

  /** make_random_move. Of up to MAX_MOVES tries the first that comes to something decides the move. The
      source aborts with "giving up" when the count of tries is MAX_MOVES, be the last one a success or
      not: that is GaveUp, and it happens exactly if all tries but the last come to nothing. None of the
      other aborts can happen. The expression given is left as it was. */
  method MakeRandomMove(expr: Npe, draws: Draws) returns (outcome: MoveOutcome, ghost move: Move)
    requires expr.Valid()
    ensures outcome.Moved? ==>
              var next := outcome.next;
              fresh(next.Repr()) && next.Valid() && next.unitPos.Length == expr.unitPos.Length &&
              Enabled(move, expr.elements[..]) && next.elements[..] == Apply(move, expr.elements[..])
    ensures Movable(expr.elements[..])
    ensures outcome.GaveUp? <==> FailedTries(draws, expr.elements[..], MAX_MOVES - 1)
    ensures outcome.Moved? ==> RandomMove(draws, expr.elements[..], move)
  {
    hide IsNpe, Enabled, Apply, Marked, Movable, FailedTry, MadeBy;
    ghost var s := expr.elements[..];
    AlwaysMovable(s, expr.unitPos.Length);
    var copy := Duplicate(expr);
    var count, at, done := 0, 0, false;
    move := M1(0);
    while !done && count < MAX_MOVES
      invariant fresh(copy.Repr()) && copy.Valid() && copy.unitPos.Length == expr.unitPos.Length && count <= MAX_MOVES
      invariant done ==> Enabled(move, s) && copy.elements[..] == Apply(move, s)
      invariant !done ==> copy.elements[..] == s && at == TryStart(count) && FailedTries(draws, s, count)
      invariant done ==> count > 0 && FailedTries(draws, s, count - 1) && !FailedTry(draws, s, TryStart(count - 1)) &&
                         MadeBy(draws, s, TryStart(count - 1), move)
    {
      done, at, move := OneTry(expr, copy, draws, at);
      count := count + 1;
    }
    if count == MAX_MOVES {
      return GaveUp, move;
    }
    return Moved(copy), move;
  }

  /** One pass of the loop. */
  method OneTry(expr: Npe, copy: Npe, draws: Draws, at: nat) returns (done: bool, at': nat, ghost move: Move)
    requires expr.Valid() && copy.Valid() && expr.Repr() !! copy.Repr()
    requires copy.elements[..] == expr.elements[..] && copy.unitPos.Length == expr.unitPos.Length
    requires Movable(expr.elements[..])
    modifies copy.Repr()
    ensures copy.Valid()
    ensures done <==> !FailedTry(draws, expr.elements[..], at)
    ensures done ==> Enabled(move, expr.elements[..]) && copy.elements[..] == Apply(move, expr.elements[..])
    ensures done ==> MadeBy(draws, expr.elements[..], at, move)
    ensures !done ==> copy.elements[..] == expr.elements[..] && at' == at + MAX_MOVES + 1
  {
    hide IsNpe, Enabled, Apply, Marked, Movable, Refused, FirstRefused, UnitChosen, ChainChosen, FlipChosen;
    var kind := Upto(draws(at), 3);
    if kind == 0 {
      move := TrySwapUnits(expr, copy, draws(at + 1));
      done, at' := true, at + 2;
    } else if kind == 1 {
      move := TryInvertChain(expr, copy, draws(at + 1));
      done, at' := true, at + 2;
    } else {
      var count;
      done, count, move := TrySwapCutUnit(expr, copy, draws, at);
      at' := at + 1 + count;
      if done {
        SomeAllowed(draws, expr.elements[..], at, count);
      }
    }
  }

  lemma SomeAllowed(draws: Draws, s: Expr, at: nat, k: nat)
    requires Movable(s) && 1 <= k <= MAX_MOVES && !Refused(draws, s, at, k)
    ensures !FirstRefused(draws, s, at, MAX_MOVES)
  {
  }

  // ----- a success that is thrown away -----

  /** Draws that go for the same flip in every try but the last, which is an M1. */
  function Stubborn(i: nat, count: nat): Draws
    requires i < count
  {
    Within(i, count);
    (k: nat) => if k % (MAX_MOVES + 1) == 0 then (if k < TryStart(MAX_MOVES - 1) then 0.9 else 0.0)
                else (i as real + 0.5) / (count as real)
  }

  lemma Within(i: nat, count: nat)
    requires i < count
    ensures 0.0 <= (i as real + 0.5) / (count as real) < 1.0
    ensures Upto((i as real + 0.5) / (count as real), count) == i
  {
    var u := (i as real + 0.5) / (count as real);
    assert u * (count as real) == i as real + 0.5;
    assert u >= 1.0 ==> u * (count as real) >= count as real;
    assert u < 0.0 ==> u * (count as real) < 0.0;
  }

  /** Whenever an expression has a flip that is refused, there are draws for which make_random_move gives
      up although its last try makes a move. */
  lemma LastTryWasted(s: Expr, n: nat, p: int) returns (draws: Draws)
    requires IsNpe(s, n) && Marked(FlipKind, s, p) && !Enabled(M3(p), s)
    ensures Movable(s) && FailedTries(draws, s, MAX_MOVES - 1) && !FailedTry(draws, s, TryStart(MAX_MOVES - 1))
  {
    hide IsNpe, Enabled, Upto, Stubborn;
    AlwaysMovable(s, n);
    PositionsExact(FlipKind, s, |s|);
    var flips := Positions(FlipKind, s, |s|);
    assert p in flips;
    var i: nat :| i < |flips| && flips[i] == p;
    draws := Stubborn(i, |flips|);
    forall t: nat | t < MAX_MOVES - 1
      ensures FailedTry(draws, s, TryStart(t))
    {
      forall j: nat | 1 <= j <= MAX_MOVES
        ensures Refused(draws, s, TryStart(t), j)
      {
        StubbornFlip(i, |flips|, t, j);
      }
      StubbornKind(i, |flips|, t);
    }
    StubbornKind(i, |flips|, MAX_MOVES - 1);
  }

  lemma StubbornFlip(i: nat, count: nat, t: nat, j: nat)
    requires i < count && 1 <= j <= MAX_MOVES
    ensures Upto(Stubborn(i, count)(TryStart(t) + j), count) == i
  {
    Within(i, count);
    assert (t * (MAX_MOVES + 1) + j) % (MAX_MOVES + 1) == j;
  }

  lemma StubbornKind(i: nat, count: nat, t: nat)
    requires i < count && t <= MAX_MOVES - 1
    ensures Upto(Stubborn(i, count)(TryStart(t)), 3) == if t < MAX_MOVES - 1 then 2 else 0
  {
    assert (t * (MAX_MOVES + 1)) % (MAX_MOVES + 1) == 0;
  }

  /** Every cached unit position but the last has a unit to its right. */
  lemma UnitNotLast(s: Expr, i: nat)
    requires i + 1 < |Positions(UnitKind, s, |s|)|
    ensures var p := Positions(UnitKind, s, |s|)[i]; 0 <= p < |s| && Enabled(M1(p), s)
  {
    PositionsExact(UnitKind, s, |s|);
    var r := Positions(UnitKind, s, |s|);
    assert r[i] in r && r[i + 1] in r;
    assert NextUnit(s, r[i] + 1) <= r[i + 1];
  }

  lemma ChainEntry(s: Expr, i: nat, n: nat)
    requires IsNpe(s, n) && i < |Positions(ChainKind, s, |s|)|
    ensures var p := Positions(ChainKind, s, |s|)[i];
            0 <= p < |s| && Enabled(M2(p), s) && ChainProper(s, p)
  {
    PositionsExact(ChainKind, s, |s|);
    assert Positions(ChainKind, s, |s|)[i] in Positions(ChainKind, s, |s|);
  }
}
