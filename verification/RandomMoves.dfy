/** What make_random_move (HotSpot/npe.c) can do: which draws lead to which move, that every move has its
    draws, and that random moves therefore reach every normalized Polish expression. */
module RandomMoves {
  import opened PolishExpression
  import opened NpeState
  import opened Connectivity

  // ----- what is drawn -----

  /** How many positions of a kind are before p. */
  function Before(kind: Kind, s: Expr, p: nat): nat {
    if p == 0 then 0 else Before(kind, s, p - 1) + (if Marked(kind, s, p - 1) then 1 else 0)
  }

  lemma {:induction false} PositionsBefore(kind: Kind, s: Expr, k: nat)
    ensures |Positions(kind, s, k)| == Before(kind, s, k)
  {
    if k > 0 {
      PositionsBefore(kind, s, k - 1);
    }
  }

  lemma {:induction false} BeforeGrows(kind: Kind, s: Expr, p: nat, q: nat)
    requires p <= q
    ensures Before(kind, s, p) <= Before(kind, s, q)
  {
    if p < q {
      BeforeGrows(kind, s, p, q - 1);
    }
  }

  lemma {:induction false} EntryBefore(kind: Kind, s: Expr, k: nat, i: nat)
    requires i < |Positions(kind, s, k)|
    ensures 0 <= Positions(kind, s, k)[i] < k && Before(kind, s, Positions(kind, s, k)[i]) == i
  {
    if i < |Positions(kind, s, k - 1)| {
      EntryBefore(kind, s, k - 1, i);
    } else {
      PositionsBefore(kind, s, k - 1);
    }
  }

  /** A position of a kind is drawn exactly by the fractions between the number of those before it and
      the next number, out of count. */
  lemma Drawn(kind: Kind, s: Expr, p: nat, u: Fraction, count: nat)
    requires Marked(kind, s, p) && 0 < count <= |Positions(kind, s, |s|)|
    ensures EntryAt(kind, s, Upto(u, count)) == p <==>
            Before(kind, s, p) as real <= count as real * u < Before(kind, s, p) as real + 1.0
  {
    hide Before;
    var r := Positions(kind, s, |s|);
    PositionsExact(kind, s, |s|);
    EntryBefore(kind, s, |s|, Upto(u, count));
    assert p in r;
    var i: nat :| i < |r| && r[i] == p;
    EntryBefore(kind, s, |s|, i);
  }

  /** M1 takes one of the units but the last, each with the same part of the draws. */
  lemma UnitDrawn(s: Expr, n: nat, p: nat, u: Fraction)
    requires IsNpe(s, n) && Enabled(M1(p), s)
    ensures Movable(s)
    ensures UnitChosen(s, u) == p <==>
            Before(UnitKind, s, p) as real <= (n as real - 1.0) * u < Before(UnitKind, s, p) as real + 1.0
    ensures Before(UnitKind, s, p) < n - 1
  {
    hide IsNpe, Before, EntryAt, Positions, Upto;
    AlwaysMovable(s, n);
    CacheSizes(s, n);
    Drawn(UnitKind, s, p, u, n - 1);
    OneMoreAfter(s, p);
    PositionsBefore(UnitKind, s, |s|);
  }

  lemma OneMoreAfter(s: Expr, p: nat)
    requires Enabled(M1(p), s)
    ensures Before(UnitKind, s, p) + 2 <= Before(UnitKind, s, |s|)
  {
    var q := NextUnit(s, p + 1);
    BeforeGrows(UnitKind, s, p + 1, q);
    BeforeGrows(UnitKind, s, q + 1, |s|);
  }

  /** M2 takes one of the runs of cuts, M3 one of the flips. */
  lemma ChainDrawn(s: Expr, n: nat, p: nat, u: Fraction)
    requires IsNpe(s, n) && Enabled(M2(p), s)
    ensures Movable(s)
    ensures ChainChosen(s, u) == p <==>
            Before(ChainKind, s, p) as real <= Before(ChainKind, s, |s|) as real * u < Before(ChainKind, s, p) as real +
            1.0
    ensures Before(ChainKind, s, p) < Before(ChainKind, s, |s|)
  {
    hide IsNpe, Before;
    AlwaysMovable(s, n);
    Drawn(ChainKind, s, p, u, |Positions(ChainKind, s, |s|)|);
    PositionsBefore(ChainKind, s, |s|);
    OneAfter(ChainKind, s, p);
  }

  lemma FlipDrawn(s: Expr, n: nat, p: nat, u: Fraction)
    requires IsNpe(s, n) && Marked(FlipKind, s, p)
    ensures Movable(s)
    ensures FlipChosen(s, u) == p <==>
            Before(FlipKind, s, p) as real <= Before(FlipKind, s, |s|) as real * u < Before(FlipKind, s, p) as real +
            1.0
    ensures Before(FlipKind, s, p) < Before(FlipKind, s, |s|)
  {
    hide IsNpe, Before;
    AlwaysMovable(s, n);
    Drawn(FlipKind, s, p, u, |Positions(FlipKind, s, |s|)|);
    PositionsBefore(FlipKind, s, |s|);
    OneAfter(FlipKind, s, p);
  }

  lemma OneAfter(kind: Kind, s: Expr, p: nat)
    requires Marked(kind, s, p)
    ensures Before(kind, s, p) < Before(kind, s, |s|)
  {
    BeforeGrows(kind, s, p + 1, |s|);
  }

  // ----- the move that some draws make -----

  /** The draws leave no choice: at most one move is made. */
  lemma OneMove(draws: Draws, s: Expr, m: Move, m': Move)
    requires Movable(s) && RandomMove(draws, s, m) && RandomMove(draws, s, m')
    ensures m == m'
  {
    hide FailedTry, MadeBy, Movable;
    var t: nat :| t < MAX_MOVES - 1 && FailedTries(draws, s, t) && !FailedTry(draws, s, TryStart(t)) &&
                  MadeBy(draws, s, TryStart(t), m);
    var t': nat :| t' < MAX_MOVES - 1 && FailedTries(draws, s, t') && !FailedTry(draws, s, TryStart(t')) &&
                   MadeBy(draws, s, TryStart(t'), m');
    assert t == t';
    OneMadeBy(draws, s, TryStart(t), m, m');
  }

  lemma OneMadeBy(draws: Draws, s: Expr, at: nat, m: Move, m': Move)
    requires Movable(s) && MadeBy(draws, s, at, m) && MadeBy(draws, s, at, m')
    ensures m == m'
  {
    hide Movable, UnitChosen, ChainChosen, FlipChosen, Refused;
    if Upto(draws(at), 3) == 2 {
      var k: nat :| 1 <= k <= MAX_MOVES && FirstRefused(draws, s, at, k - 1) && !Refused(draws, s, at, k) &&
                    m == M3(FlipChosen(s, draws(at + k)));
      var k': nat :| 1 <= k' <= MAX_MOVES && FirstRefused(draws, s, at, k' - 1) && !Refused(draws, s, at, k') &&
                     m' == M3(FlipChosen(s, draws(at + k')));
      assert k == k';
    }
  }

  /** A move is made unless make_random_move gives up. */
  lemma MadeUnlessGivenUp(draws: Draws, s: Expr)
    requires Movable(s)
    ensures (exists m :: RandomMove(draws, s, m)) <==> !FailedTries(draws, s, MAX_MOVES - 1)
  {
    hide FailedTry, MadeBy, Movable;
    if !FailedTries(draws, s, MAX_MOVES - 1) {
      var t := FirstSuccess(draws, s, MAX_MOVES - 1);
      var m := MoveOfTry(draws, s, TryStart(t));
      assert RandomMove(draws, s, m);
    }
  }

  lemma {:induction false} FirstSuccess(draws: Draws, s: Expr, k: nat) returns (t: nat)
    requires Movable(s) && !FailedTries(draws, s, k)
    ensures t < k && FailedTries(draws, s, t) && !FailedTry(draws, s, TryStart(t))
  {
    hide FailedTry, Movable;
    if FailedTries(draws, s, k - 1) {
      t := k - 1;
    } else {
      t := FirstSuccess(draws, s, k - 1);
    }
  }

  lemma MoveOfTry(draws: Draws, s: Expr, at: nat) returns (m: Move)
    requires Movable(s) && !FailedTry(draws, s, at)
    ensures MadeBy(draws, s, at, m)
  {
    hide Movable, UnitChosen, ChainChosen, FlipChosen, Refused;
    match Upto(draws(at), 3)
    case 0 => m := M1(UnitChosen(s, draws(at + 1)));
    case 1 => m := M2(ChainChosen(s, draws(at + 1)));
    case _ =>
      var k := FirstAllowed(draws, s, at, MAX_MOVES);
      m := M3(FlipChosen(s, draws(at + k)));
  }

  lemma {:induction false} FirstAllowed(draws: Draws, s: Expr, at: nat, most: nat) returns (k: nat)
    requires Movable(s) && !FirstRefused(draws, s, at, most)
    ensures 1 <= k <= most && FirstRefused(draws, s, at, k - 1) && !Refused(draws, s, at, k)
  {
    hide Refused, Movable;
    if FirstRefused(draws, s, at, most - 1) {
      k := most;
    } else {
      k := FirstAllowed(draws, s, at, most - 1);
    }
  }

  // ----- every move has its draws -----

  /** The i-th of count equal parts of the fractions. */
  ghost predicate InPart(u: Fraction, i: nat, count: int) {
    i as real <= count as real * u < i as real + 1.0
  }

  /** A third of the draws goes to each kind of move; the next draw is its position, again with equal
      parts for each. */
  ghost predicate Aimed(draws: Draws, s: Expr, n: nat, move: Move) {
    match move
    case M1(p) => InPart(draws(0), 0, 3) && InPart(draws(1), Before(UnitKind, s, p), n - 1)
    case M2(p) => InPart(draws(0), 1, 3) && InPart(draws(1), Before(ChainKind, s, p), Before(ChainKind, s, |s|))
    case M3(p) => InPart(draws(0), 2, 3) && InPart(draws(1), Before(FlipKind, s, p), Before(FlipKind, s, |s|))
  }

  /** So the first two draws decide, unless they go for a flip that is refused. */
  lemma FirstTryMakes(draws: Draws, s: Expr, n: nat, move: Move)
    requires IsNpe(s, n) && Enabled(move, s) && Aimed(draws, s, n, move)
    ensures Movable(s) && RandomMove(draws, s, move)
  {
    hide IsNpe, Before;
    AlwaysMovable(s, n);
    match move {
      case M1(p) => UnitDrawn(s, n, p, draws(1));
      case M2(p) => ChainDrawn(s, n, p, draws(1));
      case M3(p) => FlipDrawn(s, n, p, draws(1));
    }
    FirstTryDecides(draws, s, move);
  }

  /** And only those decide for a swap of units or an inverted run. */
  lemma FirstTryAimed(draws: Draws, s: Expr, n: nat, move: Move)
    requires IsNpe(s, n) && Enabled(move, s) && Movable(s) && RandomMove(draws, s, move)
    requires !InPart(draws(0), 2, 3)
    ensures !move.M3? && Aimed(draws, s, n, move)
  {
    hide IsNpe, Before;
    assert Upto(draws(0), 3) < 2 && TryStart(0) == 0;
    var t: nat :| t < MAX_MOVES - 1 && FailedTries(draws, s, t) && !FailedTry(draws, s, TryStart(t)) &&
                  MadeBy(draws, s, TryStart(t), move);
    assert !FailedTry(draws, s, TryStart(0));
    assert t == 0;
    match move {
      case M1(p) => UnitDrawn(s, n, p, draws(1));
      case M2(p) => ChainDrawn(s, n, p, draws(1));
      case M3(p) => assert false;
    }
  }

  lemma FirstTryDecides(draws: Draws, s: Expr, move: Move)
    requires Movable(s) && Enabled(move, s)
    requires match move
             case M1(p) => Upto(draws(0), 3) == 0 && UnitChosen(s, draws(1)) == p
             case M2(p) => Upto(draws(0), 3) == 1 && ChainChosen(s, draws(1)) == p
             case M3(p) => Upto(draws(0), 3) == 2 && FlipChosen(s, draws(1)) == p
    ensures RandomMove(draws, s, move)
  {
    hide Movable, UnitChosen, ChainChosen, FlipChosen, Enabled, Upto;
    assert TryStart(0) == 0 && FailedTries(draws, s, 0);
    if move.M3? {
      assert !Refused(draws, s, 0, 1) && FirstRefused(draws, s, 0, 0);
    }
    assert MadeBy(draws, s, TryStart(0), move);
  }

  /** Every move that is enabled is made for some draws, and then it is the one that is made. */
  lemma EveryMoveDrawn(s: Expr, n: nat, move: Move) returns (draws: Draws)
    requires IsNpe(s, n) && Enabled(move, s)
    ensures Movable(s) && RandomMove(draws, s, move)
    ensures forall other :: RandomMove(draws, s, other) ==> other == move
    ensures !FailedTries(draws, s, MAX_MOVES - 1)
  {
    hide IsNpe, Before, Enabled, RandomMove, FailedTries;
    AlwaysMovable(s, n);
    draws := DrawsFor(s, n, move);
    FirstTryMakes(draws, s, n, move);
    forall other | RandomMove(draws, s, other)
      ensures other == move
    {
      OneMove(draws, s, move, other);
    }
    MadeUnlessGivenUp(draws, s);
  }

  lemma DrawsFor(s: Expr, n: nat, move: Move) returns (draws: Draws)
    requires IsNpe(s, n) && Enabled(move, s)
    ensures Aimed(draws, s, n, move)
  {
    hide IsNpe, Before, Enabled, InPart;
    AlwaysMovable(s, n);
    match move {
      case M1(p) =>
        UnitDrawn(s, n, p, 0.0);
        draws := TwoDraws(0, Before(UnitKind, s, p), n - 1);
      case M2(p) =>
        ChainDrawn(s, n, p, 0.0);
        draws := TwoDraws(1, Before(ChainKind, s, p), Before(ChainKind, s, |s|));
      case M3(p) =>
        assert Marked(FlipKind, s, p) by { FlipOfMove(s, p); }
        FlipDrawn(s, n, p, 0.0);
        draws := TwoDraws(2, Before(FlipKind, s, p), Before(FlipKind, s, |s|));
    }
  }

  lemma FlipOfMove(s: Expr, p: nat)
    requires Enabled(M3(p), s)
    ensures Marked(FlipKind, s, p)
  {
  }

  lemma TwoDraws(kind: nat, i: nat, count: nat) returns (draws: Draws)
    requires kind < 3 && i < count
    ensures InPart(draws(0), kind, 3) && InPart(draws(1), i, count)
  {
    Within(kind, 3);
    Within(i, count);
    var u: Fraction, v: Fraction := (kind as real + 0.5) / 3.0, (i as real + 0.5) / (count as real);
    draws := (k: nat) => if k == 0 then u else v;
    assert v * (count as real) == i as real + 0.5;
  }

  // ----- runs of random moves -----

  /** A run each of whose moves make_random_move makes, for the draws that it gets. */
  ghost predicate RandomRun(chances: seq<Draws>, run: seq<Expr>, moves: seq<Move>) {
    IsRun(run, moves) && |chances| == |moves| &&
    forall i | 0 <= i < |moves| :: Movable(run[i]) && RandomMove(chances[i], run[i], moves[i])
  }

  lemma {:induction false} DrawsForRun(run: seq<Expr>, moves: seq<Move>, n: nat, k: nat) returns (chances: seq<Draws>)
    requires IsRun(run, moves) && IsNpe(run[0], n) && k <= |moves|
    ensures |chances| == k
    ensures forall i | 0 <= i < k :: Movable(run[i]) && RandomMove(chances[i], run[i], moves[i])
  {
    hide IsNpe, RandomMove, Movable;
    chances := [];
    if k > 0 {
      chances := DrawsForRun(run, moves, n, k - 1);
      RunKeepsNpe(run, moves, n, k - 1);
      var draws := EveryMoveDrawn(run[k - 1], n, moves[k - 1]);
      chances := chances + [draws];
    }
  }

  /** What random moves can make of the initial expression is exactly the normalized Polish expressions. */
  lemma RandomlyReachable(n: nat, t: Expr)
    requires n >= 2
    ensures IsNpe(t, n) <==>
            exists chances, run, moves :: RandomRun(chances, run, moves) && run[0] == Initial(n) && run[|run| - 1] == t
  {
    hide RandomMove, Movable;
    ReachableExactly(n, t);
    if IsNpe(t, n) {
      InitialIsNpe(n);
      var run, moves :| IsRun(run, moves) && run[0] == Initial(n) && run[|run| - 1] == t;
      var chances := DrawsForRun(run, moves, n, |moves|);
      assert RandomRun(chances, run, moves);
    }
  }
}
