/** The annealing loop (floorplan, HotSpot/flp.c). The random draws of every try and the acceptance of
    uphill moves are given, so what is proved holds for every run. */
module Annealing {
  import opened PolishExpression
  import opened Geometry
  import opened SizingSpec
  import opened Curves
  import opened TreeBuild
  import opened FloorplanExtents
  import opened Layout
  import opened NpeState

  /** The cost of a floorplan: flp_evaluate_metric, whose weights and thermal model are not looked into. */
  type Metric = seq<Rect> -> real

  ghost function CostOf(cfg: Config, metric: Metric, s: Expr): real
    requires Sound(cfg) && IsNpe(s, |cfg.shapes|)
  {
    metric(Finished(cfg, s).units)
  }

  /** The annealing schedule; the two temperatures are computed from the configuration by logarithms. */
  datatype Schedule = Schedule(start: real, cold: real, cool: real, maxSteps: nat, movesPerUnit: real,
                               rejectRatio: real)

  /** The conversion of C from double to int. */
  function Truncated(x: real): (r: int)
    ensures x >= 0.0 ==> 0 <= r && r as real <= x < r as real + 1.0
    ensures x < 0.0 ==> r <= 0 && r as real - 1.0 < x <= r as real
  {
    if x >= 0.0 then x.Floor else -(-x).Floor
  }

  /** The number n of the loop bounds: one step tries at most 2n moves, and stops at n downhill ones. */
  function MovesPerStep(schedule: Schedule, blocks: nat): int {
    Truncated(schedule.movesPerUnit * (2 * blocks - 1) as real)
  }

  /** Every expression tried so far is a reachable one, and none is cheaper than best. */
  ghost predicate Surveyed(cfg: Config, metric: Metric, tried: seq<Expr>, best: Expr) {
    Sound(cfg) && IsNpe(best, |cfg.shapes|) && best in tried &&
    forall i | 0 <= i < |tried| ::
      IsNpe(tried[i], |cfg.shapes|) && Reachable(Initial(|cfg.shapes|), tried[i]) &&
      CostOf(cfg, metric, best) <= CostOf(cfg, metric, tried[i])
  }

  lemma SurveyedMore(cfg: Config, metric: Metric, tried: seq<Expr>, best: Expr, next: Expr, best': Expr)
    requires Surveyed(cfg, metric, tried, best) && IsNpe(next, |cfg.shapes|) && Reachable(Initial(|cfg.shapes|), next)
    requires best' == if CostOf(cfg, metric, next) < CostOf(cfg, metric, best) then next else best
    ensures Surveyed(cfg, metric, tried + [next], best')
  {
    hide CostOf, IsNpe;
  }

  /** An expression object, away from everything that evaluations write. */
  ghost predicate Held(expr: Npe, s: Expr, n: nat, stack: NodeStack, flp: Floorplan)
    reads expr.Repr()
  {
    expr.Valid() && expr.unitPos.Length == n && expr.elements[..] == s && Apart(expr, stack, flp)
  }

  /** Evaluate one expression and restore the floorplan. */
  method Evaluate(cfg: Config, metric: Metric, curves: seq<Curve>, stack: NodeStack, flp: Floorplan, expr: Npe)
    returns (cost: real)
    requires Idle(cfg, curves, stack, flp) && Held(expr, expr.elements[..], |cfg.shapes|, stack, flp)
    modifies stack, stack.slots, flp, flp.units
    ensures Idle(cfg, curves, stack, flp)
    ensures cost == CostOf(cfg, metric, expr.elements[..])
  {
    hide Finished;
    var compacted, rimBlocks := Realize(cfg, curves, stack, flp, expr);
    cost := metric(flp.units[..flp.nUnits]);
    RestoreDeadBlocks(flp, |curves|, compacted, cfg.wrapL2, cfg.modelRim, rimBlocks);
  }

  // ----- the record of a run -----

  /** What chance gives to the k-th try of a run: the draws that choose its move, and whether it accepts a
      rise in cost at a temperature (in the source, rand_fraction() < exp(-rise / T)). */
  datatype Chance = Chance(draws: nat -> Draws, lucky: (nat, real, real) -> bool)

  /** One try: the expression that was current, the one tried, and whether it was accepted. */
  datatype Trial = Trial(from: Expr, to: Expr, taken: bool)

  /** These draws turn s into t by one move. */
  ghost predicate Makes(draws: Draws, s: Expr, t: Expr) {
    Movable(s) && exists move :: Enabled(move, s) && RandomMove(draws, s, move) && t == Apply(move, s)
  }

  ghost predicate GivesUp(draws: Draws, s: Expr) {
    Movable(s) && FailedTries(draws, s, MAX_MOVES - 1)
  }

  /** A strictly cheaper expression was tried. */
  ghost predicate IsDown(cfg: Config, metric: Metric, trial: Trial) {
    Sound(cfg) && IsNpe(trial.from, |cfg.shapes|) && IsNpe(trial.to, |cfg.shapes|) &&
    CostOf(cfg, metric, trial.to) < CostOf(cfg, metric, trial.from)
  }

  /** The k-th try, at temperature t: its move is the one that is drawn, and it is accepted if it goes
      down, or by luck. */
  ghost predicate IsTrial(cfg: Config, metric: Metric, chance: Chance, k: nat, t: real, trial: Trial) {
    Sound(cfg) && IsNpe(trial.from, |cfg.shapes|) && IsNpe(trial.to, |cfg.shapes|) &&
    Makes(chance.draws(k), trial.from, trial.to) &&
    (trial.taken <==>
      IsDown(cfg, metric, trial) ||
      chance.lucky(k, CostOf(cfg, metric, trial.to) - CostOf(cfg, metric, trial.from), t))
  }

  /** The current expression after some tries that began with s. */
  function After(s: Expr, log: seq<Trial>): Expr {
    if log == [] then s
    else
      var last := log[|log| - 1];
      if last.taken then last.to else last.from
  }

  /** The tries of one temperature in turn, from s and the try numbered first. */
  ghost predicate Logged(cfg: Config, metric: Metric, chance: Chance, first: nat, t: real, s: Expr, log: seq<Trial>)
    decreases |log|
  {
    log == [] ||
    (var i := |log| - 1;
     Logged(cfg, metric, chance, first, t, s, log[..i]) && log[i].from == After(s, log[..i]) &&
     IsTrial(cfg, metric, chance, first + i, t, log[i]))
  }

  ghost function Downs(cfg: Config, metric: Metric, log: seq<Trial>): nat {
    if log == [] then 0
    else Downs(cfg, metric, log[..|log| - 1]) + (if IsDown(cfg, metric, log[|log| - 1]) then 1 else 0)
  }

  function Rejects(log: seq<Trial>): nat {
    if log == [] then 0 else Rejects(log[..|log| - 1]) + (if log[|log| - 1].taken then 0 else 1)
  }

  function Targets(log: seq<Trial>): (r: seq<Expr>)
    ensures |r| == |log|
  {
    if log == [] then [] else Targets(log[..|log| - 1]) + [log[|log| - 1].to]
  }

  /** A temperature goes on while there were fewer than 2n tries, and fewer than n of them went down. */
  ghost predicate StepGoesOn(cfg: Config, metric: Metric, n: int, log: seq<Trial>) {
    |log| < 2 * n && Downs(cfg, metric, log) < n
  }

  /** Up to the last try it went on. */
  ghost predicate StepOpen(cfg: Config, metric: Metric, n: int, log: seq<Trial>) {
    forall i | 0 <= i < |log| :: StepGoesOn(cfg, metric, n, log[..i])
  }

  lemma StepLonger(cfg: Config, metric: Metric, chance: Chance, first: nat, t: real, s: Expr, n: int, log: seq<Trial>,
                   trial: Trial)
    requires Logged(cfg, metric, chance, first, t, s, log) && trial.from == After(s, log)
    requires IsTrial(cfg, metric, chance, first + |log|, t, trial)
    requires StepOpen(cfg, metric, n, log) && StepGoesOn(cfg, metric, n, log)
    ensures Logged(cfg, metric, chance, first, t, s, log + [trial]) && StepOpen(cfg, metric, n, log + [trial])
    ensures After(s, log + [trial]) == if trial.taken then trial.to else trial.from
    ensures Downs(cfg, metric, log + [trial]) == Downs(cfg, metric, log) + (if IsDown(cfg, metric, trial) then 1 else 0)
    ensures Rejects(log + [trial]) == Rejects(log) + (if trial.taken then 0 else 1)
    ensures Targets(log + [trial]) == Targets(log) + [trial.to]
  {
    hide IsTrial, IsDown;
    var more := log + [trial];
    assert more[..|log|] == log;
    forall i | 0 <= i < |more|
      ensures StepGoesOn(cfg, metric, n, more[..i])
    {
      assert i < |log| ==> more[..i] == log[..i];
    }
  }

  // ----- one move -----

  /** The variables of the loop: the current expression and the best one, with their costs. */
  datatype Search = Search(expr: Npe, best: Npe, cost: real, bestCost: real)

  /** best is no dearer than anything tried, the current expression is among what was tried, and
      the costs are theirs. */
  ghost predicate Tracking(cfg: Config, metric: Metric, search: Search, tried: seq<Expr>, stack: NodeStack,
                           flp: Floorplan)
    reads search.expr.Repr(), search.best.Repr()
  {
    match search
    case Search(expr, best, cost, bestCost) =>
      Surveyed(cfg, metric, tried, best.elements[..]) && expr.elements[..] in tried &&
      Held(expr, expr.elements[..], |cfg.shapes|, stack, flp) &&
      Held(best, best.elements[..], |cfg.shapes|, stack, flp) &&
      cost == CostOf(cfg, metric, expr.elements[..]) && bestCost == CostOf(cfg, metric, best.elements[..])
  }

  datatype TryOutcome = Tried(search: Search, downhill: bool, rejected: bool) | NoMove

  /** A random move; GaveUp is the abort of make_random_move. */
  method Draw(cfg: Config, metric: Metric, stack: NodeStack, flp: Floorplan, search: Search, draws: Draws,
              ghost tried: seq<Expr>)
    returns (moved: MoveOutcome)
    requires Tracking(cfg, metric, search, tried, stack, flp)
    ensures moved.Moved? ==>
              fresh(moved.next.Repr()) && Drawn(cfg, moved.next, moved.next.elements[..], stack, flp) &&
              Makes(draws, search.expr.elements[..], moved.next.elements[..])
    ensures moved.GaveUp? ==> GivesUp(draws, search.expr.elements[..])
  {
    hide CostOf, IsNpe, RandomMove, FailedTries, Movable, Enabled, Apply;
    ghost var move;
    moved, move := MakeRandomMove(search.expr, draws);
    if moved.Moved? {
      NextReached(cfg, metric, search.expr.elements[..], tried, search.best.elements[..], move);
    }
  }

  ghost predicate Drawn(cfg: Config, expr: Npe, s: Expr, stack: NodeStack, flp: Floorplan)
    reads expr.Repr()
  {
    Sound(cfg) && Held(expr, s, |cfg.shapes|, stack, flp) && Reachable(Initial(|cfg.shapes|), s)
  }

  /** A random move, and what it costs. */
  method Propose(cfg: Config, metric: Metric, curves: seq<Curve>, stack: NodeStack, flp: Floorplan, search: Search,
                 draws: Draws, ghost tried: seq<Expr>)
    returns (moved: MoveOutcome, cost: real)
    requires Idle(cfg, curves, stack, flp) && Tracking(cfg, metric, search, tried, stack, flp)
    modifies stack, stack.slots, flp, flp.units
    ensures Idle(cfg, curves, stack, flp) && Tracking(cfg, metric, search, tried, stack, flp)
    ensures moved.Moved? ==> Proposed(cfg, metric, moved.next, moved.next.elements[..], cost, stack, flp)
    ensures search.expr.elements[..] == old(search.expr.elements[..])
    ensures moved.Moved? ==> Makes(draws, search.expr.elements[..], moved.next.elements[..])
    ensures moved.GaveUp? ==> GivesUp(draws, search.expr.elements[..])
  {
    hide CostOf, Idle, Surveyed, Finished, IsNpe, Sound, Reachable, Drawn, Held, Makes, GivesUp;
    TrackedApart(cfg, metric, search, tried, stack, flp);
    moved := Draw(cfg, metric, stack, flp, search, draws, tried);
    cost := 0.0;
    if moved.Moved? {
      DrawnApart(cfg, moved.next, moved.next.elements[..], stack, flp);
      cost := Evaluate(cfg, metric, curves, stack, flp, moved.next);
    }
  }

  lemma TrackedApart(cfg: Config, metric: Metric, search: Search, tried: seq<Expr>, stack: NodeStack, flp: Floorplan)
    requires Tracking(cfg, metric, search, tried, stack, flp)
    ensures {stack, stack.slots, flp, flp.units} !! search.expr.Repr() + search.best.Repr()
  {
    hide CostOf, Surveyed;
  }

  lemma DrawnApart(cfg: Config, expr: Npe, s: Expr, stack: NodeStack, flp: Floorplan)
    requires Drawn(cfg, expr, s, stack, flp)
    ensures {stack, stack.slots, flp, flp.units} !! expr.Repr() && Held(expr, s, |cfg.shapes|, stack, flp)
  {
    hide Reachable, Sound;
  }

  ghost predicate Proposed(cfg: Config, metric: Metric, expr: Npe, s: Expr, cost: real, stack: NodeStack,
                           flp: Floorplan)
    reads expr.Repr()
  {
    Drawn(cfg, expr, s, stack, flp) && cost == CostOf(cfg, metric, s)
  }

  /** Acceptance: a downhill move is always accepted, any other one if it is lucky. */
  method Decide(cfg: Config, metric: Metric, search: Search, next: Npe, cost: real, lucky: bool, stack: NodeStack,
                flp: Floorplan, ghost tried: seq<Expr>)
    returns (outcome: TryOutcome)
    requires Tracking(cfg, metric, search, tried, stack, flp)
    requires Proposed(cfg, metric, next, next.elements[..], cost, stack, flp)
    ensures outcome.Tried?
    ensures Tracking(cfg, metric, outcome.search, tried + [next.elements[..]], stack, flp)
    ensures outcome.downhill <==> cost < search.cost
    ensures outcome.rejected <==> !outcome.downhill && !lucky
    ensures if outcome.rejected then outcome.search == search
            else outcome.search.expr == next && outcome.search.cost == cost
  {
    hide CostOf, IsNpe, Sound, Surveyed;
    if cost < search.cost || lucky {
      var best, bestCost := search.best, search.bestCost;
      if cost < search.cost {
        if cost < bestCost {
          best := CopyOf(next, stack, flp, |cfg.shapes|);
          bestCost := cost;
        }
      }
      outcome := Tried(Search(next, best, cost, bestCost), cost < search.cost, false);
    } else {
      outcome := Tried(search, false, true);
    }
    BestIsLeast(cfg, metric, search, tried, stack, flp);
    SurveyedMore(cfg, metric, tried, search.best.elements[..], next.elements[..], outcome.search.best.elements[..]);
  }

  method CopyOf(expr: Npe, stack: NodeStack, flp: Floorplan, ghost n: nat) returns (copy: Npe)
    requires Held(expr, expr.elements[..], n, stack, flp)
    ensures fresh(copy.Repr()) && Held(copy, expr.elements[..], n, stack, flp)
  {
    copy := Duplicate(expr);
  }

  lemma BestIsLeast(cfg: Config, metric: Metric, search: Search, tried: seq<Expr>, stack: NodeStack, flp: Floorplan)
    requires Tracking(cfg, metric, search, tried, stack, flp)
    ensures search.bestCost <= search.cost
  {
  }

  /** The body of the inner loop: a random move is tried, and accepted or rejected. */
  method TryMove(cfg: Config, metric: Metric, curves: seq<Curve>, stack: NodeStack, flp: Floorplan, search: Search,
                 chance: Chance, k: nat, t: real, ghost tried: seq<Expr>)
    returns (outcome: TryOutcome, ghost trial: Trial)
    requires Idle(cfg, curves, stack, flp) && Tracking(cfg, metric, search, tried, stack, flp)
    modifies stack, stack.slots, flp, flp.units
    ensures Idle(cfg, curves, stack, flp)
    ensures outcome.NoMove? ==> GivesUp(chance.draws(k), old(search.expr.elements[..]))
    ensures outcome.Tried? ==> Tracking(cfg, metric, outcome.search, tried + [trial.to], stack, flp)
    ensures outcome.Tried? ==>
            trial.from == old(search.expr.elements[..]) && IsTrial(cfg, metric, chance, k, t, trial) &&
            outcome.search.expr.elements[..] == (if trial.taken then trial.to else trial.from)
    ensures outcome.Tried? ==>
            (outcome.downhill <==> IsDown(cfg, metric, trial)) && (outcome.rejected <==> !trial.taken)
    ensures outcome.Tried? && outcome.downhill ==> outcome.search.cost < search.cost && !outcome.rejected
    ensures outcome.Tried? && outcome.rejected ==> outcome.search == search
    ensures outcome.Tried? && !outcome.rejected ==> (outcome.downhill <==> outcome.search.cost < search.cost)
  {
    hide *;
    var moved, cost := Propose(cfg, metric, curves, stack, flp, search, chance.draws(k), tried);
    trial := Trial(search.expr.elements[..], [], false);
    if moved.GaveUp? {
      return NoMove, trial;
    }
    var lucky := chance.lucky(k, cost - search.cost, t);
    trial := Trial(search.expr.elements[..], moved.next.elements[..], cost < search.cost || lucky);
    ThisTrial(cfg, metric, search, moved.next, cost, chance, k, t, trial, stack, flp, tried);
    outcome := Decide(cfg, metric, search, moved.next, cost, lucky, stack, flp, tried);
  }

  lemma ThisTrial(cfg: Config, metric: Metric, search: Search, next: Npe, cost: real, chance: Chance, k: nat, t: real,
                  trial: Trial, stack: NodeStack, flp: Floorplan, tried: seq<Expr>)
    requires Tracking(cfg, metric, search, tried, stack, flp)
    requires Proposed(cfg, metric, next, next.elements[..], cost, stack, flp)
    requires Makes(chance.draws(k), search.expr.elements[..], next.elements[..])
    requires trial == Trial(search.expr.elements[..], next.elements[..],
                            cost < search.cost || chance.lucky(k, cost - search.cost, t))
    ensures IsTrial(cfg, metric, chance, k, t, trial) && (IsDown(cfg, metric, trial) <==> cost < search.cost)
  {
    hide CostOf, Makes;
  }

  lemma NextReached(cfg: Config, metric: Metric, s: Expr, tried: seq<Expr>, best: Expr, move: Move)
    requires Surveyed(cfg, metric, tried, best) && s in tried && Enabled(move, s)
    ensures IsNpe(s, |cfg.shapes|) && IsNpe(Apply(move, s), |cfg.shapes|)
    ensures Reachable(Initial(|cfg.shapes|), Apply(move, s))
    ensures CostOf(cfg, metric, best) <= CostOf(cfg, metric, s)
  {
    ReachesNext(Initial(|cfg.shapes|), s, move);
    MoveKeepsNpe(move, s, |cfg.shapes|);
  }

  // ----- one temperature, and the whole schedule -----

  datatype StepOutcome = Stepped(search: Search, tries: nat, rejects: nat) | StepAborted

  /** One temperature: moves are tried until there were 2n of them or n downhill ones. The tries are
      numbered from first. */
  method TryMoves(cfg: Config, metric: Metric, curves: seq<Curve>, stack: NodeStack, flp: Floorplan, search: Search,
                  n: int, chance: Chance, first: nat, t: real, ghost tried: seq<Expr>)
    returns (outcome: StepOutcome, ghost log: seq<Trial>)
    requires Idle(cfg, curves, stack, flp) && Tracking(cfg, metric, search, tried, stack, flp)
    modifies stack, stack.slots, flp, flp.units
    ensures Idle(cfg, curves, stack, flp)
    ensures Logged(cfg, metric, chance, first, t, old(search.expr.elements[..]), log)
    ensures StepOpen(cfg, metric, n, log)
    ensures outcome.Stepped? ==> Tracking(cfg, metric, outcome.search, tried + Targets(log), stack, flp)
    ensures outcome.Stepped? ==>
            !StepGoesOn(cfg, metric, n, log) && outcome.tries == |log| && outcome.rejects == Rejects(log) &&
            outcome.search.expr.elements[..] == After(old(search.expr.elements[..]), log)
    ensures outcome.StepAborted? ==>
            StepGoesOn(cfg, metric, n, log) &&
            GivesUp(chance.draws(first + |log|), After(old(search.expr.elements[..]), log))
  {
    hide *;
    var now := search;
    log := [];
    ghost var s := search.expr.elements[..];
    NothingLogged(cfg, metric, chance, first, t, s, n);
    assert tried + Targets(log) == tried;
    var i: nat, downs: nat, rejects: nat := 0, 0, 0;
    while i < 2 * n && downs < n
      invariant Idle(cfg, curves, stack, flp) && Tracking(cfg, metric, now, tried + Targets(log), stack, flp)
      invariant Logged(cfg, metric, chance, first, t, s, log) && StepOpen(cfg, metric, n, log)
      invariant now.expr.elements[..] == After(s, log)
      invariant i == |log| && downs == Downs(cfg, metric, log) && rejects == Rejects(log)
      decreases 2 * n - i
    {
      GoesOnIff(cfg, metric, n, log);
      var attempt;
      ghost var trial;
      attempt, trial := TryMove(cfg, metric, curves, stack, flp, now, chance, first + i, t, tried + Targets(log));
      if attempt.NoMove? {
        return StepAborted, log;
      }
      StepLonger(cfg, metric, chance, first, t, s, n, log, trial);
      assert tried + Targets(log) + [trial.to] == tried + Targets(log + [trial]);
      log := log + [trial];
      now := attempt.search;
      if attempt.downhill {
        downs := downs + 1;
      }
      if attempt.rejected {
        rejects := rejects + 1;
      }
      i := i + 1;
    }
    GoesOnIff(cfg, metric, n, log);
    return Stepped(now, i, rejects), log;
  }

  lemma NothingLogged(cfg: Config, metric: Metric, chance: Chance, first: nat, t: real, s: Expr, n: int)
    ensures Logged(cfg, metric, chance, first, t, s, []) && StepOpen(cfg, metric, n, []) && After(s, []) == s
    ensures Downs(cfg, metric, []) == 0 && Rejects([]) == 0 && Targets([]) == []
  {
  }

  lemma GoesOnIff(cfg: Config, metric: Metric, n: int, log: seq<Trial>)
    ensures StepGoesOn(cfg, metric, n, log) <==> |log| < 2 * n && Downs(cfg, metric, log) < n
  {
  }

  /** The most moves that so many steps can try. */
  function MostMoves(steps: nat, n: int): nat {
    if steps == 0 || n <= 0 then 0 else MostMoves(steps - 1, n) + 2 * n
  }

  /** No moves at all make the quotient no number, and the comparison false. */
  predicate TooFewAccepted(tries: nat, rejects: nat, ratio: real) {
    tries > 0 && rejects as real / tries as real > ratio
  }

  function Cooled(t: real, cool: real): real {
    t * cool
  }

  // ----- the schedule -----

  /** The temperature of step j: the first one, cooled j times. */
  function Temperature(schedule: Schedule, j: nat): real {
    schedule.start * Power(schedule.cool, j)
  }

  function Power(x: real, j: nat): real {
    if j == 0 then 1.0 else Power(x, j - 1) * x
  }

  /** The run of the steps, each with its tries. */
  type Run = seq<seq<Trial>>

  function TriesIn(run: Run): nat {
    if run == [] then 0 else TriesIn(run[..|run| - 1]) + |run[|run| - 1]|
  }

  function AllTargets(run: Run): (r: seq<Expr>)
    ensures |r| == TriesIn(run)
  {
    if run == [] then [] else AllTargets(run[..|run| - 1]) + Targets(run[|run| - 1])
  }

  function AfterAll(s: Expr, run: Run): Expr {
    if run == [] then s else After(AfterAll(s, run[..|run| - 1]), run[|run| - 1])
  }

  /** There is another step unless maxSteps steps were made, it is cold, or too large a part of the last
      step was rejected. */
  ghost predicate GoesOn(schedule: Schedule, run: Run) {
    Temperature(schedule, |run|) >= schedule.cold && |run| < schedule.maxSteps &&
    (run != [] ==> !MostlyRejected(run[|run| - 1], schedule.rejectRatio))
  }

  /** More than the given part of the tries was rejected. */
  predicate MostlyRejected(log: seq<Trial>, ratio: real) {
    log != [] && Rejects(log) as real > ratio * |log| as real
  }

  /** The steps in turn: each was entered because the run went on, at its own temperature, and the
      tries in it are those that its beginning and chance lead to. */
  ghost predicate StepsMade(cfg: Config, metric: Metric, chance: Chance, schedule: Schedule, s: Expr, run: Run)
    decreases |run|
  {
    run == [] ||
    (var j := |run| - 1;
     var before := run[..j];
     StepsMade(cfg, metric, chance, schedule, s, before) && GoesOn(schedule, before) &&
     StepTried(cfg, metric, chance, schedule, s, before, run[j]) &&
     !StepGoesOn(cfg, metric, MovesPerStep(schedule, |cfg.shapes|), run[j]))
  }

  /** The tries of the step after a run, which may be unfinished. */
  ghost predicate StepTried(cfg: Config, metric: Metric, chance: Chance, schedule: Schedule, s: Expr, run: Run,
                            log: seq<Trial>)
  {
    Logged(cfg, metric, chance, TriesIn(run), Temperature(schedule, |run|), AfterAll(s, run), log) &&
    StepOpen(cfg, metric, MovesPerStep(schedule, |cfg.shapes|), log)
  }

  lemma TooFewIff(log: seq<Trial>, ratio: real)
    ensures TooFewAccepted(|log|, Rejects(log), ratio) <==> MostlyRejected(log, ratio)
  {
    if log != [] {
      QuotientOver(Rejects(log) as real, |log| as real, ratio);
    }
  }

  lemma QuotientOver(a: real, b: real, ratio: real)
    requires b > 0.0
    ensures a / b > ratio <==> a > ratio * b
  {
    var q := a / b;
    assert q * b == a;
    if q > ratio {
      assert (q - ratio) * b > 0.0;
    } else {
      assert (ratio - q) * b >= 0.0;
    }
  }

  /** A run that ended by itself. */
  ghost predicate Annealed(cfg: Config, metric: Metric, chance: Chance, schedule: Schedule, s: Expr, run: Run) {
    StepsMade(cfg, metric, chance, schedule, s, run) && !GoesOn(schedule, run)
  }

  /** A run in whose last step, with the tries of log, make_random_move gave up. */
  ghost predicate Stopped(cfg: Config, metric: Metric, chance: Chance, schedule: Schedule, s: Expr, run: Run,
                          log: seq<Trial>)
  {
    StepsMade(cfg, metric, chance, schedule, s, run) && GoesOn(schedule, run) &&
    StepTried(cfg, metric, chance, schedule, s, run, log) &&
    StepGoesOn(cfg, metric, MovesPerStep(schedule, |cfg.shapes|), log) &&
    GivesUp(chance.draws(TriesIn(run) + |log|), After(AfterAll(s, run), log))
  }

  lemma OneStepMore(cfg: Config, metric: Metric, chance: Chance, schedule: Schedule, s: Expr, run: Run,
                    log: seq<Trial>)
    requires StepsMade(cfg, metric, chance, schedule, s, run) && GoesOn(schedule, run)
    requires StepTried(cfg, metric, chance, schedule, s, run, log)
    requires !StepGoesOn(cfg, metric, MovesPerStep(schedule, |cfg.shapes|), log)
    ensures StepsMade(cfg, metric, chance, schedule, s, run + [log])
    ensures AfterAll(s, run + [log]) == After(AfterAll(s, run), log)
  {
    hide StepTried, StepGoesOn, GoesOn, After;
    assert (run + [log])[..|run|] == run;
  }

  lemma RunLonger(run: Run, log: seq<Trial>)
    ensures TriesIn(run + [log]) == TriesIn(run) + |log| && AllTargets(run + [log]) == AllTargets(run) + Targets(log)
  {
    hide Targets;
    assert (run + [log])[..|run|] == run;
  }

  lemma GoesOnAfter(schedule: Schedule, run: Run, log: seq<Trial>)
    ensures Temperature(schedule, |run| + 1) == Cooled(Temperature(schedule, |run|), schedule.cool)
    ensures GoesOn(schedule, run + [log]) <==>
            Temperature(schedule, |run| + 1) >= schedule.cold && |run| + 1 < schedule.maxSteps &&
            !TooFewAccepted(|log|, Rejects(log), schedule.rejectRatio)
  {
    hide TooFewAccepted, MostlyRejected, Temperature, Cooled;
    TooFewIff(log, schedule.rejectRatio);
    CooledOnce(schedule, |run|);
  }

  lemma CooledOnce(schedule: Schedule, j: nat)
    ensures Temperature(schedule, j + 1) == Cooled(Temperature(schedule, j), schedule.cool)
  {
    Regroup(schedule.start, Power(schedule.cool, j), schedule.cool);
  }

  lemma Regroup(a: real, b: real, c: real)
    ensures a * (b * c) == a * b * c
  {
  }

  /** Each step has at most 2n tries. */
  lemma {:induction false} TriesBounded(cfg: Config, metric: Metric, chance: Chance, schedule: Schedule, s: Expr,
                                        run: Run)
    requires StepsMade(cfg, metric, chance, schedule, s, run)
    ensures |run| <= schedule.maxSteps
    ensures TriesIn(run) <= MostMoves(|run|, MovesPerStep(schedule, |cfg.shapes|))
    decreases |run|
  {
    if run != [] {
      var j, n := |run| - 1, MovesPerStep(schedule, |cfg.shapes|);
      TriesBounded(cfg, metric, chance, schedule, s, run[..j]);
      if |run[j]| > 0 {
        assert StepGoesOn(cfg, metric, n, run[j][..|run[j]| - 1]);
      }
    }
  }

  lemma {:induction false} MostMovesOrdered(j: nat, k: nat, n: int)
    requires j <= k
    ensures MostMoves(j, n) <= MostMoves(k, n)
  {
    if j < k {
      MostMovesOrdered(j, k - 1, n);
    }
  }

  /** Whoever gave up, or made a step, entered the loop. */
  lemma {:induction false} LoopEntered(cfg: Config, metric: Metric, chance: Chance, schedule: Schedule, s: Expr,
                                       run: Run)
    requires StepsMade(cfg, metric, chance, schedule, s, run) && (run != [] || GoesOn(schedule, run))
    ensures GoesOn(schedule, []) && schedule.start >= schedule.cold && schedule.maxSteps > 0
    decreases |run|
  {
    if run != [] {
      LoopEntered(cfg, metric, chance, schedule, s, run[..|run| - 1]);
    }
  }

  /** A run that can begin and has moves to make tries some. */
  lemma {:induction false} SomethingTried(cfg: Config, metric: Metric, chance: Chance, schedule: Schedule, s: Expr,
                                          run: Run)
    requires Annealed(cfg, metric, chance, schedule, s, run)
    requires schedule.start >= schedule.cold && schedule.maxSteps > 0 && MovesPerStep(schedule, |cfg.shapes|) > 0
    ensures |run| > 0 && TriesIn(run) > 0 && run[0] != []
  {
    hide Logged, MovesPerStep;
    NoStepYet(cfg, metric, chance, schedule, s);
    if run != [] {
      FirstStepTried(cfg, metric, chance, schedule, s, run);
    }
  }

  lemma {:induction false} FirstStepTried(cfg: Config, metric: Metric, chance: Chance, schedule: Schedule, s: Expr,
                                          run: Run)
    requires StepsMade(cfg, metric, chance, schedule, s, run) && run != []
    requires MovesPerStep(schedule, |cfg.shapes|) > 0
    ensures TriesIn(run) > 0 && run[0] != []
    decreases |run|
  {
    hide Logged, MovesPerStep;
    if |run| > 1 {
      FirstStepTried(cfg, metric, chance, schedule, s, run[..|run| - 1]);
    } else if run[0] == [] {
      assert Downs(cfg, metric, run[0]) == 0;
    }
  }

  /** The annealing loop: it ends when it is cold, after maxSteps steps, or when too large a part of
      the moves of a step was rejected. */
  method Anneal(cfg: Config, metric: Metric, curves: seq<Curve>, stack: NodeStack, flp: Floorplan, search: Search,
                schedule: Schedule, chance: Chance, ghost tried: seq<Expr>)
    returns (outcome: StepOutcome, ghost run: Run, ghost log: seq<Trial>)
    requires Idle(cfg, curves, stack, flp) && Tracking(cfg, metric, search, tried, stack, flp)
    modifies stack, stack.slots, flp, flp.units
    ensures Idle(cfg, curves, stack, flp)
    ensures outcome.Stepped? ==> Tracking(cfg, metric, outcome.search, tried + AllTargets(run), stack, flp)
    ensures outcome.Stepped? ==> Annealed(cfg, metric, chance, schedule, old(search.expr.elements[..]), run)
    ensures outcome.StepAborted? ==> Stopped(cfg, metric, chance, schedule, old(search.expr.elements[..]), run, log)
  {
    hide *;
    ghost var s := search.expr.elements[..];
    var now, steps: nat, t, count: nat := search, 0, schedule.start, 0;
    run, log := [], [];
    NoStepYet(cfg, metric, chance, schedule, s);
    assert tried + AllTargets(run) == tried;
    while t >= schedule.cold && steps < schedule.maxSteps
      invariant Idle(cfg, curves, stack, flp) && Tracking(cfg, metric, now, tried + AllTargets(run), stack, flp)
      invariant StepsMade(cfg, metric, chance, schedule, s, run) && now.expr.elements[..] == AfterAll(s, run)
      invariant steps == |run| && t == Temperature(schedule, |run|) && count == TriesIn(run)
      invariant GoesOn(schedule, run) <==> t >= schedule.cold && steps < schedule.maxSteps
      decreases schedule.maxSteps - steps
    {
      var n := MovesNow(schedule, flp);
      MovesSteady(cfg, schedule, curves, stack, flp);
      var step;
      step, log := TryMoves(cfg, metric, curves, stack, flp, now, n, chance, count, t, tried + AllTargets(run));
      ThisStep(cfg, metric, chance, schedule, s, run, log);
      if step.StepAborted? {
        StoppedHere(cfg, metric, chance, schedule, s, run, log);
        return StepAborted, run, log;
      }
      OneStepMore(cfg, metric, chance, schedule, s, run, log);
      RunLonger(run, log);
      GoesOnAfter(schedule, run, log);
      assert tried + AllTargets(run) + Targets(log) == tried + AllTargets(run + [log]);
      run := run + [log];
      now := step.search;
      count := count + step.tries;
      if TooFewAccepted(step.tries, step.rejects, schedule.rejectRatio) {
        break;
      }
      t := Cooled(t, schedule.cool);
      steps := steps + 1;
    }
    AnnealedHere(cfg, metric, chance, schedule, s, run);
    return Stepped(now, 0, 0), run, [];
  }

  lemma NoStepYet(cfg: Config, metric: Metric, chance: Chance, schedule: Schedule, s: Expr)
    ensures StepsMade(cfg, metric, chance, schedule, s, []) && AfterAll(s, []) == s
    ensures TriesIn([]) == 0 && AllTargets([]) == [] && Temperature(schedule, 0) == schedule.start
    ensures GoesOn(schedule, []) <==> schedule.start >= schedule.cold && 0 < schedule.maxSteps
  {
  }

  lemma ThisStep(cfg: Config, metric: Metric, chance: Chance, schedule: Schedule, s: Expr, run: Run, log: seq<Trial>)
    requires Logged(cfg, metric, chance, TriesIn(run), Temperature(schedule, |run|), AfterAll(s, run), log)
    requires StepOpen(cfg, metric, MovesPerStep(schedule, |cfg.shapes|), log)
    ensures StepTried(cfg, metric, chance, schedule, s, run, log)
  {
  }

  lemma StoppedHere(cfg: Config, metric: Metric, chance: Chance, schedule: Schedule, s: Expr, run: Run,
                    log: seq<Trial>)
    requires StepsMade(cfg, metric, chance, schedule, s, run) && GoesOn(schedule, run)
    requires StepTried(cfg, metric, chance, schedule, s, run, log)
    requires StepGoesOn(cfg, metric, MovesPerStep(schedule, |cfg.shapes|), log)
    requires GivesUp(chance.draws(TriesIn(run) + |log|), After(AfterAll(s, run), log))
    ensures Stopped(cfg, metric, chance, schedule, s, run, log)
  {
  }

  lemma AnnealedHere(cfg: Config, metric: Metric, chance: Chance, schedule: Schedule, s: Expr, run: Run)
    requires StepsMade(cfg, metric, chance, schedule, s, run) && !GoesOn(schedule, run)
    ensures Annealed(cfg, metric, chance, schedule, s, run)
  {
  }

  /** What the source computes before each step, from the number of units at that time. */
  function MovesNow(schedule: Schedule, flp: Floorplan): int
    reads flp
  {
    Truncated(schedule.movesPerUnit * flp.nUnits as real)
  }

  /** It is the same at every step: whatever was compacted and wrapped has been restored. */
  lemma MovesSteady(cfg: Config, schedule: Schedule, curves: seq<Curve>, stack: NodeStack, flp: Floorplan)
    requires Idle(cfg, curves, stack, flp)
    ensures MovesNow(schedule, flp) == MovesPerStep(schedule, |curves|) && |curves| == |cfg.shapes|
  {
  }

  // ----- the floorplanner -----

  datatype Result = Planned(removed: int) | Aborted

  method InitialExpr(n: nat, stack: NodeStack, flp: Floorplan) returns (expr: Npe)
    requires n >= 2
    ensures fresh(expr.Repr()) && Held(expr, Initial(n), n, stack, flp)
  {
    expr := GetInitial(n);
  }

  /** The expression that the search starts from, evaluated. */
  method Start(cfg: Config, metric: Metric, curves: seq<Curve>, stack: NodeStack, flp: Floorplan)
    returns (search: Search, ghost tried: seq<Expr>)
    requires Idle(cfg, curves, stack, flp)
    modifies stack, stack.slots, flp, flp.units
    ensures Idle(cfg, curves, stack, flp)
    ensures Tracking(cfg, metric, search, tried, stack, flp)
    ensures tried == [Initial(|curves|)] && search.expr.elements[..] == Initial(|curves|)
  {
    hide CostOf, IsNpe, Finished, Held;
    var expr := InitialExpr(|curves|, stack, flp);
    var cost := Evaluate(cfg, metric, curves, stack, flp, expr);
    var best := CopyOf(expr, stack, flp, |curves|);
    search := Search(expr, best, cost, cost);
    tried := [Initial(|curves|)];
    StartTracked(cfg, metric, search, stack, flp);
  }

  lemma StartTracked(cfg: Config, metric: Metric, search: Search, stack: NodeStack, flp: Floorplan)
    requires Sound(cfg) && Held(search.expr, Initial(|cfg.shapes|), |cfg.shapes|, stack, flp)
    requires Held(search.best, Initial(|cfg.shapes|), |cfg.shapes|, stack, flp)
    requires search.cost == search.bestCost == CostOf(cfg, metric, Initial(|cfg.shapes|))
    ensures Tracking(cfg, metric, search, [Initial(|cfg.shapes|)], stack, flp)
  {
    hide CostOf;
    ReachesItself(Initial(|cfg.shapes|));
  }

  /** floorplan from its initial expression to the end of the annealing loop. */
  method SearchBest(cfg: Config, metric: Metric, curves: seq<Curve>, stack: NodeStack, flp: Floorplan,
                    schedule: Schedule, chance: Chance)
    returns (outcome: StepOutcome, ghost run: Run, ghost log: seq<Trial>)
    requires Idle(cfg, curves, stack, flp)
    modifies stack, stack.slots, flp, flp.units
    ensures Idle(cfg, curves, stack, flp)
    ensures outcome.Stepped? ==>
            Tracking(cfg, metric, outcome.search, [Initial(|curves|)] + AllTargets(run), stack, flp)
    ensures outcome.Stepped? ==> Annealed(cfg, metric, chance, schedule, Initial(|curves|), run)
    ensures outcome.StepAborted? ==> Stopped(cfg, metric, chance, schedule, Initial(|curves|), run, log)
  {
    hide *;
    var search;
    ghost var tried;
    search, tried := Start(cfg, metric, curves, stack, flp);
    outcome, run, log := Anneal(cfg, metric, curves, stack, flp, search, schedule, chance, tried);
  }

  /** The end of floorplan: the best expression is realized once more, and its floorplan stays. */
  method RealizeBest(cfg: Config, metric: Metric, curves: seq<Curve>, stack: NodeStack, flp: Floorplan, search: Search,
                     ghost seen: seq<Expr>)
    returns (ghost best: Expr)
    requires Idle(cfg, curves, stack, flp) && Tracking(cfg, metric, search, seen, stack, flp)
    modifies stack, stack.slots, flp, flp.units
    ensures Surveyed(cfg, metric, seen, best)
    ensures flp.nUnits <= flp.units.Length && Counted(flp) == Finished(cfg, best).units
  {
    hide CostOf, IsNpe, Finished;
    best := search.best.elements[..];
    var compacted, rimBlocks := Realize(cfg, curves, stack, flp, search.best);
  }

  /** floorplan. Unless a move gave up, the run of the annealing ended by itself, and the floorplan that is
      left is that of the cheapest of all expressions tried in it, be they accepted or rejected; and it is
      a rectangle that the blocks, the dead blocks, and the cache and the rim if there are any, fill
      without a gap or an overlap. The result is the number of slots of the placeholder that are not used. */
  method FloorplanChip(cfg: Config, metric: Metric, curves: seq<Curve>, flp: Floorplan, schedule: Schedule,
                       chance: Chance)
    returns (result: Result, ghost best: Expr, ghost run: Run, ghost log: seq<Trial>)
    requires Sound(cfg) && |curves| == |cfg.shapes|
    requires forall u | 0 <= u < |curves| :: curves[u].back == [] && curves[u].shapes == cfg.shapes[u]
    requires flp.nUnits == flp.units.Length == Slots(|cfg.shapes|, cfg.wrapL2, cfg.modelRim)
    modifies flp, flp.units
    ensures result.Aborted? ==> Stopped(cfg, metric, chance, schedule, Initial(|curves|), run, log)
    ensures result.Planned? ==> Annealed(cfg, metric, chance, schedule, Initial(|curves|), run)
    ensures result.Planned? ==> Surveyed(cfg, metric, [Initial(|curves|)] + AllTargets(run), best)
    ensures result.Planned? ==> flp.nUnits <= flp.units.Length && result.removed == flp.units.Length - flp.nUnits
    ensures result.Planned? ==> Counted(flp) == Finished(cfg, best).units
    ensures result.Planned? ==> Floored(Counted(flp), Finished(cfg, best).box, cfg.modelRim ==> cfg.rimThickness > 0.0)
  {
    hide Annealed, Stopped, AllTargets;
    var original := flp.nUnits;
    HideExtras(flp, cfg.wrapL2, cfg.modelRim, |curves|);
    var stack := new NodeStack();
    var outcome;
    outcome, run, log := SearchBest(cfg, metric, curves, stack, flp, schedule, chance);
    if outcome.StepAborted? {
      return Aborted, [], run, log;
    }
    best := RealizeBest(cfg, metric, curves, stack, flp, outcome.search, [Initial(|curves|)] + AllTargets(run));
    FinishedFloored(cfg, best);
    result := Planned(original - flp.nUnits);
  }

  /** How many expressions a run tries: at most 2n at each step, and some if it can begin at all; so the
      initial expression is left unchallenged only by a schedule that makes no step, or no moves. */
  lemma TriesMade(cfg: Config, metric: Metric, chance: Chance, schedule: Schedule, s: Expr, run: Run)
    requires Annealed(cfg, metric, chance, schedule, s, run)
    ensures |AllTargets(run)| <= MostMoves(schedule.maxSteps, MovesPerStep(schedule, |cfg.shapes|))
    ensures |AllTargets(run)| > 0 <==>
            schedule.start >= schedule.cold && schedule.maxSteps > 0 && MovesPerStep(schedule, |cfg.shapes|) > 0
  {
    hide Annealed, StepsMade, GoesOn, MovesPerStep;
    var n := MovesPerStep(schedule, |cfg.shapes|);
    AnnealedMade(cfg, metric, chance, schedule, s, run);
    TriesBounded(cfg, metric, chance, schedule, s, run);
    MostMovesOrdered(|run|, schedule.maxSteps, n);
    if schedule.start >= schedule.cold && schedule.maxSteps > 0 && n > 0 {
      SomethingTried(cfg, metric, chance, schedule, s, run);
    }
    if TriesIn(run) > 0 {
      LoopEntered(cfg, metric, chance, schedule, s, run);
    }
  }

  /** make_random_move gives up only in a run that can begin and has moves to make. */
  lemma StoppedEntered(cfg: Config, metric: Metric, chance: Chance, schedule: Schedule, s: Expr, run: Run,
                       log: seq<Trial>)
    requires Stopped(cfg, metric, chance, schedule, s, run, log)
    ensures schedule.start >= schedule.cold && schedule.maxSteps > 0 && MovesPerStep(schedule, |cfg.shapes|) > 0
  {
    hide MovesPerStep, Logged, GivesUp;
    LoopEntered(cfg, metric, chance, schedule, s, run);
  }

  lemma AnnealedMade(cfg: Config, metric: Metric, chance: Chance, schedule: Schedule, s: Expr, run: Run)
    requires Annealed(cfg, metric, chance, schedule, s, run)
    ensures StepsMade(cfg, metric, chance, schedule, s, run) && !GoesOn(schedule, run)
  {
  }
}
