/** From an expression to a finished floorplan and back to an empty one (HotSpot/flp.c): the sizes
    of the placeholder, the stages that a floorplan goes through, and the clean-up between two
    evaluations. */
module Layout {
  import opened PolishExpression
  import opened Geometry
  import opened ShapeCurves
  import opened Placement
  import opened SlicingTree
  import opened Curves
  import opened TreeBuild
  import opened SizingSpec
  import opened TreeSizing
  import opened FloorplanExtents
  import opened WrapL2
  import opened WrapRim

  /** The blocks, by their shape curves, and what is to be wrapped around them. */
  datatype Config = Config(shapes: seq<ShapeSeq>, compactRatio: real, wrapL2: bool, l2Area: real,
                           modelRim: bool, rimThickness: real, sqrt: real -> real)

  ghost predicate Sound(cfg: Config) {
    2 <= |cfg.shapes| <= MAX_STACK && (forall i | 0 <= i < |cfg.shapes| :: ProperCurve(cfg.shapes[i])) &&
    cfg.compactRatio >= 0.0 && cfg.l2Area > 0.0 && cfg.rimThickness >= 0.0 && IsSqrt(cfg.sqrt)
  }

  // ----- the stages -----

  /** Rectangles, and the box that they are meant to fill. */
  datatype Stage = Stage(units: seq<Rect>, box: Rect)

  ghost function IndexOf(order: seq<int>, u: int): (i: nat)
    requires u in order
    ensures i < |order| && order[i] == u
  {
    var i :| 0 <= i < |order| && order[i] == u;
    i
  }

  /** The rectangles of a plan: blocks by unit number, then the dead blocks. */
  ghost function Arranged(p: Plan, n: nat): seq<Rect>
    requires Permutes(p.units, n) && |p.placed| == |p.units|
  {
    seq(n, u requires 0 <= u < n => p.placed[IndexOf(p.units, u)]) + p.dead
  }

  lemma LaidIsArranged(units: seq<Rect>, n: nat, p: Plan)
    requires Laid(units, n, p)
    ensures units == Arranged(p, n)
  {
    assert forall i | n <= i < |units| :: units[i] == p.dead[i - n];
  }

  lemma ArrangedIsLaid(n: nat, p: Plan)
    requires Permutes(p.units, n) && |p.placed| == |p.units|
    ensures Laid(Arranged(p, n), n, p)
  {
    var units := Arranged(p, n);
    forall i | 0 <= i < |p.units|
      ensures units[p.units[i]] == p.placed[i]
    {
      assert IndexOf(p.units, p.units[i]) == i;
    }
  }

  /** The position that min_area_pos finds. */
  ghost function LeastPos(c: ShapeSeq): (pos: nat)
    requires |c| >= 1
    ensures IsMinAreaPos(c, pos)
    decreases |c|
  {
    if |c| == 1 then 0
    else
      var m := |c| - 1;
      var pos := LeastPos(c[..m]);
      assert forall i | 0 <= i < m :: c[..m][i] == c[i];
      if AreaOf(c[pos]) > AreaOf(c[m]) then m else pos
  }

  /** The tree of the expression, and the entry of least area at its root. */
  ghost function BestPos(cfg: Config, s: Expr): (pos: nat)
    requires Sound(cfg) && IsNpe(s, |cfg.shapes|)
    ensures IsMinAreaPos(CurveOf(Parse(s, cfg.shapes)), pos) && TreeOver(Parse(s, cfg.shapes), |cfg.shapes|)
  {
    ParsedTreeOver(s, |cfg.shapes|, cfg.shapes);
    CurveProper(Parse(s, cfg.shapes));
    LeastPos(CurveOf(Parse(s, cfg.shapes)))
  }

  /** The plan of the core. */
  ghost function CorePlan(cfg: Config, s: Expr): (p: Plan)
    requires Sound(cfg) && IsNpe(s, |cfg.shapes|)
    ensures Permutes(p.units, |cfg.shapes|) && |p.placed| == |p.units| && |p.dead| < |cfg.shapes|
  {
    var t, pos := Parse(s, cfg.shapes), BestPos(cfg, s);
    var z, rule := Chosen(t, pos), CompactRule(true, cfg.compactRatio);
    ChosenPositive(t, pos);
    ChosenUnits(t, pos);
    PlanRoomy(z, Outline(z), rule);
    PlanAt(t, pos, rule)
  }

  /** After tree_to_flp. */
  ghost function CoreStage(cfg: Config, s: Expr): (r: Stage)
    requires Sound(cfg) && IsNpe(s, |cfg.shapes|)
    ensures |cfg.shapes| <= |r.units| < 2 * |cfg.shapes|
    ensures Floored(r.units, r.box, true)
  {
    var t, pos := Parse(s, cfg.shapes), BestPos(cfg, s);
    CoreFloored(cfg, s);
    Stage(Arranged(CorePlan(cfg, s), |cfg.shapes|), Outline(Chosen(t, pos)))
  }

  lemma CoreFloored(cfg: Config, s: Expr)
    requires Sound(cfg) && IsNpe(s, |cfg.shapes|)
    ensures Floored(Arranged(CorePlan(cfg, s), |cfg.shapes|), Outline(Chosen(Parse(s, cfg.shapes), BestPos(cfg, s))),
                    true)
  {
    var t, pos := Parse(s, cfg.shapes), BestPos(cfg, s);
    var rule := CompactRule(true, cfg.compactRatio);
    var units := Arranged(CorePlan(cfg, s), |cfg.shapes|);
    CompactRuleCases(cfg.compactRatio);
    ArrangedIsLaid(|cfg.shapes|, CorePlan(cfg, s));
    FloorplanOptimal(s, |cfg.shapes|, cfg.shapes, pos, rule, units, Chosen(t, pos));
    ChosenPositive(t, pos);
    BoxPositive(Chosen(t, pos));
  }

  /** After flp_wrap_l2, if it is called. */
  ghost function L2Stage(cfg: Config, core: Stage): (r: Stage)
    requires Sound(cfg) && Floored(core.units, core.box, true)
  {
    if cfg.wrapL2 then
      Stage(WithL2(core.units, core.box, cfg.l2Area, cfg.sqrt), L2Outer(core.box, cfg.l2Area, cfg.sqrt))
    else core
  }

  /** After flp_wrap_rim, if it is called. */
  ghost function RimStage(cfg: Config, chip: Stage): Stage {
    if cfg.modelRim then
      var t := cfg.rimThickness;
      Stage(WithRim(Moved(chip.units, t - chip.box.leftx, t - chip.box.bottomy), t, chip.box.width, chip.box.height),
            Frame(t, chip.box.width, chip.box.height))
    else chip
  }

  /** The finished floorplan of an expression. */
  ghost function Finished(cfg: Config, s: Expr): Stage
    requires Sound(cfg) && IsNpe(s, |cfg.shapes|)
  {
    RimStage(cfg, L2Stage(cfg, CoreStage(cfg, s)))
  }

  // ----- the placeholder -----

  /** How many slots a floorplan of n core blocks has: blocks and dead blocks, the three pieces of
      the cache, and for m units in all, 2m + 2 rim strips. */
  function Slots(n: nat, wrapL2: bool, modelRim: bool): nat
    requires n >= 1
  {
    var m := 2 * n - 1 + (if wrapL2 then L2_ARMS + 1 else 0);
    if modelRim then 3 * m + 2 else m
  }

  /** flp_placeholder: the description counts the cache as one unit more. */
  method FlpPlaceholder(descUnits: nat, wrapL2: bool, modelRim: bool) returns (flp: Floorplan)
    requires descUnits >= (if wrapL2 then 2 else 1)
    ensures fresh(flp) && fresh(flp.units)
    ensures flp.nUnits == flp.units.Length == Slots(if wrapL2 then descUnits - 1 else descUnits, wrapL2, modelRim)
  {
    var nDead := descUnits - (if wrapL2 then 1 else 0) - 1;
    var nUnits := descUnits + nDead;
    if wrapL2 {
      nUnits := nUnits + L2_ARMS;
    }
    if modelRim {
      nUnits := nUnits + (2 * nUnits + 2);
    }
    flp := new Floorplan(nUnits, nUnits);
  }

  /** The start of floorplan: rim and cache disappear, which leaves the blocks and dead blocks. */
  method HideExtras(flp: Floorplan, wrapL2: bool, modelRim: bool, ghost n: nat)
    requires n >= 1 && flp.nUnits == flp.units.Length == Slots(n, wrapL2, modelRim)
    modifies flp
    ensures flp.nUnits == 2 * n - 1
  {
    if modelRim {
      flp.nUnits := (flp.nUnits - 2) / 3;
    }
    if wrapL2 {
      flp.nUnits := flp.nUnits - (L2_ARMS + 1);
    }
  }

  /** restore_dead_blocks: whatever was compacted and wrapped, all the dead blocks are back, and
      they are empty. */
  method RestoreDeadBlocks(flp: Floorplan, n: nat, compacted: nat, wrapL2: bool, modelRim: bool, rimBlocks: nat)
    requires n >= 1 && 2 * n - 1 <= flp.units.Length
    requires flp.nUnits + compacted == 2 * n - 1 + (if wrapL2 then L2_ARMS + 1 else 0) +
             (if modelRim then rimBlocks else 0)
    requires compacted < n
    modifies flp, flp.units
    ensures flp.nUnits == 2 * n - 1
    ensures forall i | n <= i < 2 * n - 1 :: flp.units[i] == Rect(0.0, 0.0, 0.0, 0.0)
    ensures forall i | 0 <= i < flp.units.Length && !(n <= i < 2 * n - 1) :: flp.units[i] == old(flp.units[i])
  {
    if modelRim {
      flp.nUnits := flp.nUnits - rimBlocks;
    }
    if wrapL2 {
      flp.nUnits := flp.nUnits - (L2_ARMS + 1);
    }
    flp.nUnits := flp.nUnits + compacted;
    for i := 0 to n - 1
      invariant flp.nUnits == 2 * n - 1
      invariant forall k | n <= k < n + i :: flp.units[k] == Rect(0.0, 0.0, 0.0, 0.0)
      invariant forall k | 0 <= k < flp.units.Length && !(n <= k < n + i) :: flp.units[k] == old(flp.units[k])
    {
      flp.units[n + i] := Rect(0.0, 0.0, 0.0, 0.0);
    }
  }

  // ----- evaluation -----

  /** What is there between two evaluations: an empty stack, the curves of the units, and a
      floorplan of n blocks and n - 1 dead blocks with the slots of a placeholder. */
  ghost predicate Idle(cfg: Config, curves: seq<Curve>, stack: NodeStack, flp: Floorplan)
    reads curves, stack, stack.slots, flp
  {
    Sound(cfg) && |curves| == |cfg.shapes| &&
    (forall u | 0 <= u < |curves| :: curves[u].back == [] && curves[u].shapes == cfg.shapes[u]) &&
    stack.Valid() && stack.nodes == [] &&
    flp.nUnits == 2 * |cfg.shapes| - 1 && flp.units.Length == Slots(|cfg.shapes|, cfg.wrapL2, cfg.modelRim)
  }

  /** The objects that an evaluation works on are not those of an expression. */
  ghost predicate Apart(expr: NpeState.Npe, stack: NodeStack, flp: Floorplan) {
    {stack, stack.slots, flp, flp.units} !! expr.Repr()
  }

  /** tree_from_NPE and tree_to_flp in turn. */
  method RealizeCore(cfg: Config, curves: seq<Curve>, stack: NodeStack, flp: Floorplan, expr: NpeState.Npe)
    returns (compacted: nat)
    requires Idle(cfg, curves, stack, flp) && Apart(expr, stack, flp)
    requires expr.Valid() && expr.unitPos.Length == |cfg.shapes|
    modifies stack, stack.slots, flp, flp.units
    ensures stack.Valid() && stack.nodes == []
    ensures flp.nUnits + compacted == 2 * |cfg.shapes| - 1 && flp.nUnits <= flp.units.Length
    ensures Counted(flp) == CoreStage(cfg, expr.elements[..]).units
  {
    hide Stores, CurveOf, Apart, Arranged, IsMinAreaPos, Chosen, CurvesOf;
    ghost var s, n := expr.elements[..], |cfg.shapes|;
    StackSuffices(s, n, |s|);
    var outcome := TreeFromNpe(curves, cfg.shapes, stack, expr);
    ParsedTreeOver(s, n, cfg.shapes);
    ghost var pos;
    compacted, pos :=
      TreeToFlp(outcome.root, flp, true, cfg.compactRatio, Parse(s, cfg.shapes), n, CurvesOf(outcome.root));
    SamePos(CurveOf(Parse(s, cfg.shapes)), pos, BestPos(cfg, s));
    LaidIsArranged(Counted(flp), n, CorePlan(cfg, s));
  }

  lemma SamePos(c: ShapeSeq, p: nat, q: nat)
    requires IsMinAreaPos(c, p) && IsMinAreaPos(c, q)
    ensures p == q
  {
    assert AreaOf(c[p]) == AreaOf(c[q]);
  }

  /** The finished floorplan of any expression, with all the blocks, the cache if there is one,
      and the rim if there is one, is a rectangle without a gap or an overlap. */
  lemma FinishedFloored(cfg: Config, s: Expr)
    requires Sound(cfg) && IsNpe(s, |cfg.shapes|)
    ensures var f := Finished(cfg, s);
            Floored(f.units, f.box, cfg.modelRim ==> cfg.rimThickness > 0.0) &&
            |f.units| <= Slots(|cfg.shapes|, cfg.wrapL2, cfg.modelRim)
  {
    var core := CoreStage(cfg, s);
    L2StageFloored(cfg, core);
    RimStageFloored(cfg, L2Stage(cfg, core));
  }

  lemma L2StageFloored(cfg: Config, core: Stage)
    requires Sound(cfg) && Floored(core.units, core.box, true)
    ensures var chip := L2Stage(cfg, core);
            Floored(chip.units, chip.box, true) &&
            |chip.units| == |core.units| + (if cfg.wrapL2 then L2_ARMS + 1 else 0)
  {
    if cfg.wrapL2 {
      var m := L2Margins(core.box.width, core.box.height, cfg.l2Area, cfg.sqrt);
      MovedFloored(core.units, core.box, true, m.x - core.box.leftx, m.y - core.box.bottomy);
      L2Fills(Moved(core.units, m.x - core.box.leftx, m.y - core.box.bottomy), m.x, m.y, core.box.width,
              core.box.height, true);
    }
  }

  lemma RimStageFloored(cfg: Config, chip: Stage)
    requires Sound(cfg) && Floored(chip.units, chip.box, true)
    ensures var f := RimStage(cfg, chip);
            Floored(f.units, f.box, cfg.modelRim ==> cfg.rimThickness > 0.0) &&
            |f.units| <= if cfg.modelRim then 3 * |chip.units| + 2 else |chip.units|
  {
    if cfg.modelRim {
      var t := cfg.rimThickness;
      MovedFloored(chip.units, chip.box, true, t - chip.box.leftx, t - chip.box.bottomy);
      RimFloored(Moved(chip.units, t - chip.box.leftx, t - chip.box.bottomy), t, chip.box.width, chip.box.height);
    }
  }

  /** What an evaluation leaves: the finished floorplan in the first slots, and the numbers from
      which restore_dead_blocks can undo it. */
  ghost predicate Realized(cfg: Config, s: Expr, flp: Floorplan, compacted: nat, rimBlocks: nat)
    requires Sound(cfg) && IsNpe(s, |cfg.shapes|)
    reads flp, flp.units
  {
    flp.nUnits <= flp.units.Length && Counted(flp) == Finished(cfg, s).units && compacted < |cfg.shapes| &&
    flp.nUnits + compacted == 2 * |cfg.shapes| - 1 + (if cfg.wrapL2 then L2_ARMS + 1 else 0) +
    (if cfg.modelRim then rimBlocks else 0)
  }

  /** flp_wrap_l2, if there is a cache. */
  method WrapCache(cfg: Config, flp: Floorplan, ghost core: Stage)
    requires Sound(cfg) && Floored(core.units, core.box, true)
    requires flp.nUnits + (if cfg.wrapL2 then L2_ARMS + 1 else 0) <= flp.units.Length && Counted(flp) == core.units
    modifies flp, flp.units
    ensures flp.nUnits == old(flp.nUnits) + (if cfg.wrapL2 then L2_ARMS + 1 else 0) && flp.nUnits <= flp.units.Length
    ensures Counted(flp) == L2Stage(cfg, core).units
  {
    if cfg.wrapL2 {
      FlpWrapL2(flp, cfg.l2Area, cfg.sqrt, core.box, true);
    }
  }

  /** flp_wrap_rim, if there is a rim. */
  method WrapFrame(cfg: Config, flp: Floorplan, ghost chip: Stage) returns (rimBlocks: nat)
    requires cfg.rimThickness >= 0.0 && Floored(chip.units, chip.box, true)
    requires (if cfg.modelRim then 3 * flp.nUnits + 2 else flp.nUnits) <= flp.units.Length && Counted(flp) == chip.units
    modifies flp, flp.units
    ensures flp.nUnits == old(flp.nUnits) + (if cfg.modelRim then rimBlocks else 0) && flp.nUnits <= flp.units.Length
    ensures Counted(flp) == RimStage(cfg, chip).units
  {
    rimBlocks := 0;
    if cfg.modelRim {
      rimBlocks := FlpWrapRim(flp, cfg.rimThickness, chip.box);
    }
  }

  /** One evaluation, up to the metric. */
  method Realize(cfg: Config, curves: seq<Curve>, stack: NodeStack, flp: Floorplan, expr: NpeState.Npe)
    returns (compacted: nat, rimBlocks: nat)
    requires Idle(cfg, curves, stack, flp) && Apart(expr, stack, flp)
    requires expr.Valid() && expr.unitPos.Length == |cfg.shapes|
    modifies stack, stack.slots, flp, flp.units
    ensures stack.Valid() && stack.nodes == []
    ensures Realized(cfg, expr.elements[..], flp, compacted, rimBlocks)
  {
    ghost var s := expr.elements[..];
    compacted := RealizeCore(cfg, curves, stack, flp, expr);
    ghost var core := CoreStage(cfg, s);
    L2StageFloored(cfg, core);
    WrapCache(cfg, flp, core);
    rimBlocks := WrapFrame(cfg, flp, L2Stage(cfg, core));
  }
}
