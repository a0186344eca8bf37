/** tree_to_flp (HotSpot/shape.c): the least-area entry of the root curve, sized into a floorplan.
    The whole chain from expression to placed blocks is put together here. */
module TreeSizing {
  import opened PolishExpression
  import opened Geometry
  import opened ShapeCurves
  import opened Placement
  import opened Compaction
  import opened SlicingTree
  import opened Curves
  import opened TreeBuild
  import opened SizingSpec
  import opened Sizing

  /** The entries that the back-pointers lead to from entry pos of the root. */
  function TraceOf(t: CurveTree, pos: nat): (tr: Trace)
    requires pos < |CurveOf(t)|
    ensures tr.pos == pos
  {
    match t
    case Leaf(_, _) => Here(pos)
    case Cut(cut, l, r) =>
      var p := Pairs(cut, CurveOf(l), CurveOf(r))[pos];
      Through(pos, TraceOf(l, p.i), TraceOf(r, p.j))
  }

  /** A node that has just been built holds, from any entry down, the choice of that entry. */
  lemma {:induction false} BuiltFollows(n: Node, t: CurveTree, pos: nat)
    requires Stores(n, t) && pos < |CurveOf(t)|
    ensures Follows(n, Chosen(t, pos), TraceOf(t, pos))
    decreases t
  {
    ChosenRealises(t, pos);
    match t
    case Leaf(_, _) =>
    case Cut(cut, l, r) =>
      var p := Pairs(cut, CurveOf(l), CurveOf(r))[pos];
      BuiltFollows(n.left, l, p.i);
      BuiltFollows(n.right, r, p.j);
      ChosenRealises(l, p.i);
  }

  /** The box that just holds a sized tree, at the origin. */
  function Outline(z: SizedTree): Rect {
    Rect(0.0, 0.0, Box(z).x, Box(z).y)
  }

  /** The plan that tree_to_flp makes from entry pos of the root curve. */
  ghost function PlanAt(t: CurveTree, pos: nat, rule: Rule): Plan
    requires ProperTree(t) && pos < |CurveOf(t)|
  {
    ChosenPositive(t, pos);
    Place(Chosen(t, pos), Outline(Chosen(t, pos)), rule)
  }

  /** A tree whose leaves are n different units, with proper curves. */
  ghost predicate TreeOver(t: CurveTree, n: nat) {
    ProperTree(t) && Permutes(TreeUnits(t), n)
  }

  lemma RootSizable(root: Node, t: CurveTree, n: nat, pos: nat, own: set<Curve>, flp: Floorplan)
    requires Separate(root) && Stores(root, t) && own == CurvesOf(root) && TreeOver(t, n) && pos < |CurveOf(t)|
    requires flp.nUnits == 2 * n - 1 <= flp.units.Length
    ensures Sizable(root, Chosen(t, pos), TraceOf(t, pos), Outline(Chosen(t, pos)), own)
    ensures HasRoom(flp, Chosen(t, pos), n) && LeafUnits(Chosen(t, pos)) == TreeUnits(t)
  {
    BuiltFollows(root, t, pos);
    FollowsIntact(root, Chosen(t, pos), TraceOf(t, pos));
    ChosenPositive(t, pos);
    ChosenUnits(t, pos);
    assert forall u | u in TreeUnits(t) :: 0 <= u < n;
  }

  /** Reading the plan out of the array means that the plan is laid out in its first slots. */
  lemma ReadPlanLaid(units: seq<Rect>, n: nat, count: nat, p: Plan)
    requires Permutes(p.units, n) && ReadPlan(units, p.units, n, n + count) == Some(p)
    ensures |p.dead| == count && n + count <= |units| && Laid(units[..n + count], n, p)
  {
  }

  /** recursive_sizing at the root, from an entry of its curve. */
  method SizeRoot(root: Node, at: nat, rule: Rule, flp: Floorplan, ghost t: CurveTree, ghost n: nat,
                  ghost own: set<Curve>)
    returns (deadCount: nat)
    requires Separate(root) && Stores(root, t) && own == CurvesOf(root) && TreeOver(t, n) && at < |CurveOf(t)|
    requires flp.nUnits == 2 * n - 1 <= flp.units.Length
    modifies own, flp.units
    ensures ReadPlan(flp.units[..], PlanAt(t, at, rule).units, n, n + deadCount) == Some(PlanAt(t, at, rule))
    ensures flp.units[2 * n - 1..] == old(flp.units[2 * n - 1..])
    ensures Permutes(PlanAt(t, at, rule).units, n) && deadCount < n
  {
    hide *;
    ghost var z := Chosen(t, at);
    RootSizable(root, t, n, at, own, flp);
    ghost var before := flp.units[..];
    RootPlan(t, at, rule, n);
    AtOrigin(z);
    deadCount := RecursiveSizing(root, at, 0.0, 0.0, 0, rule, flp, z, TraceOf(t, at), Outline(z), n, own);
    RootKept(before, flp.units[..], t, at, rule, n, deadCount);
  }

  lemma AtOrigin(z: SizedTree)
    ensures Outline(z).leftx == 0.0 && Outline(z).bottomy == 0.0
  {
  }

  lemma RootPlan(t: CurveTree, at: nat, rule: Rule, n: nat)
    requires TreeOver(t, n) && at < |CurveOf(t)|
    ensures PlanAt(t, at, rule).units == LeafUnits(Chosen(t, at)) && Permutes(PlanAt(t, at, rule).units, n)
    ensures |LeafUnits(Chosen(t, at))| == n && |PlanAt(t, at, rule).dead| < n
    ensures Fits(Chosen(t, at), Outline(Chosen(t, at)))
    ensures PlanAt(t, at, rule) == Place(Chosen(t, at), Outline(Chosen(t, at)), rule)
  {
    ChosenPositive(t, at);
    ChosenUnits(t, at);
    PlanBounds(Chosen(t, at), Outline(Chosen(t, at)), rule);
  }

  lemma RootKept(before: seq<Rect>, after: seq<Rect>, t: CurveTree, at: nat, rule: Rule, n: nat, deadCount: nat)
    requires TreeOver(t, n) && at < |CurveOf(t)| && KeptOutside(before, after, Chosen(t, at), n)
    requires 2 * n - 1 <= |before|
    requires Fits(Chosen(t, at), Outline(Chosen(t, at)))
    requires ReadPlan(after, LeafUnits(Chosen(t, at)), n, n + deadCount) ==
             Some(Place(Chosen(t, at), Outline(Chosen(t, at)), rule))
    ensures |after| == |before| && after[2 * n - 1..] == before[2 * n - 1..] && deadCount < n
    ensures ReadPlan(after, PlanAt(t, at, rule).units, n, n + deadCount) == Some(PlanAt(t, at, rule))
  {
    hide TreeOver, BlocksAt;
    RootPlan(t, at, rule, n);
    hide TreeOver, PlanAt, Place;
  }

  /** tree_to_flp. The first nUnits slots hold the plan of a least-area choice of shapes; the
      slots beyond those of the placeholder are not touched. */
  method TreeToFlp(root: Node, flp: Floorplan, compact: bool, ratio: real, ghost t: CurveTree, ghost n: nat,
                   ghost own: set<Curve>)
    returns (compacted: nat, ghost pos: nat)
    requires Separate(root) && Stores(root, t) && own == CurvesOf(root) && TreeOver(t, n)
    requires flp.nUnits == 2 * n - 1 <= flp.units.Length
    modifies own, flp, flp.units
    ensures IsMinAreaPos(CurveOf(t), pos)
    ensures flp.nUnits + compacted == old(flp.nUnits)
    ensures flp.nUnits <= flp.units.Length
    ensures Laid(flp.units[..flp.nUnits], n, PlanAt(t, pos, CompactRule(compact, ratio)))
    ensures compact ==>
            Compacted(Chosen(t, pos), Outline(Chosen(t, pos)), ratio, PlanAt(t, pos, CompactRule(compact, ratio)))
    ensures flp.units[2 * n - 1..] == old(flp.units[2 * n - 1..])
  {
    hide CurveOf;
    StoresCurve(root, t);
    CurveProper(t);
    hide Stores, Separate, CurvesOf, PlanAt, Laid, CurveOf, Compacted;
    var at := MinAreaPos(root.curve.shapes);
    pos := at;
    var deadCount := SizeRoot(root, at, CompactRule(compact, ratio), flp, t, n, own);
    ReadPlanLaid(flp.units[..], n, deadCount, PlanAt(t, pos, CompactRule(compact, ratio)));
    if compact {
      RootCompacted(t, pos, ratio, n);
    }
    compacted := (flp.nUnits - 1) / 2 - deadCount;
    flp.nUnits := flp.nUnits - compacted;
  }

  lemma RootCompacted(t: CurveTree, at: nat, ratio: real, n: nat)
    requires TreeOver(t, n) && at < |CurveOf(t)|
    ensures Compacted(Chosen(t, at), Outline(Chosen(t, at)), ratio, PlanAt(t, at, CompactRule(true, ratio)))
  {
    hide PlanAt, Compacted, CompactRule, CurveOf;
    RootPlan(t, at, CompactRule(true, ratio), n);
    PlanCompacted(Chosen(t, at), Outline(Chosen(t, at)), ratio, PlanAt(t, at, CompactRule(true, ratio)));
  }

  /** The shape that each leaf has chosen is one of the shapes of its unit. */
  lemma {:induction false} ChosenShapes(t: CurveTree, k: nat, shapes: seq<ShapeSeq>)
    requires Labelled(t, shapes) && k < |CurveOf(t)|
    ensures ShapesOf(LeafUnits(Chosen(t, k)), LeafShapes(Chosen(t, k)), shapes)
    decreases t
  {
    match t
    case Leaf(_, _) =>
    case Cut(cut, l, r) =>
      var p := Pairs(cut, CurveOf(l), CurveOf(r))[k];
      ChosenShapes(l, p.i, shapes);
      ChosenShapes(r, p.j, shapes);
      ShapesOfBoth(LeafUnits(Chosen(l, p.i)), LeafShapes(Chosen(l, p.i)), LeafUnits(Chosen(r, p.j)),
                   LeafShapes(Chosen(r, p.j)), shapes);
  }

  ghost predicate ShapesOf(units: seq<int>, chosen: seq<Shape>, shapes: seq<ShapeSeq>) {
    |chosen| == |units| && forall i | 0 <= i < |units| :: 0 <= units[i] < |shapes| && chosen[i] in shapes[units[i]]
  }

  lemma ShapesOfBoth(a: seq<int>, c: seq<Shape>, b: seq<int>, d: seq<Shape>, shapes: seq<ShapeSeq>)
    requires ShapesOf(a, c, shapes) && ShapesOf(b, d, shapes)
    ensures ShapesOf(a + b, c + d, shapes)
  {
  }

  /** Some shape of the unit fits into its rectangle. */
  ghost predicate RoomFor(curve: ShapeSeq, r: Rect) {
    exists i :: 0 <= i < |curve| && AtMost(curve[i], Shape(r.width, r.height))
  }

  lemma LaidRoomy(units: seq<Rect>, n: nat, z: SizedTree, box: Rect, rule: Rule, shapes: seq<ShapeSeq>)
    requires Fits(z, box) && Laid(units, n, Place(z, box, rule)) && |shapes| == n
    requires ShapesOf(LeafUnits(z), LeafShapes(z), shapes)
    ensures forall u | 0 <= u < n :: RoomFor(shapes[u], units[u])
    ensures n <= |units| && |units| < 2 * n
  {
    PlanRoomy(z, box, rule);
    var p := Place(z, box, rule);
    forall u | 0 <= u < n
      ensures RoomFor(shapes[u], units[u])
    {
      assert u in p.units;
      var i :| 0 <= i < |p.units| && p.units[i] == u;
      assert LeafShapes(z)[i] in shapes[u] && units[u] == p.placed[i];
    }
  }

  /** The floorplan that tree_to_flp leaves for a normalized Polish expression over n blocks is
      one of least area, filled exactly: no other choice of shapes has a smaller bounding box;
      the named blocks and at most n - 1 dead blocks fill that box, and stay inside it; and each
      named block has room for one of its shapes. */
  lemma FloorplanOptimal(s: Expr, n: nat, shapes: seq<ShapeSeq>, pos: nat, rule: Rule, units: seq<Rect>,
                         other: SizedTree)
    requires IsNpe(s, n) && |shapes| == n && forall i | 0 <= i < n :: ProperCurve(shapes[i])
    requires TreeOver(Parse(s, shapes), n) && IsMinAreaPos(CurveOf(Parse(s, shapes)), pos)
    requires Laid(units, n, PlanAt(Parse(s, shapes), pos, rule))
    ensures var best := Chosen(Parse(s, shapes), pos);
            IsChoice(best, Parse(s, shapes)) &&
            (IsChoice(other, Parse(s, shapes)) ==> AreaOf(Box(best)) <= AreaOf(Box(other))) &&
            Fills(units, Outline(best)) && AllInside(units, Outline(best), AbsorbsNothing(rule))
    ensures n <= |units| < 2 * n && forall u | 0 <= u < n :: RoomFor(shapes[u], units[u])
  {
    var t := Parse(s, shapes);
    MinAreaOptimal(t, pos, other);
    ChosenPositive(t, pos);
    LaidFills(units, n, Chosen(t, pos), Outline(Chosen(t, pos)), rule);
    assert Labelled(t, shapes) by {
      ParseSkewed(s, n, shapes);
    }
    ChosenShapes(t, pos, shapes);
    LaidRoomy(units, n, Chosen(t, pos), Outline(Chosen(t, pos)), rule, shapes);
  }

  /** The tree of a normalized Polish expression over n blocks. */
  lemma ParsedTreeOver(s: Expr, n: nat, shapes: seq<ShapeSeq>)
    requires IsNpe(s, n) && |shapes| == n && forall i | 0 <= i < n :: ProperCurve(shapes[i])
    ensures TreeOver(Parse(s, shapes), n)
  {
    ParseSkewed(s, n, shapes);
    ParseUnits(s, n, shapes);
    LabelledProper(Parse(s, shapes), shapes);
  }
}
