/** What the in-place sizing of a slicing tree (recursive_sizing, HotSpot/shape.c) needs and leaves:
    which curve entries it relies on, which slots of the floorplan it may write, and how the
    plans of two children add up to the plan of their parent. */
module SizingSpec {
  import opened PolishExpression
  import opened Geometry
  import opened ShapeCurves
  import opened Placement
  import opened Curves
  import opened TreeBuild

  /** flp_t: the units placed so far; how many of the slots count. */
  class Floorplan {
    const units: array<Rect>
    var nUnits: nat

    constructor (capacity: nat, n: nat)
      requires n <= capacity
      ensures units.Length == capacity && nUnits == n
      ensures fresh(this) && fresh(units)
    {
      units := new Rect[capacity](_ => Rect(0.0, 0.0, 0.0, 0.0));
      nUnits := n;
    }
  }

  // ----- the entries that sizing looks at -----

  /** The entry chosen at a node, and those that its back-pointers lead to. */
  datatype Trace = Here(pos: nat) | Through(pos: nat, left: Trace, right: Trace)

  /** The back-pointers at an entry of a cut, and its line between the children. */
  ghost predicate BackIs(c: Curve, pos: nat, lp: nat, rp: nat, divider: real) {
    pos < |c.back| && c.back[pos] == Back(lp, rp, divider)
  }

  ghost predicate EntryIs(c: Curve, pos: nat, shape: Shape)
    reads c
  {
    pos < |c.shapes| && c.shapes[pos] == shape
  }

  /** From this entry down, the curves hold the sized tree: every subtree has the shape that just
      holds its children. */
  ghost predicate Follows(n: Node, z: SizedTree, tr: Trace)
    reads CurvesOf(n)
    decreases z
  {
    EntryIs(n.curve, tr.pos, Box(z)) &&
    match z
    case SizedLeaf(unit, _) => n.LeafNode? && n.unit == unit
    case SizedCut(cut, l, r) =>
      n.CutNode? && n.cut == cut && tr.Through? &&
      BackIs(n.curve, tr.pos, tr.left.pos, tr.right.pos, Divider(cut, Box(l))) &&
      Follows(n.left, l, tr.left) && Follows(n.right, r, tr.right)
  }

  /** The curves below the node. */
  ghost function Lower(n: Node): (s: set<Curve>)
    ensures s <= CurvesOf(n)
    ensures Separate(n) ==> n.curve !in s
  {
    match n
    case LeafNode(_, _) => {}
    case CutNode(_, left, right, _) => CurvesOf(left) + CurvesOf(right)
  }

  /** The same as Follows, without the entry of the node itself. */
  ghost predicate IntactBelow(n: Node, z: SizedTree, tr: Trace)
    reads Lower(n)
  {
    match z
    case SizedLeaf(unit, _) => n.LeafNode? && n.unit == unit
    case SizedCut(cut, l, r) =>
      n.CutNode? && n.cut == cut && tr.Through? &&
      BackIs(n.curve, tr.pos, tr.left.pos, tr.right.pos, Divider(cut, Box(l))) &&
      Follows(n.left, l, tr.left) && Follows(n.right, r, tr.right)
  }

  lemma FollowsIntact(n: Node, z: SizedTree, tr: Trace)
    requires Follows(n, z, tr)
    ensures IntactBelow(n, z, tr) && EntryIs(n.curve, tr.pos, Box(z))
  {
  }

  /** The node may be sized into the box: its own entry has the size of the box, and the nodes
      below it hold the sized tree. */
  ghost predicate ReadyFor(n: Node, z: SizedTree, tr: Trace, box: Rect)
    reads CurvesOf(n)
  {
    match box
    case Rect(_, _, width, height) =>
      Separate(n) && IntactBelow(n, z, tr) && EntryIs(n.curve, tr.pos, Shape(width, height))
  }

  // ----- what may be written -----

  /** Only this slot has changed. */
  ghost predicate KeptBut(before: seq<Rect>, after: seq<Rect>, slot: nat) {
    |after| == |before| && forall k | 0 <= k < |before| && k != slot :: after[k] == before[k]
  }

  ghost predicate DeadAt(units: seq<Rect>, dead: seq<Rect>, from: nat) {
    from + |dead| <= |units| && units[from..from + |dead|] == dead
  }

  ghost predicate Indices(order: seq<int>, size: nat) {
    forall i | 0 <= i < |order| :: 0 <= order[i] < size
  }

  /** The rectangles of the given units, in that order. */
  ghost function BlocksAt(units: seq<Rect>, order: seq<int>): (r: seq<Rect>)
    requires Indices(order, |units|)
    ensures |r| == |order| && forall i | 0 <= i < |order| :: r[i] == units[order[i]]
  {
    seq(|order|, i requires 0 <= i < |order| => units[order[i]])
  }

  /** The plan is in the array: its blocks at their unit numbers, its dead blocks from a slot on. */
  ghost predicate Written(units: seq<Rect>, p: Plan, from: nat) {
    DeadAt(units, p.dead, from) &&
    Indices(p.units, |units|) && BlocksAt(units, p.units) == p.placed
  }

  ghost predicate Distinct(order: seq<int>) {
    forall i, j | 0 <= i < j < |order| :: order[i] != order[j]
  }

  /** The slots that sizing the tree may write: its units and one dead slot for each cut. */
  ghost predicate MayWrite(z: SizedTree, from: nat, k: int) {
    k in LeafUnits(z) || from <= k < from + |LeafUnits(z)| - 1
  }

  /** Nothing but those slots has changed. */
  ghost predicate KeptOutside(before: seq<Rect>, after: seq<Rect>, z: SizedTree, from: nat) {
    |after| == |before| && forall k | 0 <= k < |before| && !MayWrite(z, from, k) :: after[k] == before[k]
  }

  /** What was written for one part stays when only slots of another part change. */
  lemma WrittenKept(before: seq<Rect>, after: seq<Rect>, p: Plan, from: nat, n: nat, z: SizedTree, next: nat)
    requires Written(before, p, from) && KeptOutside(before, after, z, next)
    requires from + |p.dead| <= next && n <= from
    requires forall u | u in p.units :: u < n && u !in LeafUnits(z)
    requires forall u | u in LeafUnits(z) :: u < n
    ensures Written(after, p, from)
  {
    assert forall i | 0 <= i < |p.units| :: p.units[i] in p.units;
    assert BlocksAt(after, p.units) == BlocksAt(before, p.units);
  }

  lemma DeadKept(before: seq<Rect>, after: seq<Rect>, dead: seq<Rect>, from: nat, n: nat, z: SizedTree, next: nat)
    requires DeadAt(before, dead, from) && KeptOutside(before, after, z, next)
    requires from + |dead| <= next && n <= from
    requires forall u | u in LeafUnits(z) :: u < n
    ensures DeadAt(after, dead, from)
  {
  }

  /** Plans of the two parts, written one after the other, are the plan of the whole. */
  lemma WrittenJoin(units: seq<Rect>, dead: seq<Rect>, p: Plan, q: Plan, from: nat)
    requires DeadAt(units, dead, from)
    requires Written(units, p, from + |dead|) && Written(units, q, from + |dead| + |p.dead|)
    ensures Written(units, Join(dead, p, q), from)
  {
  }

  lemma UnitsOfHalves(z: SizedTree)
    requires z.SizedCut?
    ensures |LeafUnits(z)| == |LeafUnits(z.left)| + |LeafUnits(z.right)|
    ensures forall u | u in LeafUnits(z.left) :: u in LeafUnits(z)
    ensures forall u | u in LeafUnits(z.right) :: u in LeafUnits(z)
    ensures Distinct(LeafUnits(z)) ==> Distinct(LeafUnits(z.left)) && Distinct(LeafUnits(z.right)) &&
                                       forall u | u in LeafUnits(z.left) :: u !in LeafUnits(z.right)
  {
    var a, b := LeafUnits(z.left), LeafUnits(z.right);
    assert LeafUnits(z) == a + b;
    assert forall i | 0 <= i < |a| :: (a + b)[i] == a[i];
    assert forall i | 0 <= i < |b| :: (a + b)[|a| + i] == b[i];
  }

  datatype Option<T> = None | Some(value: T)

  /** The plan that the array holds: the rectangles of the given units, and those in the slots
      from .. to as dead blocks. */
  ghost function ReadPlan(units: seq<Rect>, order: seq<int>, from: nat, to: nat): Option<Plan> {
    if from <= to <= |units| && Indices(order, |units|) then Some(Plan(order, BlocksAt(units, order), units[from..to]))
    else None
  }

  /** How the box of a cut is divided between its children. */
  ghost function DivisionOf(z: SizedTree, box: Rect, rule: Rule): (d: Division)
    requires z.SizedCut? && Fits(z, box)
    ensures Fits(z.left, d.left) && Fits(z.right, d.right) && |d.dead| <= 1
  {
    BoxPositive(z.left);
    BoxPositive(z.right);
    DivideFits(z.cut, Box(z.left), Box(z.right), box, rule);
    Divide(z.cut, Box(z.left), Box(z.right), box, rule)
  }

  /** A dead block, then the left part, then the right part: the whole is in the array, and no
      slot but those of the whole was touched. */
  lemma JoinInTurn(start: seq<Rect>, fitted: seq<Rect>, middle: seq<Rect>, end: seq<Rect>, z: SizedTree,
                   dead: seq<Rect>, p: Plan, q: Plan, n: nat, from: nat, fromLeft: nat, fromRight: nat, to: nat)
    requires z.SizedCut? && p.units == LeafUnits(z.left) && q.units == LeafUnits(z.right)
    requires n <= from && fromLeft == from + |dead| && |dead| <= 1 && fromRight < fromLeft + |LeafUnits(z.left)|
    requires Distinct(LeafUnits(z)) && forall u | u in LeafUnits(z) :: u < n
    requires KeptBut(start, fitted, from) && DeadAt(fitted, dead, from)
    requires KeptOutside(fitted, middle, z.left, fromLeft) && ReadPlan(middle, p.units, fromLeft, fromRight) == Some(p)
    requires KeptOutside(middle, end, z.right, fromRight) && ReadPlan(end, q.units, fromRight, to) == Some(q)
    ensures ReadPlan(end, LeafUnits(z), from, to) == Some(Join(dead, p, q))
    ensures KeptOutside(start, end, z, from)
  {
    UnitsOfHalves(z);
    assert fromRight == fromLeft + |p.dead| && to == fromRight + |q.dead|;
    DeadKept(fitted, middle, dead, from, n, z.left, fromLeft);
    DeadKept(middle, end, dead, from, n, z.right, fromRight);
    WrittenKept(middle, end, p, fromLeft, n, z.right, fromRight);
    WrittenJoin(end, dead, p, q, from);
    forall k | 0 <= k < |start| && !MayWrite(z, from, k)
      ensures end[k] == start[k]
    {
      assert !MayWrite(z.left, fromLeft, k) && !MayWrite(z.right, fromRight, k) && k != from;
    }
  }

  /** How many dead blocks a part can have. */
  lemma PlanBounds(z: SizedTree, box: Rect, rule: Rule)
    requires Fits(z, box)
    ensures Place(z, box, rule).units == LeafUnits(z) && |Place(z, box, rule).dead| < |LeafUnits(z)|
  {
    PlanRoomy(z, box, rule);
  }

  /** The same, for the plans of the two children of a division. */
  lemma DivisionInTurn(start: seq<Rect>, fitted: seq<Rect>, middle: seq<Rect>, end: seq<Rect>, z: SizedTree,
                       d: Division, rule: Rule,
                     whole: Plan, n: nat, from: nat, fromLeft: nat, fromRight: nat, to: nat)
    requires z.SizedCut? && Fits(z.left, d.left) && Fits(z.right, d.right)
    requires whole == Join(d.dead, Place(z.left, d.left, rule), Place(z.right, d.right, rule))
    requires n <= from && fromLeft == from + |d.dead| && |d.dead| <= 1
    requires Distinct(LeafUnits(z)) && forall u | u in LeafUnits(z) :: 0 <= u < n
    requires KeptBut(start, fitted, from) && DeadAt(fitted, d.dead, from)
    requires KeptOutside(fitted, middle, z.left, fromLeft)
    requires ReadPlan(middle, LeafUnits(z.left), fromLeft, fromRight) == Some(Place(z.left, d.left, rule))
    requires KeptOutside(middle, end, z.right, fromRight)
    requires ReadPlan(end, LeafUnits(z.right), fromRight, to) == Some(Place(z.right, d.right, rule))
    ensures ReadPlan(end, LeafUnits(z), from, to) == Some(whole)
    ensures KeptOutside(start, end, z, from)
  {
    PlanBounds(z.left, d.left, rule);
    PlanBounds(z.right, d.right, rule);
    JoinInTurn(start, fitted, middle, end, z, d.dead, Place(z.left, d.left, rule), Place(z.right, d.right, rule),
               n, from, fromLeft, fromRight, to);
  }

  // ----- what the recursion needs -----

  /** Two separate children that hold the two parts, under a parent whose entry they fit into. */
  ghost predicate ChildrenFit(self: Curve, pos: nat, left: Node, right: Node, z: SizedTree, tr: Trace)
    reads self, CurvesOf(left), CurvesOf(right)
  {
    z.SizedCut? && tr.Through? && pos == tr.pos && Positive(z) &&
    Separate(left) && Follows(left, z.left, tr.left) && Separate(right) && Follows(right, z.right, tr.right) &&
    CurvesOf(left) !! CurvesOf(right) && self !in CurvesOf(left) && self !in CurvesOf(right) &&
    pos < |self.shapes| && AtMost(Box(z), self.shapes[pos])
  }

  /** The node can be sized into the box; own is all of its storage. */
  ghost predicate Sizable(n: Node, z: SizedTree, tr: Trace, box: Rect, own: set<Curve>)
    reads own
  {
    own == CurvesOf(n) && ReadyFor(n, z, tr, box) && Fits(z, box)
  }

  /** The floorplan has the slots for n blocks and n - 1 dead blocks; the units of the tree are
      different ones of the n. */
  ghost predicate HasRoom(flp: Floorplan, z: SizedTree, n: nat)
    reads flp
  {
    flp.nUnits == 2 * n - 1 <= flp.units.Length &&
    Distinct(LeafUnits(z)) && (forall u | u in LeafUnits(z) :: 0 <= u < n)
  }

  lemma RoomForChildren(flp: Floorplan, z: SizedTree, n: nat)
    requires z.SizedCut? && HasRoom(flp, z, n)
    ensures HasRoom(flp, z.left, n) && HasRoom(flp, z.right, n)
    ensures |LeafUnits(z)| == |LeafUnits(z.left)| + |LeafUnits(z.right)|
  {
    UnitsOfHalves(z);
  }

  /** What is known at a cut that is to be sized. */
  lemma CutReady(n: Node, z: SizedTree, tr: Trace, box: Rect, rule: Rule)
    requires z.SizedCut? && ReadyFor(n, z, tr, box) && Fits(z, box)
    ensures n.CutNode? && n.cut == z.cut && tr.Through?
    ensures BackIs(n.curve, tr.pos, tr.left.pos, tr.right.pos, Divider(z.cut, Box(z.left)))
    ensures ChildrenFit(n.curve, tr.pos, n.left, n.right, z, tr)
    ensures n.curve.shapes[tr.pos] == Shape(box.width, box.height)
    ensures var d := DivisionOf(z, box, rule);
            d.left.leftx == box.leftx && d.left.bottomy == box.bottomy &&
            (if z.cut == CUT_VERTICAL then d.right.leftx == box.leftx + Divider(z.cut, Box(z.left)) &&
             d.right.bottomy == box.bottomy
             else d.right.leftx == box.leftx && d.right.bottomy == box.bottomy + Divider(z.cut, Box(z.left)))
  {
  }

  /** A node is a leaf or a cut as its tree is; a leaf has its slot, and its entry is its box. */
  lemma LeafOrCut(n: Node, z: SizedTree, tr: Trace, box: Rect, flp: Floorplan, blocks: nat, own: set<Curve>)
    requires Sizable(n, z, tr, box, own) && HasRoom(flp, z, blocks)
    ensures n.LeafNode? <==> z.SizedLeaf?
    ensures n.LeafNode? ==> n.unit == z.unit < blocks && z.unit < flp.units.Length
    ensures tr.pos < |n.curve.shapes| && n.curve.shapes[tr.pos] == Shape(box.width, box.height)
  {
    if z.SizedLeaf? {
      assert z.unit in LeafUnits(z);
    }
  }

  /** Writing its box in its slot is all there is to do for a leaf. */
  lemma LeafInPlace(before: seq<Rect>, z: SizedTree, box: Rect, rule: Rule, from: nat)
    requires z.SizedLeaf? && Fits(z, box) && z.unit < |before| && from <= |before|
    ensures var after := before[z.unit := box];
            ReadPlan(after, LeafUnits(z), from, from) == Some(Place(z, box, rule)) &&
            KeptOutside(before, after, z, from)
  {
    var after := before[z.unit := box];
    assert z.unit in LeafUnits(z);
    assert BlocksAt(after, LeafUnits(z)) == [box] && after[from..from] == [];
  }
}
