/** recursive_sizing (HotSpot/shape.c) as it is written: the box that a child
    must fill is told to it by enlarging, in place, the entry of the child's own curve. Proved
    to write exactly the plan of Placement.dfy into the floorplan. */
module Sizing {
  import opened Numbers
  import opened PolishExpression
  import opened Geometry
  import opened ShapeCurves
  import opened Placement
  import opened Curves
  import opened TreeBuild
  import opened SizingSpec

  // ----- fitting the children of a cut -----

  /** The part of recursive_sizing for a vertical cut that comes before the recursion: the slack
      of the box goes to the children, the dead block is written to slot idx, and the gap is
      absorbed if it is small enough. */
  method FitVertical(self: Curve, left: Curve, right: Curve, pos: nat, lp: nat, rp: nat, leftx: real, bottomy: real,
                     units: array<Rect>, idx: nat, rule: Rule, ghost a: Shape, ghost c: Shape)
    returns (absorbed: bool)
    requires pos < |self.shapes| && idx < units.Length && self != left && self != right && left != right
    requires EntryIs(left, lp, a) && EntryIs(right, rp, c) && a.x > 0.0 && a.y > 0.0 && c.x > 0.0 && c.y > 0.0
    requires AtMost(Combine(CUT_VERTICAL, a, c), self.shapes[pos])
    modifies left, right, units
    ensures var d := Divide(CUT_VERTICAL, a, c, Rect(leftx, bottomy, self.shapes[pos].x, self.shapes[pos].y), rule);
            EntryIs(left, lp, Shape(d.left.width, d.left.height)) &&
            EntryIs(right, rp, Shape(d.right.width, d.right.height)) &&
            (absorbed <==> d.dead == []) && DeadAt(units[..], d.dead, idx)
    ensures KeptBut(old(units[..]), units[..], idx)
  {
    var x1, x2, y1, y2 := GrowVertical(self, left, right, pos, lp, rp, a, c);
    units[idx] := Rect(leftx + (if y2 >= y1 then 0.0 else x1), bottomy + Min(y1, y2),
                       if y2 >= y1 then x1 else x2, Abs(y2 - y1));
    absorbed := rule(Abs(y2 - y1), Min(y1, y2));
    if absorbed {
      if y2 >= y1 {
        left.SetY(lp, y2);
      } else {
        right.SetY(rp, y1);
      }
    }
  }

  /** The slack of the box goes to the children: across the cut to both, along it to the right one. */
  method GrowVertical(self: Curve, left: Curve, right: Curve, pos: nat, lp: nat, rp: nat, ghost a: Shape,
                      ghost c: Shape)
    returns (x1: real, x2: real, y1: real, y2: real)
    requires pos < |self.shapes| && self != left && self != right && left != right
    requires EntryIs(left, lp, a) && EntryIs(right, rp, c)
    requires AtMost(Combine(CUT_VERTICAL, a, c), self.shapes[pos])
    modifies left, right
    ensures EntryIs(left, lp, Shape(x1, y1)) && EntryIs(right, rp, Shape(x2, y2))
    ensures x1 == a.x && x2 == self.shapes[pos].x - a.x
    ensures y1 == self.shapes[pos].y - Max(a.y, c.y) + a.y && y2 == self.shapes[pos].y - Max(a.y, c.y) + c.y
  {
    var x, y := self.shapes[pos].x, self.shapes[pos].y;
    x1, x2, y1, y2 := left.shapes[lp].x, right.shapes[rp].x, left.shapes[lp].y, right.shapes[rp].y;
    if y > Max(y1, y2) {
      left.SetY(lp, left.shapes[lp].y + (y - Max(y1, y2)));
      right.SetY(rp, right.shapes[rp].y + (y - Max(y1, y2)));
      y1, y2 := left.shapes[lp].y, right.shapes[rp].y;
    }
    if x > x1 + x2 {
      right.SetX(rp, right.shapes[rp].x + (x - (x1 + x2)));
      x2 := right.shapes[rp].x;
    }
  }

  /** The same for a horizontal cut. */
  method FitHorizontal(self: Curve, left: Curve, right: Curve, pos: nat, lp: nat, rp: nat, leftx: real, bottomy: real,
                       units: array<Rect>, idx: nat, rule: Rule, cut: int, ghost a: Shape, ghost c: Shape)
    returns (absorbed: bool)
    requires cut != CUT_VERTICAL
    requires pos < |self.shapes| && idx < units.Length && self != left && self != right && left != right
    requires EntryIs(left, lp, a) && EntryIs(right, rp, c) && a.x > 0.0 && a.y > 0.0 && c.x > 0.0 && c.y > 0.0
    requires AtMost(Combine(cut, a, c), self.shapes[pos])
    modifies left, right, units
    ensures var d := Divide(cut, a, c, Rect(leftx, bottomy, self.shapes[pos].x, self.shapes[pos].y), rule);
            EntryIs(left, lp, Shape(d.left.width, d.left.height)) &&
            EntryIs(right, rp, Shape(d.right.width, d.right.height)) &&
            (absorbed <==> d.dead == []) && DeadAt(units[..], d.dead, idx)
    ensures KeptBut(old(units[..]), units[..], idx)
  {
    var x1, x2, y1, y2 := GrowHorizontal(self, left, right, pos, lp, rp, cut, a, c);
    units[idx] := Rect(leftx + Min(x1, x2), bottomy + (if x2 >= x1 then 0.0 else y1),
                       Abs(x2 - x1), if x2 >= x1 then y1 else y2);
    absorbed := rule(Abs(x2 - x1), Min(x1, x2));
    if absorbed {
      if x2 >= x1 {
        left.SetX(lp, x2);
      } else {
        right.SetX(rp, x1);
      }
    }
  }

  method GrowHorizontal(self: Curve, left: Curve, right: Curve, pos: nat, lp: nat, rp: nat, cut: int, ghost a: Shape,
                        ghost c: Shape)
    returns (x1: real, x2: real, y1: real, y2: real)
    requires cut != CUT_VERTICAL
    requires pos < |self.shapes| && self != left && self != right && left != right
    requires EntryIs(left, lp, a) && EntryIs(right, rp, c)
    requires AtMost(Combine(cut, a, c), self.shapes[pos])
    modifies left, right
    ensures EntryIs(left, lp, Shape(x1, y1)) && EntryIs(right, rp, Shape(x2, y2))
    ensures x1 == self.shapes[pos].x - Max(a.x, c.x) + a.x && x2 == self.shapes[pos].x - Max(a.x, c.x) + c.x
    ensures y1 == a.y && y2 == self.shapes[pos].y - a.y
  {
    var x, y := self.shapes[pos].x, self.shapes[pos].y;
    x1, x2, y1, y2 := left.shapes[lp].x, right.shapes[rp].x, left.shapes[lp].y, right.shapes[rp].y;
    if x > Max(x1, x2) {
      left.SetX(lp, left.shapes[lp].x + (x - Max(x1, x2)));
      right.SetX(rp, right.shapes[rp].x + (x - Max(x1, x2)));
      x1, x2 := left.shapes[lp].x, right.shapes[rp].x;
    }
    if y > y1 + y2 {
      right.SetY(rp, right.shapes[rp].y + (y - (y1 + y2)));
      y2 := right.shapes[rp].y;
    }
  }

  method FitNodesVertical(self: Curve, left: Node, right: Node, pos: nat, lp: nat, rp: nat, leftx: real, bottomy: real,
                  units: array<Rect>, idx: nat, rule: Rule, ghost z: SizedTree, ghost tr: Trace, ghost box: Rect,
                  ghost d: Division, ghost lowerLeft: set<Curve>, ghost lowerRight: set<Curve>)
    returns (absorbed: bool)
    requires ChildrenFit(self, pos, left, right, z, tr) && z.cut == CUT_VERTICAL && lp == tr.left.pos
    requires rp == tr.right.pos
    requires lowerLeft == Lower(left) && lowerRight == Lower(right) && idx < units.Length
    requires box == Rect(leftx, bottomy, self.shapes[pos].x, self.shapes[pos].y) && d == DivisionOf(z, box, rule)
    modifies left.curve, right.curve, units
    ensures ReadyFor(left, z.left, tr.left, d.left) && ReadyFor(right, z.right, tr.right, d.right)
    ensures (absorbed <==> d.dead == []) && DeadAt(units[..], d.dead, idx)
    ensures KeptBut(old(units[..]), units[..], idx)
  {
    FollowsIntact(left, z.left, tr.left);
    FollowsIntact(right, z.right, tr.right);
    BoxPositive(z.left);
    BoxPositive(z.right);
    absorbed := FitVertical(self, left.curve, right.curve, pos, lp, rp, leftx, bottomy, units, idx, rule, Box(z.left),
                            Box(z.right));
  }

  method FitNodesHorizontal(self: Curve, left: Node, right: Node, pos: nat, lp: nat, rp: nat, leftx: real,
                            bottomy: real,
                  units: array<Rect>, idx: nat, rule: Rule, ghost z: SizedTree, ghost tr: Trace, ghost box: Rect,
                  ghost d: Division, ghost lowerLeft: set<Curve>, ghost lowerRight: set<Curve>, cut: int)
    returns (absorbed: bool)
    requires ChildrenFit(self, pos, left, right, z, tr) && z.cut == cut != CUT_VERTICAL && lp == tr.left.pos
    requires rp == tr.right.pos
    requires lowerLeft == Lower(left) && lowerRight == Lower(right) && idx < units.Length
    requires box == Rect(leftx, bottomy, self.shapes[pos].x, self.shapes[pos].y) && d == DivisionOf(z, box, rule)
    modifies left.curve, right.curve, units
    ensures ReadyFor(left, z.left, tr.left, d.left) && ReadyFor(right, z.right, tr.right, d.right)
    ensures (absorbed <==> d.dead == []) && DeadAt(units[..], d.dead, idx)
    ensures KeptBut(old(units[..]), units[..], idx)
  {
    FollowsIntact(left, z.left, tr.left);
    FollowsIntact(right, z.right, tr.right);
    BoxPositive(z.left);
    BoxPositive(z.right);
    absorbed := FitHorizontal(self, left.curve, right.curve, pos, lp, rp, leftx, bottomy, units, idx, rule, cut,
                              Box(z.left), Box(z.right));
  }

  // ----- the recursion -----

  /** recursive_sizing. The return value is the number of dead blocks written so far; every write
      is inside the first nUnits slots. */
  method RecursiveSizing(node: Node, pos: nat, leftx: real, bottomy: real, deadCount: nat, rule: Rule,
                         flp: Floorplan, ghost z: SizedTree, ghost tr: Trace, ghost box: Rect, ghost n: nat,
                         ghost own: set<Curve>)
    returns (count: nat)
    requires Sizable(node, z, tr, box, own) && pos == tr.pos && box.leftx == leftx && box.bottomy == bottomy
    requires HasRoom(flp, z, n) && deadCount + |LeafUnits(z)| <= n
    modifies own, flp.units
    ensures ReadPlan(flp.units[..], LeafUnits(z), n + deadCount, n + count) == Some(Place(z, box, rule))
    ensures KeptOutside(old(flp.units[..]), flp.units[..], z, n + deadCount)
    decreases z, 3
  {
    hide Place;
    LeafOrCut(node, z, tr, box, flp, n, own);
    if node.LeafNode? {
      LeafInPlace(flp.units[..], z, box, rule, n + deadCount);
      flp.units[node.unit] := Rect(leftx, bottomy, node.curve.shapes[pos].x, node.curve.shapes[pos].y);
      return deadCount;
    }
    count := SizeCut(node, pos, leftx, bottomy, deadCount, rule, flp, z, tr, box, n, own);
  }

  /** recursive_sizing at a cut. */
  method SizeCut(node: Node, pos: nat, leftx: real, bottomy: real, deadCount: nat, rule: Rule,
                 flp: Floorplan, ghost z: SizedTree, ghost tr: Trace, ghost box: Rect, ghost n: nat,
                 ghost own: set<Curve>)
    returns (count: nat)
    requires node.CutNode? && z.SizedCut?
    requires Sizable(node, z, tr, box, own) && pos == tr.pos && box.leftx == leftx && box.bottomy == bottomy
    requires HasRoom(flp, z, n) && deadCount + |LeafUnits(z)| <= n
    modifies own, flp.units
    ensures ReadPlan(flp.units[..], LeafUnits(z), n + deadCount, n + count) == Some(Place(z, box, rule))
    ensures KeptOutside(old(flp.units[..]), flp.units[..], z, n + deadCount)
    decreases z, 2
  {
    hide Divide, Indices, BlocksAt, Distinct, MayWrite, Join;
    ghost var start, d := flp.units[..], DivisionOf(z, box, rule);
    assert tr.Through? && CurvesOf(node.left) !! CurvesOf(node.right) by {
      CutReady(node, z, tr, box, rule);
    }
    var lp, rp, rightx, righty,
      dead := PrepareCut(node, pos, leftx, bottomy, deadCount, rule, flp, z, tr, box, d, n, own);
    RoomForChildren(flp, z, n);
    count := FinishCut(node.left, node.right, lp, rp, leftx, bottomy, rightx, righty, dead, rule, flp, z, tr, d, n,
                       Place(z, box, rule), deadCount, start, CurvesOf(node.left), CurvesOf(node.right));
  }

  /** The rest of a cut, once its children are fitted. */
  method FinishCut(left: Node, right: Node, lp: nat, rp: nat, leftx: real, bottomy: real, rightx: real, righty: real,
                   dead: nat, rule: Rule, flp: Floorplan, ghost z: SizedTree, ghost tr: Trace, ghost d: Division,
                   ghost n: nat, ghost whole: Plan,
                   ghost deadCount: nat, ghost start: seq<Rect>, ghost ownLeft: set<Curve>, ghost ownRight: set<Curve>)
    returns (count: nat)
    requires z.SizedCut? && tr.Through? && lp == tr.left.pos && rp == tr.right.pos && |d.dead| <= 1
    requires Sizable(left, z.left, tr.left, d.left, ownLeft) && Sizable(right, z.right, tr.right, d.right, ownRight)
    requires ownLeft !! ownRight && whole == Join(d.dead, Place(z.left, d.left, rule), Place(z.right, d.right, rule))
    requires d.left.leftx == leftx && d.left.bottomy == bottomy && d.right.leftx == rightx && d.right.bottomy == righty
    requires HasRoom(flp, z, n) && deadCount + |LeafUnits(z)| <= n && dead == deadCount + |d.dead|
    requires HasRoom(flp, z.left, n) && HasRoom(flp, z.right, n)
    requires |LeafUnits(z)| == |LeafUnits(z.left)| + |LeafUnits(z.right)|
    requires KeptBut(start, flp.units[..], n + deadCount) && DeadAt(flp.units[..], d.dead, n + deadCount)
    modifies ownLeft, ownRight, flp.units
    ensures ReadPlan(flp.units[..], LeafUnits(z), n + deadCount, n + count) == Some(whole)
    ensures KeptOutside(start, flp.units[..], z, n + deadCount)
    decreases z, 1
  {
    hide Join, Place;
    ghost var fitted := flp.units[..];
    ghost var middle: seq<Rect>;
    ghost var afterLeft: nat;
    count, afterLeft, middle := SizeChildren(left, right, lp, rp, leftx, bottomy, rightx, righty,
                                             dead, rule, flp, z, tr, d, n, ownLeft, ownRight);
    DivisionInTurn(start, fitted, middle, flp.units[..], z, d, rule, whole, n, n + deadCount, n + dead, n + afterLeft,
                   n + count);
  }

  /** At a cut: the children are fitted, the dead block is in its slot or absorbed. */
  method PrepareCut(node: Node, pos: nat, leftx: real, bottomy: real, deadCount: nat, rule: Rule,
                    flp: Floorplan, ghost z: SizedTree, ghost tr: Trace, ghost box: Rect, ghost d: Division,
                    ghost n: nat, ghost own: set<Curve>)
    returns (lp: nat, rp: nat, rightx: real, righty: real, dead: nat)
    requires node.CutNode? && z.SizedCut? && tr.Through?
    requires Sizable(node, z, tr, box, own) && pos == tr.pos && box.leftx == leftx && box.bottomy == bottomy
    requires flp.nUnits == 2 * n - 1 <= flp.units.Length && deadCount < n - 1 && d == DivisionOf(z, box, rule)
    modifies node.left.curve, node.right.curve, flp.units
    ensures lp == tr.left.pos && rp == tr.right.pos
    ensures Sizable(node.left, z.left, tr.left, d.left, CurvesOf(node.left))
    ensures Sizable(node.right, z.right, tr.right, d.right, CurvesOf(node.right))
    ensures d.left.leftx == leftx && d.left.bottomy == bottomy && d.right.leftx == rightx && d.right.bottomy == righty
    ensures dead == deadCount + |d.dead|
    ensures DeadAt(flp.units[..], d.dead, n + deadCount)
    ensures KeptBut(old(flp.units[..]), flp.units[..], n + deadCount)
  {
    var idx := (flp.nUnits + 1) / 2 + deadCount;
    CutReady(node, z, tr, box, rule);
    lp, rp := node.curve.back[pos].left, node.curve.back[pos].right;
    rightx := if node.cut == CUT_VERTICAL then leftx + node.curve.back[pos].median else leftx;
    righty := if node.cut == CUT_VERTICAL then bottomy else bottomy + node.curve.back[pos].median;
    var absorbed;
    if node.cut == CUT_VERTICAL {
      absorbed := FitNodesVertical(node.curve, node.left, node.right, pos, lp, rp, leftx, bottomy, flp.units, idx, rule,
                                   z, tr, box, d, Lower(node.left), Lower(node.right));
    } else {
      absorbed := FitNodesHorizontal(node.curve, node.left, node.right, pos, lp, rp, leftx, bottomy, flp.units, idx,
                                     rule, z, tr, box, d, Lower(node.left), Lower(node.right), node.cut);
    }
    dead := if absorbed then deadCount else deadCount + 1;
  }

  /** The two recursive calls, on children that have been fitted to their boxes. */
  method SizeChildren(left: Node, right: Node, lp: nat, rp: nat, leftx: real, bottomy: real, rightx: real, righty: real,
                      dead: nat, rule: Rule, flp: Floorplan, ghost z: SizedTree, ghost tr: Trace, ghost d: Division,
                      ghost n: nat, ghost ownLeft: set<Curve>, ghost ownRight: set<Curve>)
    returns (count: nat, ghost afterLeft: nat, ghost middle: seq<Rect>)
    requires z.SizedCut? && tr.Through? && lp == tr.left.pos && rp == tr.right.pos
    requires Sizable(left, z.left, tr.left, d.left, ownLeft) && Sizable(right, z.right, tr.right, d.right, ownRight)
    requires ownLeft !! ownRight
    requires d.left.leftx == leftx && d.left.bottomy == bottomy && d.right.leftx == rightx && d.right.bottomy == righty
    requires HasRoom(flp, z.left, n) && HasRoom(flp, z.right, n)
    requires dead + |LeafUnits(z.left)| + |LeafUnits(z.right)| <= n + 1
    modifies ownLeft, ownRight, flp.units
    ensures KeptOutside(old(flp.units[..]), middle, z.left, n + dead)
    ensures ReadPlan(middle, LeafUnits(z.left), n + dead, n + afterLeft) == Some(Place(z.left, d.left, rule))
    ensures KeptOutside(middle, flp.units[..], z.right, n + afterLeft)
    ensures ReadPlan(flp.units[..], LeafUnits(z.right), n + afterLeft, n + count) == Some(Place(z.right, d.right, rule))
    ensures afterLeft < dead + |LeafUnits(z.left)|
    decreases z, 0
  {
    var reached := RecursiveSizing(left, lp, leftx, bottomy, dead, rule, flp, z.left, tr.left, d.left, n, ownLeft);
    afterLeft, middle := reached, flp.units[..];
    PlanBounds(z.left, d.left, rule);
    count := RecursiveSizing(right, rp, rightx, righty, reached, rule, flp, z.right, tr.right, d.right, n, ownRight);
  }
}
