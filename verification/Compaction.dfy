/** What compaction does in recursive_sizing (HotSpot/shape.c), said of the rectangles: which gaps are
    absorbed, and that only proportions matter. */
module Compaction {
  import opened PolishExpression
  import opened Geometry
  import opened ShapeCurves
  import opened Placement

  /** The plane with its axes exchanged: a horizontal cut is a vertical one there. */
  function Turned(r: Rect): Rect {
    Rect(r.bottomy, r.leftx, r.height, r.width)
  }

  function TurnedShape(a: Shape): Shape {
    Shape(a.y, a.x)
  }

  function AllTurned(rects: seq<Rect>): (r: seq<Rect>)
    ensures |r| == |rects| && forall i | 0 <= i < |r| :: r[i] == Turned(rects[i])
  {
    seq(|rects|, i requires 0 <= i < |rects| => Turned(rects[i]))
  }

  /** A gap that is at most so large a part of the extent beside it. */
  predicate Slight(gap: real, extent: real, ratio: real) {
    gap <= ratio * extent
  }

  /** Two children of shapes a and c beside one another in a box. The left one has its own width and the
      right one the rest. The taller one is as high as the box. Above the other one there is a dead block
      exactly if the gap is higher than ratio times that child; if not, the child grows by the gap, which
      is at most ratio times its height. */
  ghost predicate Beside(a: Shape, c: Shape, box: Rect, ratio: real, left: Rect, right: Rect, dead: seq<Rect>) {
    left.leftx == box.leftx && left.width == a.x &&
    right.leftx == box.leftx + a.x && right.width == box.width - a.x &&
    left.bottomy == right.bottomy == box.bottomy &&
    var low, tall := if c.y >= a.y then left else right, if c.y >= a.y then right else left;
    var gap := if c.y >= a.y then c.y - a.y else a.y - c.y;
    tall.height == box.height &&
    if dead == [] then
      low.height == box.height && Slight(gap, low.height - gap, ratio)
    else
      low.height == box.height - gap && !Slight(gap, low.height, ratio) &&
      dead == [Rect(low.leftx, low.bottomy + low.height, low.width, gap)]
  }

  ghost predicate CutCompacted(cut: int, a: Shape, c: Shape, box: Rect, ratio: real, left: Rect, right: Rect,
                               dead: seq<Rect>)
  {
    if cut == CUT_VERTICAL then Beside(a, c, box, ratio, left, right, dead)
    else
      Beside(TurnedShape(a), TurnedShape(c), Turned(box), ratio, Turned(left), Turned(right), AllTurned(dead))
  }

  lemma DivideCompacts(cut: int, a: Shape, c: Shape, box: Rect, ratio: real)
    requires a.x > 0.0 && a.y > 0.0 && c.x > 0.0 && c.y > 0.0
    requires AtMost(Combine(cut, a, c), Shape(box.width, box.height))
    ensures var d := Divide(cut, a, c, box, CompactRule(true, ratio));
            CutCompacted(cut, a, c, box, ratio, d.left, d.right, d.dead)
  {
    if cut == CUT_VERTICAL {
      var gap := if c.y >= a.y then c.y - a.y else a.y - c.y;
      WithinRatio(gap, box.height - gap, ratio);
    } else {
      var gap := if c.x >= a.x then c.x - a.x else a.x - c.x;
      WithinRatio(gap, box.width - gap, ratio);
    }
  }

  lemma WithinRatio(gap: real, extent: real, ratio: real)
    requires extent > 0.0
    ensures CompactRule(true, ratio)(gap, extent) <==> Slight(gap, extent, ratio)
  {
    var q := gap / extent;
    assert q * extent == gap;
    if q <= ratio {
      assert (ratio - q) * extent >= 0.0;
    } else {
      assert (q - ratio) * extent > 0.0;
    }
  }

  /** At every cut of the tree the children and the dead block are as said, from the box down. */
  ghost predicate Compacted(z: SizedTree, box: Rect, ratio: real, p: Plan) {
    match z
    case SizedLeaf(unit, _) => p == Plan([unit], [box], [])
    case SizedCut(cut, l, r) =>
      exists left, right, dead, q, q' ::
        CutCompacted(cut, Box(l), Box(r), box, ratio, left, right, dead) && p == Join(dead, q, q') &&
        Compacted(l, left, ratio, q) && Compacted(r, right, ratio, q')
  }

  /** The plan that compaction leads to is the one with that property, and no other has it. */
  lemma {:induction false} PlanCompacted(z: SizedTree, box: Rect, ratio: real, p: Plan)
    requires Fits(z, box)
    ensures Compacted(z, box, ratio, p) <==> p == Place(z, box, CompactRule(true, ratio))
    decreases z
  {
    hide CutCompacted, Divide, CompactRule, Join;
    var rule := CompactRule(true, ratio);
    match z
    case SizedLeaf(_, _) =>
    case SizedCut(cut, l, r) =>
      BoxPositive(l);
      BoxPositive(r);
      DivideFits(cut, Box(l), Box(r), box, rule);
      DivideCompacts(cut, Box(l), Box(r), box, ratio);
      var d := Divide(cut, Box(l), Box(r), box, rule);
      var a, b := Place(l, d.left, rule), Place(r, d.right, rule);
      PlanCompacted(l, d.left, ratio, a);
      PlanCompacted(r, d.right, ratio, b);
      assert CutCompacted(cut, Box(l), Box(r), box, ratio, d.left, d.right, d.dead) &&
             Join(d.dead, a, b) == Place(z, box, rule);
      if Compacted(z, box, ratio, p) {
        var left, right, dead, q, q' := AtCut(z, box, ratio, p);
        OneDivision(cut, Box(l), Box(r), box, ratio, left, right, dead, d);
        PlanCompacted(l, d.left, ratio, q);
        PlanCompacted(r, d.right, ratio, q');
      }
  }

  lemma AtCut(z: SizedTree, box: Rect, ratio: real, p: Plan)
    returns (left: Rect, right: Rect, dead: seq<Rect>, q: Plan, q': Plan)
    requires z.SizedCut? && Compacted(z, box, ratio, p)
    ensures CutCompacted(z.cut, Box(z.left), Box(z.right), box, ratio, left, right, dead)
    ensures p == Join(dead, q, q') && Compacted(z.left, left, ratio, q) && Compacted(z.right, right, ratio, q')
  {
    left, right, dead, q, q' :|
      CutCompacted(z.cut, Box(z.left), Box(z.right), box, ratio, left, right, dead) && p == Join(dead, q, q') &&
      Compacted(z.left, left, ratio, q) && Compacted(z.right, right, ratio, q');
  }

  lemma OneDivision(cut: int, a: Shape, c: Shape, box: Rect, ratio: real, left: Rect, right: Rect, dead: seq<Rect>,
                    d: Division)
    requires CutCompacted(cut, a, c, box, ratio, left, right, dead)
    requires CutCompacted(cut, a, c, box, ratio, d.left, d.right, d.dead)
    ensures d == Division(left, right, dead)
  {
  }

  // ----- scale -----

  function Times(f: real, a: real): real {
    f * a
  }

  function ScaledRect(r: Rect, f: real): Rect {
    Rect(Times(f, r.leftx), Times(f, r.bottomy), Times(f, r.width), Times(f, r.height))
  }

  function ScaledShape(a: Shape, f: real): Shape {
    Shape(Times(f, a.x), Times(f, a.y))
  }

  function AllScaled(rects: seq<Rect>, f: real): (r: seq<Rect>)
    ensures |r| == |rects| && forall i | 0 <= i < |r| :: r[i] == ScaledRect(rects[i], f)
  {
    seq(|rects|, i requires 0 <= i < |rects| => ScaledRect(rects[i], f))
  }

  function ScaledTree(z: SizedTree, f: real): SizedTree {
    match z
    case SizedLeaf(unit, shape) => SizedLeaf(unit, ScaledShape(shape, f))
    case SizedCut(cut, l, r) => SizedCut(cut, ScaledTree(l, f), ScaledTree(r, f))
  }

  function ScaledPlan(p: Plan, f: real): Plan {
    Plan(p.units, AllScaled(p.placed, f), AllScaled(p.dead, f))
  }

  lemma {:induction false} BoxScaled(z: SizedTree, f: real)
    requires f > 0.0
    ensures Box(ScaledTree(z, f)) == ScaledShape(Box(z), f)
    decreases z
  {
    if z.SizedCut? {
      BoxScaled(z.left, f);
      BoxScaled(z.right, f);
      CombineScaled(z.cut, Box(z.left), Box(z.right), f);
    }
  }

  lemma CombineScaled(cut: int, a: Shape, c: Shape, f: real)
    requires f > 0.0
    ensures Combine(cut, ScaledShape(a, f), ScaledShape(c, f)) == ScaledShape(Combine(cut, a, c), f)
  {
    hide Times;
    KeepsOrder(a.x, c.x, f);
    KeepsOrder(a.y, c.y, f);
  }

  lemma KeepsOrder(a: real, b: real, f: real)
    requires f > 0.0
    ensures Times(f, a) < Times(f, b) <==> a < b
    ensures Times(f, a + b) == Times(f, a) + Times(f, b) && Times(f, a - b) == Times(f, a) - Times(f, b)
  {
    if a < b {
      assert f * (b - a) > 0.0;
    } else {
      assert f * (a - b) >= 0.0;
    }
  }

  lemma {:induction false} ScaledFits(z: SizedTree, box: Rect, f: real)
    requires f > 0.0 && Fits(z, box)
    ensures Fits(ScaledTree(z, f), ScaledRect(box, f))
  {
    hide Times;
    BoxScaled(z, f);
    ScaledPositive(z, f);
    KeepsOrder(box.width, Box(z).x, f);
    KeepsOrder(box.height, Box(z).y, f);
  }

  lemma {:induction false} ScaledPositive(z: SizedTree, f: real)
    requires f > 0.0 && Positive(z)
    ensures Positive(ScaledTree(z, f))
    decreases z
  {
    if z.SizedCut? {
      ScaledPositive(z.left, f);
      ScaledPositive(z.right, f);
    }
  }

  /** The same gaps are absorbed at every scale: in metres as in millimetres. */
  lemma BesideScaled(a: Shape, c: Shape, box: Rect, ratio: real, left: Rect, right: Rect, dead: seq<Rect>, f: real)
    requires f > 0.0 && Beside(a, c, box, ratio, left, right, dead)
    ensures Beside(ScaledShape(a, f), ScaledShape(c, f), ScaledRect(box, f), ratio, ScaledRect(left, f),
                   ScaledRect(right, f), AllScaled(dead, f))
  {
    hide Times, Slight;
    var low := if c.y >= a.y then left else right;
    var gap := if c.y >= a.y then c.y - a.y else a.y - c.y;
    KeepsOrder(c.y, a.y, f);
    KeepsOrder(a.y, c.y, f);
    KeepsOrder(box.width, a.x, f);
    KeepsOrder(box.leftx, a.x, f);
    KeepsOrder(box.height, gap, f);
    KeepsOrder(low.bottomy, low.height, f);
    if dead == [] {
      RatioScaled(gap, low.height - gap, ratio, f);
      KeepsOrder(low.height, gap, f);
    } else {
      RatioScaled(gap, low.height, ratio, f);
    }
  }

  lemma RatioScaled(gap: real, extent: real, ratio: real, f: real)
    requires f > 0.0
    ensures Slight(Times(f, gap), Times(f, extent), ratio) <==> Slight(gap, extent, ratio)
  {
    assert ratio * (f * extent) == f * (ratio * extent);
    KeepsOrder(ratio * extent, gap, f);
  }

  lemma TurnedScaled(rects: seq<Rect>, f: real)
    ensures AllTurned(AllScaled(rects, f)) == AllScaled(AllTurned(rects), f)
  {
    hide Times;
    var a, b := AllTurned(AllScaled(rects, f)), AllScaled(AllTurned(rects), f);
    assert forall i | 0 <= i < |rects| :: a[i] == b[i];
  }

  lemma CutScaled(cut: int, a: Shape, c: Shape, box: Rect, ratio: real, left: Rect, right: Rect, dead: seq<Rect>,
                  f: real)
    requires f > 0.0 && CutCompacted(cut, a, c, box, ratio, left, right, dead)
    ensures CutCompacted(cut, ScaledShape(a, f), ScaledShape(c, f), ScaledRect(box, f), ratio, ScaledRect(left, f),
                         ScaledRect(right, f), AllScaled(dead, f))
  {
    hide Beside, Times;
    if cut == CUT_VERTICAL {
      BesideScaled(a, c, box, ratio, left, right, dead, f);
    } else {
      BesideScaled(TurnedShape(a), TurnedShape(c), Turned(box), ratio, Turned(left), Turned(right), AllTurned(dead), f);
      TurnedScaled(dead, f);
    }
  }

  lemma LeafScaled(unit: int, box: Rect, f: real)
    ensures ScaledPlan(Plan([unit], [box], []), f) == Plan([unit], [ScaledRect(box, f)], [])
  {
  }

  lemma JoinScaled(dead: seq<Rect>, p: Plan, q: Plan, f: real)
    ensures ScaledPlan(Join(dead, p, q), f) == Join(AllScaled(dead, f), ScaledPlan(p, f), ScaledPlan(q, f))
  {
    AllScaledConcat(p.placed, q.placed, f);
    AllScaledConcat(dead, p.dead, f);
    AllScaledConcat(dead + p.dead, q.dead, f);
  }

  lemma AllScaledConcat(a: seq<Rect>, b: seq<Rect>, f: real)
    ensures AllScaled(a + b, f) == AllScaled(a, f) + AllScaled(b, f)
  {
    hide ScaledRect;
  }

  lemma {:induction false} CompactedScaled(z: SizedTree, box: Rect, ratio: real, p: Plan, f: real)
    requires f > 0.0 && Compacted(z, box, ratio, p)
    ensures Compacted(ScaledTree(z, f), ScaledRect(box, f), ratio, ScaledPlan(p, f))
    decreases z
  {
    hide CutCompacted, Box, ScaledRect, ScaledPlan, AllScaled, Join, ScaledShape;
    match z
    case SizedLeaf(unit, _) =>
      LeafScaled(unit, box, f);
    case SizedCut(cut, l, r) =>
      var left, right, dead, q, q' := AtCut(z, box, ratio, p);
      CutScaled(cut, Box(l), Box(r), box, ratio, left, right, dead, f);
      BoxScaled(l, f);
      BoxScaled(r, f);
      CompactedScaled(l, left, ratio, q, f);
      CompactedScaled(r, right, ratio, q', f);
      JoinScaled(dead, q, q', f);
  }

  /** If all shapes and the box are scaled by one factor, so is the plan: the same blocks grow, and the
      same dead blocks are left. */
  lemma PlanScaled(z: SizedTree, box: Rect, ratio: real, f: real)
    requires f > 0.0 && Fits(z, box)
    ensures Fits(ScaledTree(z, f), ScaledRect(box, f))
    ensures Place(ScaledTree(z, f), ScaledRect(box, f), CompactRule(true, ratio)) ==
            ScaledPlan(Place(z, box, CompactRule(true, ratio)), f)
  {
    hide CompactRule, Compacted, Place, Fits;
    var p := Place(z, box, CompactRule(true, ratio));
    ScaledFits(z, box, f);
    PlanCompacted(z, box, ratio, p);
    CompactedScaled(z, box, ratio, p, f);
    PlanCompacted(ScaledTree(z, f), ScaledRect(box, f), ratio, ScaledPlan(p, f));
  }
}
