/** Where the blocks of a sized slicing tree go (recursive_sizing, HotSpot/shape.c), written
    top-down: each subtree is told the box it must fill. The source tells it by enlarging an
    entry of the child's own curve; Sizing.dfy proves that form against this one. */
module Placement {
  import opened PolishExpression
  import opened Geometry
  import opened ShapeCurves

  /** The units in the order of the leaves, their rectangles, and the dead blocks. */
  datatype Plan = Plan(units: seq<int>, placed: seq<Rect>, dead: seq<Rect>)

  ghost predicate Positive(z: SizedTree) {
    match z
    case SizedLeaf(_, s) => s.x > 0.0 && s.y > 0.0
    case SizedCut(_, l, r) => Positive(l) && Positive(r)
  }

  lemma {:induction false} BoxPositive(z: SizedTree)
    requires Positive(z)
    ensures Box(z).x > 0.0 && Box(z).y > 0.0
  {
    if z.SizedCut? {
      BoxPositive(z.left);
      BoxPositive(z.right);
    }
  }

  /** Whether a gap beside a block of the given extent is absorbed by the block. */
  type Rule = (real, real) -> bool

  /** The test of recursive_sizing: compaction is on, and the gap is at most the given fraction of
      the shorter extent. Nearly everything here holds for any other rule as well. */
  function CompactRule(compact: bool, ratio: real): Rule {
    (gap, shorter) => compact && shorter > 0.0 && gap / shorter <= ratio
  }

  /** A gap of nothing is always absorbed. */
  ghost predicate AbsorbsNothing(rule: Rule) {
    forall shorter | shorter > 0.0 :: rule(0.0, shorter)
  }

  ghost predicate NeverAbsorbs(rule: Rule) {
    forall gap, shorter :: !rule(gap, shorter)
  }

  lemma CompactRuleCases(ratio: real)
    ensures ratio >= 0.0 ==> AbsorbsNothing(CompactRule(true, ratio))
    ensures NeverAbsorbs(CompactRule(false, ratio))
  {
  }

  /** The boxes of the two children of a cut, and its dead block unless it was absorbed. */
  datatype Division = Division(left: Rect, right: Rect, dead: seq<Rect>)

  /** A box divided between shapes a and c. Along the cut a keeps its extent and c takes the rest.
      Across the cut both grow until the larger fills the box; the gap beside the other one is
      absorbed by it or left to a dead block. */
  function Divide(cut: int, a: Shape, c: Shape, box: Rect, rule: Rule): Division {
    var Rect(l, b, w, h) := box;
    if cut == CUT_VERTICAL then
      if c.y >= a.y then
        var gap, short := c.y - a.y, h - (c.y - a.y);
        if rule(gap, short) then Division(Rect(l, b, a.x, h), Rect(l + a.x, b, w - a.x, h), [])
        else Division(Rect(l, b, a.x, short), Rect(l + a.x, b, w - a.x, h), [Rect(l, b + short, a.x, gap)])
      else
        var gap, short := a.y - c.y, h - (a.y - c.y);
        if rule(gap, short) then Division(Rect(l, b, a.x, h), Rect(l + a.x, b, w - a.x, h), [])
        else Division(Rect(l, b, a.x, h), Rect(l + a.x, b, w - a.x, short), [Rect(l + a.x, b + short, w - a.x, gap)])
    else
      if c.x >= a.x then
        var gap, short := c.x - a.x, w - (c.x - a.x);
        if rule(gap, short) then Division(Rect(l, b, w, a.y), Rect(l, b + a.y, w, h - a.y), [])
        else Division(Rect(l, b, short, a.y), Rect(l, b + a.y, w, h - a.y), [Rect(l + short, b, gap, a.y)])
      else
        var gap, short := a.x - c.x, w - (a.x - c.x);
        if rule(gap, short) then Division(Rect(l, b, w, a.y), Rect(l, b + a.y, w, h - a.y), [])
        else Division(Rect(l, b, w, a.y), Rect(l, b + a.y, short, h - a.y), [Rect(l + short, b + a.y, gap, h - a.y)])
  }

  function Join(dead: seq<Rect>, p: Plan, q: Plan): Plan {
    Plan(p.units + q.units, p.placed + q.placed, dead + p.dead + q.dead)
  }

  ghost predicate Fits(z: SizedTree, box: Rect) {
    Positive(z) && AtMost(Box(z), Shape(box.width, box.height))
  }

  /** Both children fit into the boxes they are given. */
  lemma DivideFits(cut: int, a: Shape, c: Shape, box: Rect, rule: Rule)
    requires a.x > 0.0 && a.y > 0.0 && c.x > 0.0 && c.y > 0.0
    requires AtMost(Combine(cut, a, c), Shape(box.width, box.height))
    ensures var d := Divide(cut, a, c, box, rule);
            AtMost(a, Shape(d.left.width, d.left.height)) && AtMost(c, Shape(d.right.width, d.right.height)) &&
            |d.dead| <= 1
  {
  }

  /** The plan of z in the given box. */
  function Place(z: SizedTree, box: Rect, rule: Rule): (p: Plan)
    requires Fits(z, box)
    decreases z
  {
    match z
    case SizedLeaf(unit, _) => Plan([unit], [box], [])
    case SizedCut(cut, left, right) =>
      BoxPositive(left);
      BoxPositive(right);
      DivideFits(cut, Box(left), Box(right), box, rule);
      var d := Divide(cut, Box(left), Box(right), box, rule);
      Join(d.dead, Place(left, d.left, rule), Place(right, d.right, rule))
  }

  function LeafUnits(z: SizedTree): (r: seq<int>)
    ensures r != []
  {
    match z
    case SizedLeaf(unit, _) => [unit]
    case SizedCut(_, l, r) => LeafUnits(l) + LeafUnits(r)
  }

  function LeafShapes(z: SizedTree): seq<Shape> {
    match z
    case SizedLeaf(_, shape) => [shape]
    case SizedCut(_, l, r) => LeafShapes(l) + LeafShapes(r)
  }

  /** All the rectangles of a plan. */
  function Rects(p: Plan): seq<Rect> {
    p.placed + p.dead
  }

  lemma JoinTotal(f: Measure, dead: seq<Rect>, p: Plan, q: Plan)
    ensures Total(f, Rects(Join(dead, p, q))) == Total(f, dead) + Total(f, Rects(p)) + Total(f, Rects(q))
  {
    TotalConcat(f, p.placed + q.placed, dead + p.dead + q.dead);
    TotalConcat(f, p.placed, q.placed);
    TotalConcat(f, dead + p.dead, q.dead);
    TotalConcat(f, dead, p.dead);
    TotalConcat(f, p.placed, p.dead);
    TotalConcat(f, q.placed, q.dead);
  }

  lemma TotalOfOne(f: Measure, r: Rect)
    ensures Total(f, [r]) == f(r)
  {
    assert [r][..0] == [];
  }

  /** The two child boxes and the dead block, if any, make up the box that is divided. */
  lemma DivideFills(f: Measure, cut: int, a: Shape, c: Shape, box: Rect, rule: Rule)
    requires Additive(f)
    requires a.x > 0.0 && a.y > 0.0 && c.x > 0.0 && c.y > 0.0
    requires AtMost(Combine(cut, a, c), Shape(box.width, box.height))
    ensures var d := Divide(cut, a, c, box, rule);
            Total(f, d.dead) + f(d.left) + f(d.right) == f(box)
  {
    hide Additive;
    var d := Divide(cut, a, c, box, rule);
    if d.dead != [] {
      TotalOfOne(f, d.dead[0]);
    }
    if cut == CUT_VERTICAL {
      StripSplits(f, box, a.x, if c.y >= a.y then c.y - a.y else a.y - c.y, c.y >= a.y);
    } else {
      BandSplits(f, box, a.y, if c.x >= a.x then c.x - a.x else a.x - c.x, c.x >= a.x);
    }
  }

  /** A box cut at x, and then the lower of its parts cut at a gap from the top. */
  lemma StripSplits(f: Measure, box: Rect, x: real, gap: real, first: bool)
    requires Additive(f) && 0.0 < x < box.width && 0.0 <= gap < box.height
    ensures var Rect(l, b, w, h) := box;
            f(Rect(l, b, x, h)) + f(Rect(l + x, b, w - x, h)) == f(box)
    ensures var Rect(l, b, w, h) := box;
            if first then
              f(Rect(l, b, x, h - gap)) + f(Rect(l, b + (h - gap), x, gap)) + f(Rect(l + x, b, w - x, h)) == f(box)
            else
              f(Rect(l, b, x, h)) + f(Rect(l + x, b, w - x, h - gap)) +
              f(Rect(l + x, b + (h - gap), w - x, gap)) == f(box)
  {
    var Rect(l, b, w, h) := box;
    assert SplitsX(f, l, b, x, w - x, h);
    if first {
      assert SplitsY(f, l, b, x, h - gap, gap);
    } else {
      assert SplitsY(f, l + x, b, w - x, h - gap, gap);
    }
  }

  /** The same for a box cut at y. */
  lemma BandSplits(f: Measure, box: Rect, y: real, gap: real, first: bool)
    requires Additive(f) && 0.0 < y < box.height && 0.0 <= gap < box.width
    ensures var Rect(l, b, w, h) := box;
            f(Rect(l, b, w, y)) + f(Rect(l, b + y, w, h - y)) == f(box)
    ensures var Rect(l, b, w, h) := box;
            if first then
              f(Rect(l, b, w - gap, y)) + f(Rect(l + (w - gap), b, gap, y)) + f(Rect(l, b + y, w, h - y)) == f(box)
            else
              f(Rect(l, b, w, y)) + f(Rect(l, b + y, w - gap, h - y)) +
              f(Rect(l + (w - gap), b + y, gap, h - y)) == f(box)
  {
    var Rect(l, b, w, h) := box;
    assert SplitsY(f, l, b, w, y, h - y);
    if first {
      assert SplitsX(f, l, b, w - gap, gap, y);
    } else {
      assert SplitsX(f, l, b + y, w - gap, gap, h - y);
    }
  }

  /** The conservation theorem: whatever adds up under cutting, the plan has exactly as much of
      it as the box. */
  lemma {:induction false} PlanFillsBox(f: Measure, z: SizedTree, box: Rect, rule: Rule)
    requires Additive(f) && Fits(z, box)
    ensures Total(f, Rects(Place(z, box, rule))) == f(box)
    decreases z
  {
    match z
    case SizedLeaf(_, _) =>
      assert Rects(Place(z, box, rule)) == [box];
      TotalOfOne(f, box);
    case SizedCut(cut, left, right) =>
      BoxPositive(left);
      BoxPositive(right);
      DivideFits(cut, Box(left), Box(right), box, rule);
      DivideFills(f, cut, Box(left), Box(right), box, rule);
      var d := Divide(cut, Box(left), Box(right), box, rule);
      PlanFillsBox(f, left, d.left, rule);
      PlanFillsBox(f, right, d.right, rule);
      JoinTotal(f, d.dead, Place(left, d.left, rule), Place(right, d.right, rule));
  }

  /** Every block gets at least the shape it chose; there is one dead block less than blocks
      at most. */
  lemma {:induction false} PlanRoomy(z: SizedTree, box: Rect, rule: Rule)
    requires Fits(z, box)
    ensures var p := Place(z, box, rule);
            p.units == LeafUnits(z) && |p.placed| == |p.units| == |LeafShapes(z)| && |p.dead| < |p.units| &&
            (forall i | 0 <= i < |p.placed| ::
               AtMost(LeafShapes(z)[i], Shape(p.placed[i].width, p.placed[i].height)))
    decreases z
  {
    match z
    case SizedLeaf(_, _) =>
    case SizedCut(cut, left, right) =>
      BoxPositive(left);
      BoxPositive(right);
      DivideFits(cut, Box(left), Box(right), box, rule);
      var d := Divide(cut, Box(left), Box(right), box, rule);
      PlanRoomy(left, d.left, rule);
      PlanRoomy(right, d.right, rule);
  }

  ghost predicate Inside(r: Rect, box: Rect) {
    box.leftx <= r.leftx && r.leftx + r.width <= box.leftx + box.width &&
    box.bottomy <= r.bottomy && r.bottomy + r.height <= box.bottomy + box.height
  }

  /** Edges included, every rectangle is in the box; and none is degenerate, if solid is asked. */
  ghost predicate AllInside(rects: seq<Rect>, box: Rect, solid: bool) {
    forall r | r in rects :: Inside(r, box) && (solid ==> Solid(r))
  }

  lemma DivideInside(cut: int, a: Shape, c: Shape, box: Rect, rule: Rule)
    requires a.x > 0.0 && a.y > 0.0 && c.x > 0.0 && c.y > 0.0
    requires AtMost(Combine(cut, a, c), Shape(box.width, box.height))
    ensures var d := Divide(cut, a, c, box, rule);
            Inside(d.left, box) && Inside(d.right, box) && AllInside(d.dead, box, AbsorbsNothing(rule))
  {
  }

  /** Every rectangle of the plan stays in the box; and none is degenerate, if gaps of nothing are
      absorbed, as they are with compaction on and a ratio that is not negative. */
  lemma {:induction false} PlanInside(z: SizedTree, box: Rect, rule: Rule)
    requires Fits(z, box)
    ensures AllInside(Rects(Place(z, box, rule)), box, AbsorbsNothing(rule))
    decreases z
  {
    BoxPositive(z);
    match z
    case SizedLeaf(_, _) =>
    case SizedCut(cut, left, right) =>
      BoxPositive(left);
      BoxPositive(right);
      DivideFits(cut, Box(left), Box(right), box, rule);
      DivideInside(cut, Box(left), Box(right), box, rule);
      var d := Divide(cut, Box(left), Box(right), box, rule);
      PlanInside(left, d.left, rule);
      PlanInside(right, d.right, rule);
      var p, q := Place(left, d.left, rule), Place(right, d.right, rule);
      assert forall r :: r in Rects(Join(d.dead, p, q)) ==> r in d.dead || r in Rects(p) || r in Rects(q);
  }

  /** If nothing is absorbed, every block gets just the shape it chose, and every cut its dead block. */
  lemma {:induction false} PlanWithoutCompaction(z: SizedTree, box: Rect, rule: Rule)
    requires NeverAbsorbs(rule) && Positive(z) && Box(z) == Shape(box.width, box.height)
    ensures var p := Place(z, box, rule);
            |p.placed| == |LeafShapes(z)| && |p.dead| == |p.placed| - 1 &&
            (forall i | 0 <= i < |p.placed| ::
               Shape(p.placed[i].width, p.placed[i].height) == LeafShapes(z)[i])
    decreases z
  {
    match z
    case SizedLeaf(_, _) =>
    case SizedCut(cut, left, right) =>
      BoxPositive(left);
      BoxPositive(right);
      DivideFits(cut, Box(left), Box(right), box, rule);
      var d := Divide(cut, Box(left), Box(right), box, rule);
      assert Shape(d.left.width, d.left.height) == Box(left) && Shape(d.right.width, d.right.height) == Box(right);
      PlanWithoutCompaction(left, d.left, rule);
      PlanWithoutCompaction(right, d.right, rule);
  }
}
