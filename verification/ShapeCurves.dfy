/** Shape curves and slicing trees as values (HotSpot/shape.c): adding two curves by a merge,
    and why the merge, which looks at few of the pairs, misses no pair that matters. */
module ShapeCurves {
  import opened Numbers
  import opened PolishExpression

  /** One orientation of a block: width x and height y. */
  datatype Shape = Shape(x: real, y: real)

  type ShapeSeq = seq<Shape>

  /** Positive shapes, widths non-decreasing, heights non-increasing. */
  ghost predicate ProperCurve(c: ShapeSeq) {
    |c| >= 1 &&
    (forall i | 0 <= i < |c| :: c[i].x > 0.0 && c[i].y > 0.0) &&
    (forall i, j | 0 <= i < j < |c| :: c[i].x <= c[j].x && c[i].y >= c[j].y)
  }

  /** The smallest box around two shapes side by side, or on top of each other. */
  function Combine(cut: int, a: Shape, b: Shape): Shape {
    if cut == CUT_VERTICAL then Shape(a.x + b.x, Max(a.y, b.y)) else Shape(Max(a.x, b.x), a.y + b.y)
  }

  // ----- the merge -----

  /** An index into each of two curves. */
  datatype Pair = Pair(i: int, j: int)

  /** The index pairs that the merge visits from (i, j) on: it advances on the side whose key is
      not below the other's. */
  function Walk(u: seq<real>, v: seq<real>, i: nat, j: nat): (w: seq<Pair>)
    ensures forall k | 0 <= k < |w| :: i <= w[k].i < |u| && j <= w[k].j < |v|
    decreases |u| - i + |v| - j
  {
    if i < |u| && j < |v| then
      [Pair(i, j)] + (if u[i] >= v[j] then Walk(u, v, i + 1, j) else Walk(u, v, i, j + 1))
    else []
  }

  /** How many pairs the merge visits from (i, j) on: what the counting pass of shape_add finds. */
  function WalkLength(u: seq<real>, v: seq<real>, i: nat, j: nat): (n: nat)
    ensures n == |Walk(u, v, i, j)|
    decreases |u| - i + |v| - j
  {
    if i < |u| && j < |v| then
      1 + (if u[i] >= v[j] then WalkLength(u, v, i + 1, j) else WalkLength(u, v, i, j + 1))
    else 0
  }

  function Heights(c: ShapeSeq): (u: seq<real>)
    ensures |u| == |c| && forall i | 0 <= i < |c| :: u[i] == c[i].y
  {
    seq(|c|, i requires 0 <= i < |c| => c[i].y)
  }

  function WidthsFromRight(c: ShapeSeq): (u: seq<real>)
    ensures |u| == |c| && forall i | 0 <= i < |c| :: u[i] == c[|c| - 1 - i].x
  {
    seq(|c|, i requires 0 <= i < |c| => c[|c| - 1 - i].x)
  }

  /** What the merge compares: heights from the left end for a vertical cut, widths from the
      right end for a horizontal one. */
  function Keys(cut: int, c: ShapeSeq): (u: seq<real>)
    ensures |u| == |c|
  {
    if cut == CUT_VERTICAL then Heights(c) else WidthsFromRight(c)
  }

  /** Index pairs counted from the right ends, in the opposite order. */
  function Mirror(w: seq<Pair>, m: nat, n: nat): (p: seq<Pair>)
    requires forall k | 0 <= k < |w| :: 0 <= w[k].i < m && 0 <= w[k].j < n
    ensures |p| == |w|
    ensures forall k | 0 <= k < |p| :: p[k] == Pair(m - 1 - w[|w| - 1 - k].i, n - 1 - w[|w| - 1 - k].j)
  {
    seq(|w|, k requires 0 <= k < |w| => Pair(m - 1 - w[|w| - 1 - k].i, n - 1 - w[|w| - 1 - k].j))
  }

  /** The back-pointers of the sum curve, in the order in which it stores them. */
  function Pairs(cut: int, c1: ShapeSeq, c2: ShapeSeq): (p: seq<Pair>)
    ensures |p| == |Walk(Keys(cut, c1), Keys(cut, c2), 0, 0)|
    ensures forall k | 0 <= k < |p| :: 0 <= p[k].i < |c1| && 0 <= p[k].j < |c2|
  {
    var w := Walk(Keys(cut, c1), Keys(cut, c2), 0, 0);
    if cut == CUT_VERTICAL then w else Mirror(w, |c1|, |c2|)
  }

  function Picked(cut: int, c1: ShapeSeq, c2: ShapeSeq, p: seq<Pair>): (c: ShapeSeq)
    requires forall k | 0 <= k < |p| :: 0 <= p[k].i < |c1| && 0 <= p[k].j < |c2|
    ensures |c| == |p|
    ensures forall k | 0 <= k < |p| :: c[k] == Combine(cut, c1[p[k].i], c2[p[k].j])
  {
    seq(|p|, k requires 0 <= k < |p| => Combine(cut, c1[p[k].i], c2[p[k].j]))
  }

  /** shape_add: the sum of two curves. */
  function Sum(cut: int, c1: ShapeSeq, c2: ShapeSeq): (c: ShapeSeq)
    ensures |c| == |Pairs(cut, c1, c2)|
  {
    Picked(cut, c1, c2, Pairs(cut, c1, c2))
  }

  ghost predicate Ascends(w: seq<Pair>) {
    forall k, l | 0 <= k < l < |w| :: w[k].i <= w[l].i && w[k].j <= w[l].j
  }

  /** Along the walk neither index ever goes back. */
  lemma {:induction false} WalkAscends(u: seq<real>, v: seq<real>, i: nat, j: nat)
    ensures Ascends(Walk(u, v, i, j))
    decreases |u| - i + |v| - j
  {
    if i < |u| && j < |v| {
      var rest;
      if u[i] >= v[j] {
        WalkAscends(u, v, i + 1, j);
        rest := Walk(u, v, i + 1, j);
      } else {
        WalkAscends(u, v, i, j + 1);
        rest := Walk(u, v, i, j + 1);
      }
      var w := Walk(u, v, i, j);
      assert w == [Pair(i, j)] + rest;
      forall k, l | 0 <= k < l < |w|
        ensures w[k].i <= w[l].i && w[k].j <= w[l].j
      {
        assert w[l] == rest[l - 1];
      }
    }
  }

  lemma PairsAscend(cut: int, c1: ShapeSeq, c2: ShapeSeq)
    ensures Ascends(Pairs(cut, c1, c2))
    ensures |c1| > 0 && |c2| > 0 ==> |Pairs(cut, c1, c2)| > 0
  {
    WalkAscends(Keys(cut, c1), Keys(cut, c2), 0, 0);
  }

  /** For any pair (a, b) ahead, the walk visits a pair that is no further in either index and
      whose larger key is no larger than that of (a, b). */
  lemma {:induction false} WalkDominates(u: seq<real>, v: seq<real>, i: nat, j: nat, a: nat, b: nat) returns (k: nat)
    requires i <= a < |u| && j <= b < |v|
    ensures k < |Walk(u, v, i, j)|
    ensures var w := Walk(u, v, i, j)[k];
            w.i <= a && w.j <= b && w.i < |u| && w.j < |v| && Max(u[w.i], v[w.j]) <= Max(u[a], v[b])
    decreases |u| - i + |v| - j
  {
    if u[i] >= v[j] {
      if i == a {
        k := 0;
      } else {
        k := WalkDominates(u, v, i + 1, j, a, b);
        k := k + 1;
      }
    } else {
      if j == b {
        k := 0;
      } else {
        k := WalkDominates(u, v, i, j + 1, a, b);
        k := k + 1;
      }
    }
  }

  predicate AtMost(a: Shape, b: Shape) {
    a.x <= b.x && a.y <= b.y
  }

  /** A sum of proper curves is a proper curve. */
  lemma SumProper(cut: int, c1: ShapeSeq, c2: ShapeSeq)
    requires ProperCurve(c1) && ProperCurve(c2)
    ensures ProperCurve(Sum(cut, c1, c2))
  {
    PairsAscend(cut, c1, c2);
    PickedProper(cut, c1, c2, Pairs(cut, c1, c2));
  }

  lemma PickedProper(cut: int, c1: ShapeSeq, c2: ShapeSeq, p: seq<Pair>)
    requires ProperCurve(c1) && ProperCurve(c2)
    requires |p| > 0 && forall k | 0 <= k < |p| :: 0 <= p[k].i < |c1| && 0 <= p[k].j < |c2|
    requires Ascends(p)
    ensures ProperCurve(Picked(cut, c1, c2, p))
  {
    var c := Picked(cut, c1, c2, p);
    forall k, l | 0 <= k < l < |c|
      ensures c[k].x <= c[l].x && c[k].y >= c[l].y
    {
      assert p[k].i <= p[l].i && p[k].j <= p[l].j;
      ProperOrder(c1, p[k].i, p[l].i);
      ProperOrder(c2, p[k].j, p[l].j);
    }
  }

  lemma ProperOrder(c: ShapeSeq, i: nat, j: nat)
    requires ProperCurve(c) && i <= j < |c|
    ensures c[i].x <= c[j].x && c[i].y >= c[j].y
  {
  }

  /** Whatever pair of shapes one picks, some entry of the sum needs no larger a box. */
  lemma SumDominates(cut: int, c1: ShapeSeq, c2: ShapeSeq, a: nat, b: nat) returns (k: nat)
    requires ProperCurve(c1) && ProperCurve(c2) && a < |c1| && b < |c2|
    ensures k < |Sum(cut, c1, c2)|
    ensures AtMost(Sum(cut, c1, c2)[k], Combine(cut, c1[a], c2[b]))
  {
    var p := Pairs(cut, c1, c2);
    if cut == CUT_VERTICAL {
      k := WalkDominates(Heights(c1), Heights(c2), 0, 0, a, b);
      ProperOrder(c1, p[k].i, a);
      ProperOrder(c2, p[k].j, b);
    } else {
      k := MirrorDominates(cut, c1, c2, a, b);
      ProperOrder(c1, a, p[k].i);
      ProperOrder(c2, b, p[k].j);
    }
  }

  lemma MirrorDominates(cut: int, c1: ShapeSeq, c2: ShapeSeq, a: nat, b: nat) returns (k: nat)
    requires cut != CUT_VERTICAL && a < |c1| && b < |c2|
    ensures k < |Pairs(cut, c1, c2)|
    ensures var p := Pairs(cut, c1, c2)[k];
            a <= p.i && b <= p.j && Max(c1[p.i].x, c2[p.j].x) <= Max(c1[a].x, c2[b].x)
  {
    var u, v := WidthsFromRight(c1), WidthsFromRight(c2);
    var m := WalkDominates(u, v, 0, 0, |c1| - 1 - a, |c2| - 1 - b);
    k := MirroredEntry(c1, c2, u, v, Walk(u, v, 0, 0), m, a, b, Pairs(cut, c1, c2));
  }

  lemma MirroredEntry(c1: ShapeSeq, c2: ShapeSeq, u: seq<real>, v: seq<real>, w: seq<Pair>, m: nat, a: nat, b: nat,
                      p: seq<Pair>) returns (k: nat)
    requires |u| == |c1| && forall i | 0 <= i < |c1| :: u[i] == c1[|c1| - 1 - i].x
    requires |v| == |c2| && forall i | 0 <= i < |c2| :: v[i] == c2[|c2| - 1 - i].x
    requires a < |c1| && b < |c2| && m < |w|
    requires forall k | 0 <= k < |w| :: 0 <= w[k].i < |c1| && 0 <= w[k].j < |c2|
    requires w[m].i <= |c1| - 1 - a && w[m].j <= |c2| - 1 - b
    requires Max(u[w[m].i], v[w[m].j]) <= Max(u[|c1| - 1 - a], v[|c2| - 1 - b])
    requires p == Mirror(w, |c1|, |c2|)
    ensures k < |p|
    ensures var q := p[k];
            a <= q.i < |c1| && b <= q.j < |c2| && Max(c1[q.i].x, c2[q.j].x) <= Max(c1[a].x, c2[b].x)
  {
    k := |w| - 1 - m;
  }

  /** A larger shape on either side never needs a smaller box. */
  lemma CombineMonotone(cut: int, a: Shape, b: Shape, a': Shape, b': Shape)
    requires AtMost(a, a') && AtMost(b, b')
    ensures AtMost(Combine(cut, a, b), Combine(cut, a', b'))
  {
  }

  // ----- slicing trees over curves -----

  /** A slicing tree whose leaves carry the curves of their units. */
  datatype CurveTree =
    | Leaf(unit: nat, shapes: ShapeSeq)
    | Cut(cut: int, left: CurveTree, right: CurveTree)

  /** A slicing tree in which every unit has taken one of its shapes. */
  datatype SizedTree =
    | SizedLeaf(unit: nat, shape: Shape)
    | SizedCut(cut: int, left: SizedTree, right: SizedTree)

  ghost predicate ProperTree(t: CurveTree) {
    match t
    case Leaf(_, shapes) => ProperCurve(shapes)
    case Cut(_, l, r) => ProperTree(l) && ProperTree(r)
  }

  /** The curve that tree_from_NPE hangs on the root of this tree. */
  function CurveOf(t: CurveTree): ShapeSeq {
    match t
    case Leaf(_, shapes) => shapes
    case Cut(cut, l, r) => Sum(cut, CurveOf(l), CurveOf(r))
  }

  /** z is t with one shape taken from each leaf, in any combination at all. */
  ghost predicate IsChoice(z: SizedTree, t: CurveTree) {
    match t
    case Leaf(unit, shapes) => z.SizedLeaf? && z.unit == unit && z.shape in shapes
    case Cut(cut, l, r) => z.SizedCut? && z.cut == cut && IsChoice(z.left, l) && IsChoice(z.right, r)
  }

  /** The smallest box around a sized tree. */
  function Box(z: SizedTree): Shape {
    match z
    case SizedLeaf(_, shape) => shape
    case SizedCut(cut, l, r) => Combine(cut, Box(l), Box(r))
  }

  /** The choice found by following the back-pointers from entry k of the root. */
  function Chosen(t: CurveTree, k: nat): SizedTree
    requires k < |CurveOf(t)|
  {
    match t
    case Leaf(unit, shapes) => SizedLeaf(unit, shapes[k])
    case Cut(cut, l, r) =>
      var p := Pairs(cut, CurveOf(l), CurveOf(r))[k];
      SizedCut(cut, Chosen(l, p.i), Chosen(r, p.j))
  }

  lemma {:induction false} CurveProper(t: CurveTree)
    requires ProperTree(t)
    ensures ProperCurve(CurveOf(t))
  {
    match t
    case Leaf(_, _) =>
    case Cut(cut, l, r) =>
      CurveProper(l);
      CurveProper(r);
      SumProper(cut, CurveOf(l), CurveOf(r));
  }

  /** The back-pointers lead to a choice whose box is the entry they start from. */
  lemma {:induction false} ChosenRealises(t: CurveTree, k: nat)
    requires k < |CurveOf(t)|
    ensures IsChoice(Chosen(t, k), t)
    ensures Box(Chosen(t, k)) == CurveOf(t)[k]
  {
    match t
    case Leaf(_, _) =>
    case Cut(cut, l, r) =>
      var p := Pairs(cut, CurveOf(l), CurveOf(r))[k];
      ChosenRealises(l, p.i);
      ChosenRealises(r, p.j);
  }

  /** No choice of shapes, out of the exponentially many, has a box that every entry of the root
      curve fails to fit into. */
  lemma {:induction false} CurveDominates(t: CurveTree, z: SizedTree) returns (k: nat)
    requires ProperTree(t) && IsChoice(z, t)
    ensures k < |CurveOf(t)| && AtMost(CurveOf(t)[k], Box(z))
  {
    match t
    case Leaf(_, shapes) =>
      k :| 0 <= k < |shapes| && shapes[k] == z.shape;
    case Cut(cut, l, r) =>
      var a := CurveDominates(l, z.left);
      var b := CurveDominates(r, z.right);
      CurveProper(l);
      CurveProper(r);
      k := SumDominates(cut, CurveOf(l), CurveOf(r), a, b);
      CombineMonotone(cut, CurveOf(l)[a], CurveOf(r)[b], Box(z.left), Box(z.right));
  }

  function AreaOf(s: Shape): real {
    s.x * s.y
  }

  /** min_area_pos: the first position of least area. */
  ghost predicate IsMinAreaPos(c: ShapeSeq, pos: nat) {
    pos < |c| &&
    (forall i | 0 <= i < |c| :: AreaOf(c[pos]) <= AreaOf(c[i])) &&
    (forall i | 0 <= i < pos :: AreaOf(c[pos]) < AreaOf(c[i]))
  }

  lemma SmallerBoxSmallerArea(a: Shape, b: Shape)
    requires AtMost(a, b) && a.x >= 0.0 && a.y >= 0.0
    ensures AreaOf(a) <= AreaOf(b)
  {
    assert a.x * a.y <= b.x * a.y <= b.x * b.y;
  }

  /** The entry that min_area_pos picks on the root curve is the least bounding-box area over
      all combinations of leaf shapes, and the back-pointers give a combination that has it. */
  lemma MinAreaOptimal(t: CurveTree, pos: nat, z: SizedTree)
    requires ProperTree(t) && IsMinAreaPos(CurveOf(t), pos)
    ensures IsChoice(Chosen(t, pos), t)
    ensures AreaOf(Box(Chosen(t, pos))) == AreaOf(CurveOf(t)[pos])
    ensures IsChoice(z, t) ==> AreaOf(CurveOf(t)[pos]) <= AreaOf(Box(z))
  {
    ChosenRealises(t, pos);
    if IsChoice(z, t) {
      var k := CurveDominates(t, z);
      CurveProper(t);
      SmallerBoxSmallerArea(CurveOf(t)[k], Box(z));
    }
  }
}
