/** Shape curves as the objects of HotSpot/shape.c: their sum by a two-pass merge into fresh
    arrays, their copy, the position of least area, each proved against ShapeCurves.dfy. */
module Curves {
  import opened PolishExpression
  import opened ShapeCurves

  /** The back-pointers of an entry of a sum, and the line between the two children. */
  datatype Back = Back(left: int, right: int, median: real)

  /** shape_t. The coordinates change when a floorplan is sized; the back-pointers never do, and
      the curve of a unit has none. */
  class Curve {
    var shapes: seq<Shape>
    const back: seq<Back>

    constructor (shapes: seq<Shape>, back: seq<Back>)
      ensures this.shapes == shapes && this.back == back
    {
      this.shapes := shapes;
      this.back := back;
    }

    method SetX(pos: nat, x: real)
      requires pos < |shapes|
      modifies this
      ensures shapes == old(shapes)[pos := Shape(x, old(shapes)[pos].y)]
    {
      shapes := shapes[pos := Shape(x, shapes[pos].y)];
    }

    method SetY(pos: nat, y: real)
      requires pos < |shapes|
      modifies this
      ensures shapes == old(shapes)[pos := Shape(old(shapes)[pos].x, y)]
    {
      shapes := shapes[pos := Shape(shapes[pos].x, y)];
    }
  }

  /** Where the line between the two children is: the extent of the first along the cut. */
  function Divider(cut: int, first: Shape): real {
    if cut == CUT_VERTICAL then first.x else first.y
  }

  /** The back-pointers that the sum of two curves must have. */
  function Backs(cut: int, v1: ShapeSeq, v2: ShapeSeq): (b: seq<Back>)
    ensures |b| == |Pairs(cut, v1, v2)|
    ensures forall k | 0 <= k < |b| ::
              var p := Pairs(cut, v1, v2)[k]; b[k] == Back(p.i, p.j, Divider(cut, v1[p.i]))
  {
    var p := Pairs(cut, v1, v2);
    seq(|p|, k requires 0 <= k < |p| => Back(p[k].i, p[k].j, Divider(cut, v1[p[k].i])))
  }

  /** Which of the two merge indices moves: the test that both passes make. */
  method FirstMoves(v1: ShapeSeq, v2: ShapeSeq, cut: int, i: nat, j: nat) returns (first: bool)
    requires i < |v1| && j < |v2|
    ensures first <==> Keys(cut, v1)[i] >= Keys(cut, v2)[j]
  {
    if cut == CUT_VERTICAL {
      first := v1[i].y >= v2[j].y;
    } else {
      first := v1[|v1| - 1 - i].x >= v2[|v2| - 1 - j].x;
    }
  }

  /** The first pass of shape_add: how many entries the sum will have. */
  method CountSum(v1: ShapeSeq, v2: ShapeSeq, cut: int) returns (total: nat)
    ensures total == |Pairs(cut, v1, v2)|
  {
    var i, j := 0, 0;
    total := 0;
    ghost var u, v := Keys(cut, v1), Keys(cut, v2);
    while i < |v1| && j < |v2|
      invariant 0 <= i <= |v1| && 0 <= j <= |v2|
      invariant total + WalkLength(u, v, i, j) == WalkLength(u, v, 0, 0)
      decreases |v1| - i + |v2| - j
    {
      var first := FirstMoves(v1, v2, cut, i, j);
      if first {
        i := i + 1;
      } else {
        j := j + 1;
      }
      total := total + 1;
    }
  }

  /** The slot in which step k of the merge is stored: a vertical sum is stored from the left
      end, a horizontal one, like its two operands, from the right end. */
  function SlotOf(cut: int, size: int, k: int): int {
    if cut == CUT_VERTICAL then k else size - 1 - k
  }

  /** The entries that step (i, j) of the merge combines. */
  function SlotTarget(cut: int, m: int, n: int, i: int, j: int): Pair {
    if cut == CUT_VERTICAL then Pair(i, j) else Pair(m - 1 - i, n - 1 - j)
  }

  /** After k steps the second pass is at (i, j): the rest of the walk starts there. */
  ghost predicate AtStep(cut: int, v1: ShapeSeq, v2: ShapeSeq, k: int, i: int, j: int) {
    var u, v := Keys(cut, v1), Keys(cut, v2);
    var w := Walk(u, v, 0, 0);
    0 <= i <= |v1| && 0 <= j <= |v2| && 0 <= k <= |w| && w[k..] == Walk(u, v, i, j)
  }

  lemma SlotOfStep(cut: int, v1: ShapeSeq, v2: ShapeSeq, w: seq<Pair>, k: nat)
    requires w == Walk(Keys(cut, v1), Keys(cut, v2), 0, 0) && k < |w|
    ensures Pairs(cut, v1, v2)[SlotOf(cut, |w|, k)] == SlotTarget(cut, |v1|, |v2|, w[k].i, w[k].j)
  {
  }

  lemma NextStep(cut: int, v1: ShapeSeq, v2: ShapeSeq, k: nat, i: nat, j: nat)
    requires AtStep(cut, v1, v2, k, i, j) && i < |v1| && j < |v2|
    ensures var p := Pairs(cut, v1, v2);
            k < |p| && p[SlotOf(cut, |p|, k)] == SlotTarget(cut, |v1|, |v2|, i, j)
    ensures if Keys(cut, v1)[i] >= Keys(cut, v2)[j] then AtStep(cut, v1, v2, k + 1, i + 1, j)
            else AtStep(cut, v1, v2, k + 1, i, j + 1)
  {
    var w := Walk(Keys(cut, v1), Keys(cut, v2), 0, 0);
    assert w[k..][0] == Pair(i, j) && w[k..][1..] == w[k + 1..];
    SlotOfStep(cut, v1, v2, w, k);
  }

  lemma LastStep(cut: int, v1: ShapeSeq, v2: ShapeSeq, k: nat, i: nat, j: nat)
    requires AtStep(cut, v1, v2, k, i, j) && (i == |v1| || j == |v2|)
    ensures k == |Pairs(cut, v1, v2)|
  {
  }

  /** One entry of the sum: its shape and its back-pointers. */
  method SumEntry(v1: ShapeSeq, v2: ShapeSeq, cut: int, i: nat, j: nat) returns (shape: Shape, back: Back)
    requires i < |v1| && j < |v2|
    ensures var t := SlotTarget(cut, |v1|, |v2|, i, j);
            shape == Combine(cut, v1[t.i], v2[t.j]) && back == Back(t.i, t.j, Divider(cut, v1[t.i]))
  {
    var m, n := |v1|, |v2|;
    if cut == CUT_VERTICAL {
      shape := Shape(v1[i].x + v2[j].x, if v1[i].y > v2[j].y then v1[i].y else v2[j].y);
      back := Back(i, j, v1[i].x);
    } else {
      shape := Shape(if v1[m - 1 - i].x > v2[n - 1 - j].x then v1[m - 1 - i].x else v2[n - 1 - j].x,
                     v1[m - 1 - i].y + v2[n - 1 - j].y);
      back := Back(m - 1 - i, n - 1 - j, v1[m - 1 - i].y);
    }
  }

  /** The first k slots, in storing order, of the arrays hold the sum. */
  ghost predicate StoredSoFar(shapes: seq<Shape>, backs: seq<Back>, cut: int, v1: ShapeSeq, v2: ShapeSeq, k: int) {
    StoredPart(shapes, backs, Sum(cut, v1, v2), Backs(cut, v1, v2), cut, k)
  }

  ghost predicate StoredPart(shapes: seq<Shape>, backs: seq<Back>, sum: seq<Shape>, b: seq<Back>, cut: int, k: int) {
    |shapes| == |backs| == |sum| == |b| &&
    forall q | 0 <= q < |sum| && (if cut == CUT_VERTICAL then q < k else q >= |sum| - k) ::
      shapes[q] == sum[q] && backs[q] == b[q]
  }

  /** One step of the second pass extends the part of the sum that is stored. */
  lemma StoredNext(shapes: seq<Shape>, backs: seq<Back>, cut: int, v1: ShapeSeq, v2: ShapeSeq, k: nat, i: nat, j: nat)
    requires StoredSoFar(shapes, backs, cut, v1, v2, k) && i < |v1| && j < |v2|
    requires var p := Pairs(cut, v1, v2);
             k < |p| && p[SlotOf(cut, |p|, k)] == SlotTarget(cut, |v1|, |v2|, i, j)
    ensures var s, t := SlotOf(cut, |shapes|, k), SlotTarget(cut, |v1|, |v2|, i, j);
            StoredSoFar(shapes[s := Combine(cut, v1[t.i], v2[t.j])], backs[s := Back(t.i, t.j, Divider(cut, v1[t.i]))],
                        cut, v1, v2, k + 1)
  {
    hide Combine, Divider, SlotTarget, Sum, Backs, Pairs, StoredPart;
    var t := SlotTarget(cut, |v1|, |v2|, i, j);
    var sum, b := Sum(cut, v1, v2), Backs(cut, v1, v2);
    SlotHolds(cut, v1, v2, k, i, j);
    OneMoreStored(shapes, backs, sum, b, cut, k);
  }

  lemma SlotHolds(cut: int, v1: ShapeSeq, v2: ShapeSeq, k: nat, i: nat, j: nat)
    requires i < |v1| && j < |v2|
    requires var p := Pairs(cut, v1, v2);
             k < |p| && p[SlotOf(cut, |p|, k)] == SlotTarget(cut, |v1|, |v2|, i, j)
    ensures var s, t := SlotOf(cut, |Sum(cut, v1, v2)|, k), SlotTarget(cut, |v1|, |v2|, i, j);
            k < |Sum(cut, v1, v2)| == |Backs(cut, v1, v2)| == |Pairs(cut, v1, v2)| &&
            Backs(cut, v1, v2)[s] == Back(t.i, t.j, Divider(cut, v1[t.i])) &&
            Sum(cut, v1, v2)[s] == Combine(cut, v1[t.i], v2[t.j])
  {
    hide Combine, Divider;
  }

  lemma OneMoreStored(shapes: seq<Shape>, backs: seq<Back>, sum: seq<Shape>, b: seq<Back>, cut: int, k: nat)
    requires StoredPart(shapes, backs, sum, b, cut, k) && k < |sum|
    ensures |shapes| == |backs| == |sum| == |b| && 0 <= SlotOf(cut, |sum|, k) < |sum|
    ensures var s := SlotOf(cut, |sum|, k); StoredPart(shapes[s := sum[s]], backs[s := b[s]], sum, b, cut, k + 1)
  {
  }

  /** One step of the second pass, stored in its slot. */
  method StoreStep(shapes: array<Shape>, backs: array<Back>, v1: ShapeSeq, v2: ShapeSeq, cut: int, k: nat, i: nat,
                   j: nat)
    requires shapes.Length == backs.Length && k < shapes.Length && i < |v1| && j < |v2|
    modifies shapes, backs
    ensures var s, t := SlotOf(cut, shapes.Length, k), SlotTarget(cut, |v1|, |v2|, i, j);
            shapes[..] == old(shapes[..])[s := Combine(cut, v1[t.i], v2[t.j])] &&
            backs[..] == old(backs[..])[s := Back(t.i, t.j, Divider(cut, v1[t.i]))]
  {
    var slot := if cut == CUT_VERTICAL then k else shapes.Length - 1 - k;
    shapes[slot], backs[slot] := SumEntry(v1, v2, cut, i, j);
  }

  /** The end of a step: the merge index with the larger key moves. */
  method Advance(v1: ShapeSeq, v2: ShapeSeq, cut: int, k: nat, i: nat, j: nat) returns (i': nat, j': nat)
    requires AtStep(cut, v1, v2, k, i, j) && i < |v1| && j < |v2|
    ensures AtStep(cut, v1, v2, k + 1, i', j') && i' + j' == i + j + 1
  {
    NextStep(cut, v1, v2, k, i, j);
    var first := FirstMoves(v1, v2, cut, i, j);
    if first {
      i', j' := i + 1, j;
    } else {
      i', j' := i, j + 1;
    }
  }

  lemma StoredAll(shapes: seq<Shape>, backs: seq<Back>, cut: int, v1: ShapeSeq, v2: ShapeSeq, k: nat)
    requires StoredSoFar(shapes, backs, cut, v1, v2, k) && k == |Pairs(cut, v1, v2)|
    ensures shapes == Sum(cut, v1, v2) && backs == Backs(cut, v1, v2)
  {
  }

  /** shape_add: the sum of two curves, in arrays of just the size that the first pass counted. */
  method ShapeAdd(c1: Curve, c2: Curve, cut: int) returns (sum: Curve)
    ensures fresh(sum)
    ensures sum.shapes == Sum(cut, c1.shapes, c2.shapes) && sum.back == Backs(cut, c1.shapes, c2.shapes)
  {
    var v1, v2 := c1.shapes, c2.shapes;
    var total := CountSum(v1, v2, cut);
    var shapes, backs := new Shape[total](_ => Shape(0.0, 0.0)), new Back[total](_ => Back(0, 0, 0.0));
    var i: nat, j: nat, k: nat := 0, 0, 0;
    while i < |v1| && j < |v2|
      invariant AtStep(cut, v1, v2, k, i, j)
      invariant StoredSoFar(shapes[..], backs[..], cut, v1, v2, k)
      decreases |v1| + |v2| - i - j
    {
      NextStep(cut, v1, v2, k, i, j);
      StoredNext(shapes[..], backs[..], cut, v1, v2, k, i, j);
      StoreStep(shapes, backs, v1, v2, cut, k, i, j);
      i, j := Advance(v1, v2, cut, k, i, j);
      k := k + 1;
    }
    LastStep(cut, v1, v2, k, i, j);
    StoredAll(shapes[..], backs[..], cut, v1, v2, k);
    sum := new Curve(shapes[..], backs[..]);
  }

  /** shape_duplicate on the curve of a unit. */
  method DuplicateLeaf(c: Curve) returns (copy: Curve)
    requires c.back == []
    ensures fresh(copy) && copy.shapes == c.shapes && copy.back == []
  {
    var shapes := new Shape[|c.shapes|](_ => Shape(0.0, 0.0));
    for i := 0 to |c.shapes|
      invariant shapes[..i] == c.shapes[..i]
    {
      shapes[i] := c.shapes[i];
    }
    copy := new Curve(shapes[..], []);
  }

  /** min_area_pos: the first position of least area. */
  method MinAreaPos(v: ShapeSeq) returns (pos: nat)
    requires |v| >= 1
    ensures IsMinAreaPos(v, pos)
  {
    pos := 0;
    var min := v[0].x * v[0].y;
    for i := 1 to |v|
      invariant pos < i && min == AreaOf(v[pos])
      invariant forall k | 0 <= k < i :: min <= AreaOf(v[k])
      invariant forall k | 0 <= k < pos :: min < AreaOf(v[k])
    {
      if min > v[i].x * v[i].y {
        min := v[i].x * v[i].y;
        pos := i;
      }
    }
  }
}
