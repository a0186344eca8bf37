/** Slicing trees and the expressions they are read from (tree_from_NPE, HotSpot/shape.c): the
    stack machine as a function, and why it is one half of a bijection. */
module SlicingTree {
  import opened PolishExpression
  import opened Geometry
  import opened ShapeCurves
  import opened Placement

  // ----- the stack machine -----

  /** Every unit of the expression has a curve. */
  predicate Covered(s: Expr, shapes: seq<ShapeSeq>) {
    forall i | 0 <= i < |s| :: s[i] < |shapes|
  }

  /** The stack after the first k elements, bottom first. */
  function Stack(s: Expr, shapes: seq<ShapeSeq>, k: nat): (st: seq<CurveTree>)
    requires Balloting(s) && Covered(s, shapes) && k <= |s|
    ensures |st| == k - 2 * Cuts(s, k)
  {
    if k == 0 then []
    else
      var below := Stack(s, shapes, k - 1);
      if !IsCut(s[k - 1]) then below + [Leaf(s[k - 1], shapes[s[k - 1]])]
      else
        assert 2 * Cuts(s, k) < k;
        var m := |below| - 2;
        below[..m] + [Cut(s[k - 1], below[m], below[m + 1])]
  }

  /** The tree of a whole expression: what is on the stack at the end. */
  function Parse(s: Expr, shapes: seq<ShapeSeq>): CurveTree
    requires Balloting(s) && Covered(s, shapes) && |s| == 2 * Cuts(s, |s|) + 1
  {
    Stack(s, shapes, |s|)[0]
  }

  // ----- reading a tree back -----

  function Postorder(t: CurveTree): Expr {
    match t
    case Leaf(unit, _) => [unit]
    case Cut(cut, l, r) => Postorder(l) + Postorder(r) + [cut]
  }

  function PostorderAll(st: seq<CurveTree>): Expr {
    if st == [] then [] else PostorderAll(st[..|st| - 1]) + Postorder(st[|st| - 1])
  }

  lemma PostorderPush(st: seq<CurveTree>, t: CurveTree)
    ensures PostorderAll(st + [t]) == PostorderAll(st) + Postorder(t)
  {
    assert (st + [t])[..|st|] == st;
  }

  lemma AfterUnit(s: Expr, shapes: seq<ShapeSeq>, k: nat)
    requires Balloting(s) && Covered(s, shapes) && k < |s| && !IsCut(s[k])
    ensures PostorderAll(Stack(s, shapes, k + 1)) == PostorderAll(Stack(s, shapes, k)) + [s[k]]
  {
    hide PostorderAll, Balloting, Cuts;
    PostorderPush(Stack(s, shapes, k), Leaf(s[k], shapes[s[k]]));
  }

  lemma AfterCut(s: Expr, shapes: seq<ShapeSeq>, k: nat)
    requires Balloting(s) && Covered(s, shapes) && k < |s| && IsCut(s[k])
    ensures PostorderAll(Stack(s, shapes, k + 1)) == PostorderAll(Stack(s, shapes, k)) + [s[k]]
  {
    hide PostorderAll;
    assert 2 * Cuts(s, k + 1) < k + 1;
    var st := Stack(s, shapes, k);
    var m := |st| - 2;
    assert st == st[..m] + [st[m]] + [st[m + 1]];
    PostorderPush(st[..m] + [st[m]], st[m + 1]);
    PostorderPush(st[..m], st[m]);
    PostorderPush(st[..m], Cut(s[k], st[m], st[m + 1]));
  }

  /** Read back, the stack is always the part of the expression consumed so far. */
  lemma {:induction false} StackReadsBack(s: Expr, shapes: seq<ShapeSeq>, k: nat)
    requires Balloting(s) && Covered(s, shapes) && k <= |s|
    ensures PostorderAll(Stack(s, shapes, k)) == s[..k]
  {
    hide Stack, Balloting, Covered;
    if k == 0 {
      NothingRead(s, shapes);
    } else {
      StackReadsBack(s, shapes, k - 1);
      assert s[..k] == s[..k - 1] + [s[k - 1]];
      if IsCut(s[k - 1]) {
        AfterCut(s, shapes, k - 1);
      } else {
        AfterUnit(s, shapes, k - 1);
      }
    }
  }

  lemma NothingRead(s: Expr, shapes: seq<ShapeSeq>)
    requires Balloting(s) && Covered(s, shapes)
    ensures PostorderAll(Stack(s, shapes, 0)) == []
  {
  }

  lemma ParseReadsBack(s: Expr, shapes: seq<ShapeSeq>)
    requires Balloting(s) && Covered(s, shapes) && |s| == 2 * Cuts(s, |s|) + 1
    ensures Postorder(Parse(s, shapes)) == s
  {
    hide Balloting, Covered, Stack, Cuts;
    StackReadsBack(s, shapes, |s|);
    var st := Stack(s, shapes, |s|);
    assert st[..0] == [] && s[..|s|] == s;
  }

  // ----- and the other way round -----

  /** A tree over the given curves with proper labels. */
  ghost predicate Labelled(t: CurveTree, shapes: seq<ShapeSeq>) {
    match t
    case Leaf(unit, c) => unit < |shapes| && c == shapes[unit]
    case Cut(cut, l, r) => IsCut(cut) && Labelled(l, shapes) && Labelled(r, shapes)
  }

  /** Cuts of a part are cuts of the whole. */
  lemma {:induction false} CutsShift(a: Expr, b: Expr, k: nat)
    requires k <= |b|
    ensures Cuts(a + b, |a| + k) == Cuts(a, |a|) + Cuts(b, k)
  {
    if k == 0 {
      CutsAgree(a + b, a, |a|);
    } else {
      CutsShift(a, b, k - 1);
    }
  }

  /** One more unit than cuts, and fewer cuts than units all the way: the expression of one tree. */
  ghost predicate OneTree(s: Expr) {
    |s| == 2 * Cuts(s, |s|) + 1 && Balloting(s) && !IsCut(s[0])
  }

  lemma CutsOfParts(a: Expr, b: Expr, cut: int, k: nat)
    requires IsCut(cut) && k <= |a| + |b| + 1
    ensures Cuts(a + b + [cut], k) == if k <= |a| then Cuts(a, k)
                                      else if k <= |a| + |b| then Cuts(a, |a|) + Cuts(b, k - |a|)
                                      else Cuts(a, |a|) + Cuts(b, |b|) + 1
  {
    var s := a + b + [cut];
    if k <= |a| {
      CutsAgree(s, a, k);
    } else if k <= |a| + |b| {
      CutsAgree(s, a + b, k);
      CutsShift(a, b, k - |a|);
    } else {
      CutsAgree(s, a + b, |a| + |b|);
      CutsShift(a, b, |b|);
    }
  }

  lemma OneTreeOfParts(a: Expr, b: Expr, cut: int)
    requires OneTree(a) && OneTree(b) && IsCut(cut)
    ensures OneTree(a + b + [cut])
  {
    var s := a + b + [cut];
    forall k | 1 <= k <= |s|
      ensures 2 * Cuts(s, k) < k
    {
      CutsOfParts(a, b, cut, k);
    }
    CutsOfParts(a, b, cut, |s|);
  }

  lemma {:induction false} PostorderCuts(t: CurveTree, shapes: seq<ShapeSeq>)
    requires Labelled(t, shapes)
    ensures OneTree(Postorder(t)) && Covered(Postorder(t), shapes)
  {
    match t
    case Leaf(unit, _) =>
      assert Cuts([unit], 1) == Cuts([unit], 0);
    case Cut(cut, l, r) =>
      PostorderCuts(l, shapes);
      PostorderCuts(r, shapes);
      OneTreeOfParts(Postorder(l), Postorder(r), cut);
  }

  /** What is on the stack after k elements, as a property of k. */
  ghost predicate StackIs(s: Expr, shapes: seq<ShapeSeq>, k: nat, st: seq<CurveTree>)
    requires Balloting(s) && Covered(s, shapes)
  {
    k <= |s| && Stack(s, shapes, k) == st
  }

  lemma StackAtCut(s: Expr, shapes: seq<ShapeSeq>, k: nat, st: seq<CurveTree>, l: CurveTree, r: CurveTree)
    requires Balloting(s) && Covered(s, shapes) && k < |s| && IsCut(s[k])
    requires StackIs(s, shapes, k, st + [l] + [r])
    ensures StackIs(s, shapes, k + 1, st + [Cut(s[k], l, r)])
  {
    assert 2 * Cuts(s, k + 1) < k + 1;
    assert (st + [l] + [r])[..|st|] == st;
  }

  /** Fed the postorder of a tree, from any stack, the machine pushes that tree. */
  lemma {:induction false} StackPushesTree(s: Expr, shapes: seq<ShapeSeq>, pre: Expr, t: CurveTree, post: Expr,
                                           st: seq<CurveTree>)
    requires Balloting(s) && Covered(s, shapes) && Labelled(t, shapes)
    requires s == pre + Postorder(t) + post
    requires StackIs(s, shapes, |pre|, st)
    ensures StackIs(s, shapes, |pre + Postorder(t)|, st + [t])
    decreases t
  {
    hide Balloting;
    match t
    case Leaf(unit, _) =>
    case Cut(cut, l, r) =>
      var a, b := Postorder(l), Postorder(r);
      assert s == pre + a + (b + [cut] + post);
      StackPushesTree(s, shapes, pre, l, b + [cut] + post, st);
      assert s == (pre + a) + b + ([cut] + post);
      StackPushesTree(s, shapes, pre + a, r, [cut] + post, st + [l]);
      StackAtCut(s, shapes, |pre + a + b|, st, l, r);
  }

  /** The tree read from the postorder of a tree is that tree. */
  lemma ParseOfPostorder(t: CurveTree, shapes: seq<ShapeSeq>)
    requires Labelled(t, shapes)
    ensures var s := Postorder(t);
            Balloting(s) && Covered(s, shapes) && |s| == 2 * Cuts(s, |s|) + 1 && Parse(s, shapes) == t
  {
    PostorderCuts(t, shapes);
    var s := Postorder(t);
    assert s == [] + s + [];
    StackPushesTree(s, shapes, [], t, [], []);
    assert Stack(s, shapes, |s|) == [t];
  }

  // ----- normalization is skewness -----

  /** No right child carries its parent's cut. */
  predicate Skewed(t: CurveTree) {
    match t
    case Leaf(_, _) => true
    case Cut(cut, l, r) => Skewed(l) && Skewed(r) && !(r.Cut? && r.cut == cut)
  }

  lemma LastOfPostorder(t: CurveTree)
    ensures Postorder(t) != []
    ensures Postorder(t)[|Postorder(t)| - 1] == match t case Leaf(u, _) => u case Cut(c, _, _) => c
  {
  }

  lemma {:induction false} NormalizedIffSkewed(t: CurveTree, shapes: seq<ShapeSeq>)
    requires Labelled(t, shapes)
    ensures Normalized(Postorder(t)) <==> Skewed(t)
  {
    match t
    case Leaf(_, _) =>
    case Cut(cut, l, r) =>
      NormalizedIffSkewed(l, shapes);
      NormalizedIffSkewed(r, shapes);
      PostorderCuts(r, shapes);
      LastOfPostorder(l);
      LastOfPostorder(r);
      NormalizedOfParts(Postorder(l), Postorder(r), cut);
  }

  lemma NormalizedOfParts(a: Expr, b: Expr, cut: int)
    requires a != [] && b != [] && !IsCut(b[0])
    ensures Normalized(a + b + [cut]) <==> Normalized(a) && Normalized(b) && !(IsCut(b[|b| - 1]) && b[|b| - 1] == cut)
  {
    var s := a + b + [cut];
    if Normalized(s) {
      forall i | 0 <= i < |a| - 1 && IsCut(a[i])
        ensures a[i] != a[i + 1]
      {
        assert s[i] == a[i] && s[i + 1] == a[i + 1];
      }
      forall i | 0 <= i < |b| - 1 && IsCut(b[i])
        ensures b[i] != b[i + 1]
      {
        assert s[|a| + i] == b[i] && s[|a| + i + 1] == b[i + 1];
      }
      assert s[|a| + |b| - 1] == b[|b| - 1] && s[|a| + |b|] == cut;
    }
    if Normalized(a) && Normalized(b) && !(IsCut(b[|b| - 1]) && b[|b| - 1] == cut) {
      forall i | 0 <= i < |s| - 1 && IsCut(s[i])
        ensures s[i] != s[i + 1]
      {
        if i < |a| - 1 {
          assert a[i] != a[i + 1];
        } else if i == |a| - 1 {
          assert s[i + 1] == b[0];
        } else if i < |a| + |b| - 1 {
          assert b[i - |a|] != b[i - |a| + 1];
        }
      }
    }
  }

  /** The tree of a normalized expression is a skewed one, and its postorder is the expression. */
  lemma ParseSkewed(s: Expr, n: nat, shapes: seq<ShapeSeq>)
    requires IsNpe(s, n) && |shapes| == n
    ensures Labelled(Parse(s, shapes), shapes) && Skewed(Parse(s, shapes))
    ensures Postorder(Parse(s, shapes)) == s
  {
    ParseReadsBack(s, shapes);
    StackLabelled(s, shapes, |s|);
    NormalizedIffSkewed(Parse(s, shapes), shapes);
  }

  lemma {:induction false} StackLabelled(s: Expr, shapes: seq<ShapeSeq>, k: nat)
    requires Balloting(s) && Covered(s, shapes) && k <= |s|
    ensures forall i | 0 <= i < |Stack(s, shapes, k)| :: Labelled(Stack(s, shapes, k)[i], shapes)
  {
    if k > 0 {
      StackLabelled(s, shapes, k - 1);
      assert 2 * Cuts(s, k) < k;
    }
  }

  // ----- the leaves -----

  function TreeUnits(t: CurveTree): (r: seq<int>)
    ensures r != []
  {
    match t
    case Leaf(unit, _) => [unit]
    case Cut(_, l, r) => TreeUnits(l) + TreeUnits(r)
  }

  lemma {:induction false} UnitsOfPostorder(t: CurveTree, shapes: seq<ShapeSeq>, u: int)
    requires Labelled(t, shapes) && u >= 0
    ensures multiset(Postorder(t))[u] == multiset(TreeUnits(t))[u]
  {
    match t
    case Leaf(_, _) =>
    case Cut(cut, l, r) =>
      UnitsOfPostorder(l, shapes, u);
      UnitsOfPostorder(r, shapes, u);
      assert multiset(Postorder(t)) == multiset(Postorder(l)) + multiset(Postorder(r)) + multiset([cut]);
      assert multiset(TreeUnits(t)) == multiset(TreeUnits(l)) + multiset(TreeUnits(r));
  }

  lemma {:induction false} UnitsInRange(t: CurveTree, shapes: seq<ShapeSeq>)
    requires Labelled(t, shapes)
    ensures forall u | u in TreeUnits(t) :: 0 <= u < |shapes|
    ensures |Postorder(t)| == 2 * |TreeUnits(t)| - 1
  {
    match t
    case Leaf(_, _) =>
    case Cut(_, l, r) =>
      UnitsInRange(l, shapes);
      UnitsInRange(r, shapes);
  }

  /** Each number below n once. */
  ghost predicate Permutes(order: seq<int>, n: nat) {
    |order| == n &&
    (forall i | 0 <= i < |order| :: 0 <= order[i] < n) &&
    (forall i, j | 0 <= i < j < |order| :: order[i] != order[j]) &&
    (forall u | 0 <= u < n :: u in order)
  }

  lemma OnceEach(order: seq<int>)
    requires forall i | 0 <= i < |order| :: multiset(order)[order[i]] == 1
    ensures forall i, j | 0 <= i < j < |order| :: order[i] != order[j]
  {
    forall i, j | 0 <= i < j < |order|
      ensures order[i] != order[j]
    {
      assert order == order[..j] + order[j..];
      assert order[i] in multiset(order[..j]) && order[j] in multiset(order[j..]);
      assert multiset(order) == multiset(order[..j]) + multiset(order[j..]);
    }
  }

  /** The leaves of the tree of an expression are the units, each once. */
  lemma ParseUnits(s: Expr, n: nat, shapes: seq<ShapeSeq>)
    requires IsNpe(s, n) && |shapes| == n
    ensures Permutes(TreeUnits(Parse(s, shapes)), n)
  {
    hide TreeUnits;
    ParseSkewed(s, n, shapes);
    var t := Parse(s, shapes);
    UnitsInRange(t, shapes);
    forall u | 0 <= u < n
      ensures multiset(TreeUnits(t))[u] == 1
    {
      UnitsOfPostorder(t, shapes, u);
    }
    assert forall i | 0 <= i < n :: TreeUnits(t)[i] in TreeUnits(t);
    OnceEach(TreeUnits(t));
    forall u | 0 <= u < n
      ensures u in TreeUnits(t)
    {
      assert u in multiset(TreeUnits(t));
    }
  }

  // ----- a bijection -----

  /** All cuts are vertical or horizontal ones. */
  predicate KnownCuts(t: CurveTree) {
    match t
    case Leaf(_, _) => true
    case Cut(cut, l, r) => (cut == CUT_VERTICAL || cut == CUT_HORIZONTAL) && KnownCuts(l) && KnownCuts(r)
  }

  /** A skewed slicing tree over n units with the given curves. */
  ghost predicate SkewedOver(t: CurveTree, shapes: seq<ShapeSeq>, n: nat) {
    Labelled(t, shapes) && KnownCuts(t) && Skewed(t) && Permutes(TreeUnits(t), n)
  }

  predicate Elements(s: Expr, n: nat) {
    forall e | e in s :: e < n && (IsCut(e) ==> e == CUT_VERTICAL || e == CUT_HORIZONTAL)
  }

  /** The elements of the postorder are known just if the cuts of the tree are. */
  lemma {:induction false} PostorderElements(t: CurveTree, shapes: seq<ShapeSeq>)
    requires Labelled(t, shapes)
    ensures Elements(Postorder(t), |shapes|) <==> KnownCuts(t)
  {
    match t
    case Leaf(_, _) =>
    case Cut(cut, l, r) =>
      PostorderElements(l, shapes);
      PostorderElements(r, shapes);
      ElementsOfParts(Postorder(l), Postorder(r), cut, |shapes|);
  }

  lemma ElementsOfParts(a: Expr, b: Expr, cut: int, n: nat)
    requires IsCut(cut)
    ensures Elements(a + b + [cut], n) <==>
            Elements(a, n) && Elements(b, n) && (cut == CUT_VERTICAL || cut == CUT_HORIZONTAL)
  {
    var s := a + b + [cut];
    assert forall e :: e in s <==> e in a || e in b || e == cut;
  }

  lemma OnceIn(order: seq<int>, n: nat, u: int)
    requires Permutes(order, n) && 0 <= u < n
    ensures multiset(order)[u] == 1
  {
    assert u in order;
    var i :| 0 <= i < |order| && order[i] == u;
    assert order == order[..i] + [u] + order[i + 1..];
    assert u !in order[..i] && u !in order[i + 1..];
    assert multiset(order) == multiset(order[..i]) + multiset([u]) + multiset(order[i + 1..]);
  }

  /** Every skewed slicing tree over the units is the tree of its postorder, which is a normalized
      expression. */
  lemma TreeParsed(t: CurveTree, n: nat, shapes: seq<ShapeSeq>)
    requires n >= 2 && |shapes| == n && SkewedOver(t, shapes, n)
    ensures IsNpe(Postorder(t), n) && Parse(Postorder(t), shapes) == t
  {
    ParseOfPostorder(t, shapes);
    UnitsInRange(t, shapes);
    NormalizedIffSkewed(t, shapes);
    PostorderElements(t, shapes);
    forall u | 0 <= u < n
      ensures multiset(Postorder(t))[u] == 1
    {
      UnitsOfPostorder(t, shapes, u);
      OnceIn(TreeUnits(t), n, u);
    }
  }

  /** Normalized expressions and skewed slicing trees over the same units determine each other: each
      has one of the other kind, by parsing and by postorder, and these are inverse to each other. */
  lemma ParseBijective(s: Expr, t: CurveTree, n: nat, shapes: seq<ShapeSeq>)
    requires n >= 2 && |shapes| == n
    ensures IsNpe(s, n) && Parse(s, shapes) == t <==> SkewedOver(t, shapes, n) && Postorder(t) == s
  {
    if IsNpe(s, n) {
      ParseSkewed(s, n, shapes);
      ParseUnits(s, n, shapes);
      PostorderElements(Parse(s, shapes), shapes);
    }
    if SkewedOver(t, shapes, n) {
      TreeParsed(t, n, shapes);
    }
  }

  /** Choosing shapes does not touch the units. */
  lemma {:induction false} ChosenUnits(t: CurveTree, k: nat)
    requires k < |CurveOf(t)|
    ensures LeafUnits(Chosen(t, k)) == TreeUnits(t)
  {
    match t
    case Leaf(_, _) =>
    case Cut(cut, l, r) =>
      var p := Pairs(cut, CurveOf(l), CurveOf(r))[k];
      ChosenUnits(l, p.i);
      ChosenUnits(r, p.j);
  }

  lemma {:induction false} ChosenPositive(t: CurveTree, k: nat)
    requires ProperTree(t) && k < |CurveOf(t)|
    ensures Positive(Chosen(t, k))
  {
    match t
    case Leaf(_, _) =>
    case Cut(cut, l, r) =>
      var p := Pairs(cut, CurveOf(l), CurveOf(r))[k];
      ChosenPositive(l, p.i);
      ChosenPositive(r, p.j);
  }

  lemma {:induction false} LabelledProper(t: CurveTree, shapes: seq<ShapeSeq>)
    requires Labelled(t, shapes) && forall i | 0 <= i < |shapes| :: ProperCurve(shapes[i])
    ensures ProperTree(t)
  {
    if t.Cut? {
      LabelledProper(t.left, shapes);
      LabelledProper(t.right, shapes);
    }
  }

  // ----- the placed floorplan -----

  /** The array that recursive_sizing leaves: blocks by unit number, then the dead blocks. */
  ghost predicate Laid(units: seq<Rect>, n: nat, p: Plan) {
    |units| == n + |p.dead| && |p.placed| == |p.units| &&
    Permutes(p.units, n) &&
    (forall i | 0 <= i < |p.units| :: units[p.units[i]] == p.placed[i]) &&
    units[n..] == p.dead
  }

  /** The array has as much of any quantity as the plan, although in another order. */
  lemma LaidTotal(f: Measure, units: seq<Rect>, n: nat, p: Plan)
    requires Laid(units, n, p)
    ensures Total(f, units) == Total(f, Rects(p))
  {
    var blocks := units[..n];
    var keep := set i | i in p.units;
    TotalInOrder(f, blocks, p.units, p.placed);
    TotalOfAll(f, blocks, keep);
    TotalConcat(f, blocks, p.dead);
    TotalConcat(f, p.placed, p.dead);
    assert units == blocks + p.dead;
  }

  /** So the units of the floorplan fill the box, and none sticks out or is degenerate. */
  lemma LaidFills(units: seq<Rect>, n: nat, z: SizedTree, box: Rect, rule: Rule)
    requires Fits(z, box) && Laid(units, n, Place(z, box, rule))
    ensures Fills(units, box)
    ensures AllInside(units, box, AbsorbsNothing(rule))
  {
    var p := Place(z, box, rule);
    forall f | Additive(f)
      ensures Total(f, units) == f(box)
    {
      LaidTotal(f, units, n, p);
      PlanFillsBox(f, z, box, rule);
    }
    PlanInside(z, box, rule);
    LaidOf(units, n, p);
  }

  /** Every rectangle in the array is one of the plan. */
  lemma LaidOf(units: seq<Rect>, n: nat, p: Plan)
    requires Laid(units, n, p)
    ensures forall r | r in units :: r in Rects(p)
  {
    forall r | r in units
      ensures r in Rects(p)
    {
      var i :| 0 <= i < |units| && units[i] == r;
      if i < n {
        assert i in p.units;
        var k :| 0 <= k < |p.units| && p.units[k] == i;
        assert Rects(p)[k] == r;
      } else {
        assert units[n..][i - n] == r;
        assert Rects(p)[|p.placed| + i - n] == r;
      }
    }
  }
}
