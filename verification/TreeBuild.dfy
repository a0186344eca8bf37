/** The slicing tree of an expression, built on a bounded node stack (tree_from_NPE,
    HotSpot/shape.c). A node's links never change once it is built; what changes later are the
    coordinates of its curve. */
module TreeBuild {
  import opened PolishExpression
  import opened ShapeCurves
  import opened SlicingTree
  import opened Curves
  import NpeState

  const MAX_STACK: nat := 128

  datatype Node =
    | LeafNode(unit: nat, curve: Curve)
    | CutNode(cut: int, left: Node, right: Node, curve: Curve)

  ghost function CurvesOf(n: Node): set<Curve> {
    match n
    case LeafNode(_, curve) => {curve}
    case CutNode(_, left, right, curve) => {curve} + CurvesOf(left) + CurvesOf(right)
  }

  /** No two nodes of the tree share a curve. */
  ghost predicate Separate(n: Node) {
    match n
    case LeafNode(_, _) => true
    case CutNode(_, left, right, curve) =>
      curve !in CurvesOf(left) && curve !in CurvesOf(right) && CurvesOf(left) !! CurvesOf(right) &&
      Separate(left) && Separate(right)
  }

  /** The node holds the tree: the curve of every subtree, with its back-pointers. */
  ghost predicate Stores(n: Node, t: CurveTree)
    reads CurvesOf(n)
    decreases t
  {
    match t
    case Leaf(unit, shapes) => n.LeafNode? && n.unit == unit && n.curve.shapes == shapes
    case Cut(cut, l, r) =>
      n.CutNode? && n.cut == cut &&
      n.curve.shapes == CurveOf(t) && n.curve.back == Backs(cut, CurveOf(l), CurveOf(r)) &&
      Stores(n.left, l) && Stores(n.right, r)
  }

  lemma StoresCurve(n: Node, t: CurveTree)
    requires Stores(n, t)
    ensures n.curve.shapes == CurveOf(t)
  {
  }

  // ----- the stack -----

  datatype Slot = Free | Taken(node: Node)

  class NodeStack {
    const slots: array<Slot>
    var top: nat
    ghost var nodes: seq<Node>
    ghost var held: set<Curve>  // where the curves of the nodes are

    ghost predicate Valid()
      reads this, slots
    {
      slots.Length == MAX_STACK && |nodes| == top <= MAX_STACK &&
      forall i | 0 <= i < top :: slots[i] == Taken(nodes[i])
    }

    constructor ()
      ensures Valid() && nodes == []
      ensures fresh(this) && fresh(slots)
    {
      slots := new Slot[MAX_STACK](_ => Free);
      top := 0;
      nodes := [];
      held := {};
    }

    method Push(node: Node) returns (ok: bool)
      requires Valid()
      modifies this, slots
      ensures Valid() && held == old(held)
      ensures ok <==> |old(nodes)| < MAX_STACK
      ensures nodes == if ok then old(nodes) + [node] else old(nodes)
    {
      if top >= MAX_STACK {
        return false;
      }
      slots[top] := Taken(node);
      top := top + 1;
      nodes := nodes + [node];
      return true;
    }

    /** Push, when the new node is known to belong with the others. */
    method PushHolding(node: Node, ghost trees: seq<CurveTree>, ghost storage: set<Curve>) returns (ok: bool)
      requires Valid() && Forest(nodes + [node], trees, storage)
      modifies this, slots
      ensures Valid() && held == storage
      ensures ok <==> |old(nodes)| < MAX_STACK
      ensures nodes == if ok then old(nodes) + [node] else old(nodes)
      ensures Forest(old(nodes) + [node], trees, storage)
    {
      ok := Push(node);
      held := storage;
    }

    /** Free stands for the abort on an empty stack. */
    method Pop() returns (r: Slot)
      requires Valid()
      modifies this
      ensures Valid() && held == old(held)
      ensures old(nodes) == [] ==> r == Free && nodes == []
      ensures old(nodes) != [] ==> r.Taken? && old(nodes) == nodes + [r.node]
    {
      if top == 0 {
        return Free;
      }
      top := top - 1;
      nodes := nodes[..top];
      return slots[top];
    }

    method Clear()
      requires Valid()
      modifies this
      ensures Valid() && nodes == []
    {
      top := 0;
      nodes := [];
    }
  }

  // ----- what the stack holds -----

  /** Separate nodes, within the given storage, that hold the given trees. */
  ghost predicate Forest(nodes: seq<Node>, trees: seq<CurveTree>, held: set<Curve>)
    reads held
  {
    |nodes| == |trees| &&
    (forall i | 0 <= i < |nodes| :: CurvesOf(nodes[i]) <= held && Separate(nodes[i]) && Stores(nodes[i], trees[i])) &&
    (forall i, j | 0 <= i < j < |nodes| :: CurvesOf(nodes[i]) !! CurvesOf(nodes[j]))
  }

  lemma ForestExtend(nodes: seq<Node>, trees: seq<CurveTree>, held: set<Curve>, n: Node, t: CurveTree)
    requires Forest(nodes, trees, held) && Separate(n) && Stores(n, t)
    requires forall i | 0 <= i < |nodes| :: CurvesOf(nodes[i]) !! CurvesOf(n)
    ensures Forest(nodes + [n], trees + [t], held + CurvesOf(n))
  {
    var more, moreTrees := nodes + [n], trees + [t];
    forall i | 0 <= i < |more|
      ensures CurvesOf(more[i]) <= held + CurvesOf(n) && Separate(more[i]) && Stores(more[i], moreTrees[i])
    {
      if i < |nodes| {
        assert more[i] == nodes[i] && moreTrees[i] == trees[i];
      }
    }
  }

  lemma TopTwo(nodes: seq<Node>, trees: seq<CurveTree>, held: set<Curve>, below: seq<CurveTree>, l: CurveTree,
               r: CurveTree)
    requires Forest(nodes, trees, held) && trees == below + [l] + [r]
    ensures var m := |below|;
            |nodes| == m + 2 && Forest(nodes[..m], below, held) &&
            Separate(nodes[m]) && Stores(nodes[m], l) && Separate(nodes[m + 1]) && Stores(nodes[m + 1], r) &&
            CurvesOf(nodes[m]) <= held && CurvesOf(nodes[m + 1]) <= held &&
            CurvesOf(nodes[m]) !! CurvesOf(nodes[m + 1]) &&
            forall i | 0 <= i < m :: CurvesOf(nodes[i]) !! CurvesOf(nodes[m]) + CurvesOf(nodes[m + 1])
  {
    var m := |below|;
    forall i | 0 <= i < m
      ensures CurvesOf(nodes[..m][i]) <= held && Separate(nodes[..m][i]) && Stores(nodes[..m][i], below[i])
    {
      assert nodes[..m][i] == nodes[i] && below[i] == trees[i];
    }
    assert trees[m] == l && trees[m + 1] == r;
  }

  /** The stack is apart from the curves on it. */
  ghost predicate Holding(stack: NodeStack, trees: seq<CurveTree>)
    reads stack, stack.held
  {
    Forest(stack.nodes, trees, stack.held)
  }

  /** A new tree goes on top of the others. */
  method PushTree(stack: NodeStack, node: Node, ghost trees: seq<CurveTree>, ghost t: CurveTree) returns (ok: bool)
    requires stack.Valid() && Holding(stack, trees)
    requires Separate(node) && Stores(node, t)
    requires forall i | 0 <= i < |trees| :: CurvesOf(stack.nodes[i]) !! CurvesOf(node)
    modifies stack, stack.slots
    ensures stack.Valid() && stack.held == old(stack.held) + CurvesOf(node)
    ensures ok <==> |trees| < MAX_STACK
    ensures ok ==> Holding(stack, trees + [t]) && node == stack.nodes[|trees|]
  {
    ghost var held := stack.held + CurvesOf(node);
    ForestExtend(stack.nodes, trees, stack.held, node, t);
    ok := stack.PushHolding(node, trees + [t], held);
  }

  /** A leaf of tree_from_NPE: a copy of the unit's curve is pushed. */
  method PushLeaf(stack: NodeStack, unit: nat, curve: Curve, ghost shape: ShapeSeq, ghost trees: seq<CurveTree>)
    returns (ok: bool, node: Node)
    requires stack.Valid() && Holding(stack, trees)
    requires curve.back == [] && curve.shapes == shape
    modifies stack, stack.slots
    ensures stack.Valid()
    ensures ok <==> |trees| < MAX_STACK
    ensures ok ==> Holding(stack, trees + [Leaf(unit, shape)]) && node == stack.nodes[|trees|]
    ensures forall o | o in stack.held :: o in old(stack.held) || fresh(o)
  {
    var copy := DuplicateLeaf(curve);
    node := LeafNode(unit, copy);
    ok := PushTree(stack, node, trees, Leaf(unit, shape));
  }

  /** Two trees that came off the stack, apart from each other and from the rest. */
  ghost predicate Popped(stack: NodeStack, trees: seq<CurveTree>, left: Node, right: Node, l: CurveTree, r: CurveTree)
    reads stack, stack.held
  {
    Holding(stack, trees) &&
    CurvesOf(left) <= stack.held && CurvesOf(right) <= stack.held && CurvesOf(left) !! CurvesOf(right) &&
    Separate(left) && Stores(left, l) && Separate(right) && Stores(right, r) &&
    forall i | 0 <= i < |trees| :: CurvesOf(stack.nodes[i]) !! CurvesOf(left) + CurvesOf(right)
  }

  method PopTwo(stack: NodeStack, ghost trees: seq<CurveTree>, ghost l: CurveTree, ghost r: CurveTree)
    returns (left: Node, right: Node)
    requires stack.Valid() && Holding(stack, trees + [l] + [r])
    modifies stack
    ensures stack.Valid() && Popped(stack, trees, left, right, l, r) && |trees| < MAX_STACK
    ensures stack.held == old(stack.held)
  {
    hide Separate, Stores, CurvesOf;
    ghost var nodes, m := stack.nodes, |trees|;
    TopTwo(nodes, trees + [l] + [r], stack.held, trees, l, r);
    var upper := stack.Pop();
    var lower := stack.Pop();
    assert stack.nodes == nodes[..m] && lower.node == nodes[m] && upper.node == nodes[m + 1];
    left, right := lower.node, upper.node;
  }

  method SumNode(stack: NodeStack, cut: int, left: Node, right: Node, ghost trees: seq<CurveTree>, ghost l: CurveTree,
                 ghost r: CurveTree)
    returns (node: Node)
    requires Popped(stack, trees, left, right, l, r)
    ensures Separate(node) && Stores(node, Cut(cut, l, r)) && Holding(stack, trees)
    ensures forall o | o in CurvesOf(node) :: o in stack.held || fresh(o)
    ensures forall i | 0 <= i < |trees| :: CurvesOf(stack.nodes[i]) !! CurvesOf(node)
  {
    StoresCurve(left, l);
    StoresCurve(right, r);
    var curve := ShapeAdd(left.curve, right.curve, cut);
    node := CutNode(cut, left, right, curve);
  }

  /** A cut of tree_from_NPE: the two trees on top are popped, the upper one being the right
      child, and their sum is pushed. */
  method PushCut(stack: NodeStack, cut: int, ghost trees: seq<CurveTree>, ghost l: CurveTree, ghost r: CurveTree)
    returns (node: Node)
    requires stack.Valid() && Holding(stack, trees + [l] + [r])
    modifies stack, stack.slots
    ensures stack.Valid() && Holding(stack, trees + [Cut(cut, l, r)]) && node == stack.nodes[|trees|]
    ensures forall o | o in stack.held :: o in old(stack.held) || fresh(o)
  {
    var left, right := PopTwo(stack, trees, l, r);
    node := SumNode(stack, cut, left, right, trees, l, r);
    var ok := PushTree(stack, node, trees, Cut(cut, l, r));
  }

  /** What tree_from_NPE comes to; the last two are aborts of the source. */
  datatype TreeOutcome = Built(root: Node) | StackNotEmpty | StackOverflow

  /** How many trees are on the stack after k elements. */
  function Depth(s: Expr, k: nat): int
    requires k <= |s|
  {
    k - 2 * Cuts(s, k)
  }

  /** No prefix of the first k elements leaves more trees than the stack has room for. */
  ghost predicate StackFits(s: Expr, k: nat)
    requires k <= |s|
  {
    forall d | 0 <= d <= k :: Depth(s, d) <= MAX_STACK
  }

  lemma StackFitsNext(s: Expr, k: nat)
    requires k < |s| && StackFits(s, k)
    ensures StackFits(s, k + 1) <==> Depth(s, k + 1) <= MAX_STACK
  {
  }

  lemma StackAfterUnit(s: Expr, shapes: seq<ShapeSeq>, i: nat, trees: seq<CurveTree>)
    requires Balloting(s) && Covered(s, shapes) && i < |s| && !IsCut(s[i]) && trees == Stack(s, shapes, i)
    ensures Stack(s, shapes, i + 1) == trees + [Leaf(s[i], shapes[s[i]])]
    ensures Depth(s, i + 1) == |trees| + 1
  {
  }

  lemma StackAfterCut(s: Expr, shapes: seq<ShapeSeq>, i: nat, trees: seq<CurveTree>)
    returns (below: seq<CurveTree>, l: CurveTree, r: CurveTree)
    requires Balloting(s) && Covered(s, shapes) && i < |s| && IsCut(s[i]) && trees == Stack(s, shapes, i)
    ensures trees == below + [l] + [r]
    ensures Stack(s, shapes, i + 1) == below + [Cut(s[i], l, r)]
    ensures Depth(s, i + 1) == |trees| - 1
  {
    assert 2 * Cuts(s, i + 1) < i + 1;
    var m := |trees| - 2;
    below, l, r := trees[..m], trees[m], trees[m + 1];
    assert trees == trees[..m] + [trees[m]] + [trees[m + 1]];
  }

  /** One element of the expression. */
  method ConsumeElement(stack: NodeStack, e: int, curves: seq<Curve>, ghost shapes: seq<ShapeSeq>, ghost s: Expr,
                        ghost i: nat, ghost trees: seq<CurveTree>) returns (ok: bool, node: Node)
    requires stack.Valid() && Holding(stack, trees)
    requires Balloting(s) && Covered(s, shapes) && i < |s| && s[i] == e && trees == Stack(s, shapes, i)
    requires |curves| == |shapes|
    requires forall u | 0 <= u < |curves| :: curves[u].back == [] && curves[u].shapes == shapes[u]
    modifies stack, stack.slots
    ensures stack.Valid()
    ensures forall o | o in stack.held :: o in old(stack.held) || fresh(o)
    ensures ok <==> Depth(s, i + 1) <= MAX_STACK
    ensures ok ==> var now := Stack(s, shapes, i + 1);
                   Holding(stack, now) && |now| >= 1 && node == stack.nodes[|now| - 1]
  {
    if e >= 0 {
      StackAfterUnit(s, shapes, i, trees);
      ok, node := PushLeaf(stack, e, curves[e], shapes[e], trees);
    } else {
      ghost var below, l, r := StackAfterCut(s, shapes, i, trees);
      node := PushCut(stack, e, below, l, r);
      ok := true;
    }
  }

  /** The loop of tree_from_NPE. */
  method ConsumeAll(curves: seq<Curve>, ghost shapes: seq<ShapeSeq>, stack: NodeStack, elements: array<int>,
                    ghost s: Expr)
    returns (ok: bool, node: Slot)
    requires Balloting(s) && Covered(s, shapes) && |s| >= 1 && elements[..] == s
    requires stack.Valid() && Holding(stack, []) && stack.held == {}
    requires |curves| == |shapes|
    requires forall u | 0 <= u < |curves| :: curves[u].back == [] && curves[u].shapes == shapes[u]
    modifies stack, stack.slots
    ensures stack.Valid() && forall o | o in stack.held :: fresh(o)
    ensures ok <==> StackFits(s, |s|)
    ensures ok ==> Holding(stack, Stack(s, shapes, |s|)) && |Stack(s, shapes, |s|)| == |stack.nodes| >= 1 &&
                   node == Taken(stack.nodes[|stack.nodes| - 1])
  {
    hide Balloting, Covered, Stack, Forest, StackFits, Depth;
    NothingConsumed(s, shapes);
    ghost var trees: seq<CurveTree> := [];
    node := Free;
    for i := 0 to elements.Length
      invariant stack.Valid() && trees == Stack(s, shapes, i) && Holding(stack, trees)
      invariant (forall o | o in stack.held :: fresh(o)) && elements[..] == s
      invariant forall u | 0 <= u < |curves| :: curves[u].shapes == shapes[u]
      invariant i > 0 ==> |trees| >= 1 && |stack.nodes| == |trees| && node == Taken(stack.nodes[|trees| - 1])
      invariant StackFits(s, i)
    {
      var n;
      ok, n := ConsumeElement(stack, elements[i], curves, shapes, s, i, trees);
      StackFitsNext(s, i);
      if !ok {
        NeverFits(s, i + 1);
        return;
      }
      node := Taken(n);
      trees := Stack(s, shapes, i + 1);
      HoldingSizes(stack, trees);
    }
    ok := true;
  }

  /** tree_from_NPE. On a well-formed expression no pop fails; a push fails exactly when some
      prefix leaves more than MAX_STACK trees; otherwise one tree is left, and it is the tree of
      the expression. */
  method TreeFromNpe(curves: seq<Curve>, ghost shapes: seq<ShapeSeq>, stack: NodeStack, expr: NpeState.Npe)
    returns (outcome: TreeOutcome)
    requires expr.Valid() && stack.Valid()
    requires |curves| == |shapes| == expr.unitPos.Length
    requires forall u | 0 <= u < |curves| :: curves[u].back == [] && curves[u].shapes == shapes[u]
    requires {stack, stack.slots} !! expr.Repr()
    modifies stack, stack.slots
    ensures stack.Valid()
    ensures outcome.StackNotEmpty? <==> old(stack.nodes) != []
    ensures outcome.StackOverflow? ==> !StackFits(expr.elements[..], expr.elements.Length)
    ensures outcome.Built? ==> StackFits(expr.elements[..], expr.elements.Length)
    ensures outcome.Built? ==>
              Stores(outcome.root, Parse(expr.elements[..], shapes)) && Separate(outcome.root) &&
              fresh(CurvesOf(outcome.root)) && stack.nodes == []
  {
    hide Stack, StackFits, Forest, Stores, Separate;
    if stack.top > 0 {
      return StackNotEmpty;
    }
    stack.held := {};
    ghost var s := expr.elements[..];
    NothingHeld(stack);
    var ok, node := ConsumeAll(curves, shapes, stack, expr.elements, s);
    if !ok {
      return StackOverflow;
    }
    AllConsumed(s, shapes, expr.unitPos.Length);
    LastTree(stack, Stack(s, shapes, |s|));
    stack.Clear();
    return Built(node.node);
  }

  lemma NothingConsumed(s: Expr, shapes: seq<ShapeSeq>)
    requires Balloting(s) && Covered(s, shapes)
    ensures Stack(s, shapes, 0) == [] && StackFits(s, 0)
  {
  }

  lemma NothingHeld(stack: NodeStack)
    requires stack.nodes == []
    ensures Holding(stack, [])
  {
  }

  lemma HoldingSizes(stack: NodeStack, trees: seq<CurveTree>)
    requires Holding(stack, trees)
    ensures |stack.nodes| == |trees|
  {
  }

  lemma AllConsumed(s: Expr, shapes: seq<ShapeSeq>, n: nat)
    requires IsNpe(s, n) && |shapes| == n
    ensures |Stack(s, shapes, |s|)| == 1
  {
  }

  lemma NeverFits(s: Expr, k: nat)
    requires k <= |s| && !StackFits(s, k)
    ensures !StackFits(s, |s|)
  {
  }

  lemma LastTree(stack: NodeStack, trees: seq<CurveTree>)
    requires Holding(stack, trees) && |trees| == 1
    ensures |stack.nodes| == 1 && Separate(stack.nodes[0]) && Stores(stack.nodes[0], trees[0])
    ensures CurvesOf(stack.nodes[0]) <= stack.held
  {
  }

  /** With no more units than the stack has room for, it cannot overflow. */
  lemma StackSuffices(s: Expr, n: nat, k: nat)
    requires IsNpe(s, n) && n <= MAX_STACK && k <= |s|
    ensures StackFits(s, k)
  {
    forall d | 0 <= d <= k
      ensures Depth(s, d) <= n
    {
      CutsGrow(s, d, |s|);
    }
  }
}
