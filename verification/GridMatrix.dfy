/** The steady-state grid model as a sparse matrix (build_steady_grid_matrix and
    build_steady_rhs_vector) and as a slope (slope_fn_grid and slope_fn_pack, both
    HotSpot/temperature_grid.c), and why these and the sweep of GridSweep.dfy are the same physics. */
module GridMatrix {
  import opened GridNetwork
  import opened GaussSeidel
  import opened GridSweep
  import opened Coordinates

  // ----- coordinates and values -----

  /** Row r of the matrix times a vector. */
  function Dot(entries: seq<Coo>, r: int, t: int -> real): real {
    if entries == [] then 0.0
    else Dot(entries[..|entries| - 1], r, t) +
         (var e := entries[|entries| - 1]; if e.x == r then e.v * t(e.y) else 0.0)
  }

  lemma {:induction false} DotConcat(a: seq<Coo>, b: seq<Coo>, r: int, t: int -> real)
    ensures Dot(a + b, r, t) == Dot(a, r, t) + Dot(b, r, t)
  {
    if b == [] {
      assert a + b == a;
    } else {
      var k := |b| - 1;
      assert (a + b)[..|a + b| - 1] == a + b[..k];
      DotConcat(a, b[..k], r, t);
    }
  }

  /** The entries off the diagonal that a node has for its links. */
  function OffDiagonal(m: Model, x: Node, links: seq<Link>): (s: seq<Coo>)
    ensures |s| == |links|
    ensures forall k | 0 <= k < |links| :: s[k] == Coo(Index(m, x), Index(m, links[k].to), -Inverse(links[k].r))
  {
    seq(|links|, k requires 0 <= k < |links| => Coo(Index(m, x), Index(m, links[k].to), -Inverse(links[k].r)))
  }

  /** All the entries of a node: its links, and the sum of its conductances on the diagonal. */
  function Block(m: Model, x: Node, links: seq<Link>, amb: real): seq<Coo> {
    OffDiagonal(m, x, links) + [Coo(Index(m, x), Index(m, x), amb + LinkSum(links, Conductance))]
  }

  /** The vector by index. */
  function ByIndex(v: seq<real>): int -> real {
    k => if 0 <= k < |v| then v[k] else 0.0
  }

  lemma {:induction false} OffDiagonalDot(m: Model, x: Node, links: seq<Link>, v: seq<real>, r: int)
    requires |v| == Size(m) && forall k | k in links :: IsNode(m, k.to)
    ensures Dot(OffDiagonal(m, x, links), r, ByIndex(v)) ==
            if r == Index(m, x) then -LinkSum(links, Flow(TempOf(m, v))) else 0.0
  {
    hide Size, Index, Inverse, Scaled;
    if links != [] {
      var n := |links| - 1;
      OffDiagonalDot(m, x, links[..n], v, r);
      assert OffDiagonal(m, x, links)[..n] == OffDiagonal(m, x, links[..n]);
      LinkTerm(m, links[n], v);
    }
  }

  lemma LinkTerm(m: Model, k: Link, v: seq<real>)
    requires |v| == Size(m) && IsNode(m, k.to)
    ensures -Inverse(k.r) * ByIndex(v)(Index(m, k.to)) == -Flow(TempOf(m, v))(k)
  {
    TempAt(m, v, k.to);
    hide Inverse, Size, Index;
    Negated(Inverse(k.r), v[Index(m, k.to)]);
  }

  lemma Negated(a: real, b: real)
    ensures -a * b == -(b * a)
  {
  }

  lemma DiagonalIs(m: Model, x: Node, v: seq<real>)
    requires |v| == Size(m) && IsNode(m, x)
    ensures ByIndex(v)(Index(m, x)) == TempOf(m, v)(x)
  {
    TempAt(m, v, x);
  }

  /** The row of a node, times the temperatures: what leaves the node, without ambient. */
  lemma BlockDot(m: Model, x: Node, links: seq<Link>, amb: real, csum: real, v: seq<real>, r: int)
    requires |v| == Size(m) && IsNode(m, x) && forall k | k in links :: IsNode(m, k.to)
    requires csum == amb + LinkSum(links, Conductance)
    ensures Dot(Block(m, x, links, amb), r, ByIndex(v)) ==
            if r == Index(m, x) then csum * TempOf(m, v)(x) - LinkSum(links, Flow(TempOf(m, v))) else 0.0
  {
    var d := Coo(Index(m, x), Index(m, x), csum);
    hide Size, Index, OffDiagonal, LinkSum, Flow, TempOf, ByIndex;
    OffDiagonalDot(m, x, links, v, r);
    DiagonalIs(m, x, v);
    DotConcat(OffDiagonal(m, x, links), [d], r, ByIndex(v));
    assert [d][..0] == [];
  }

  // ----- the order in which the entries of a cell are made -----

  /** build_steady_grid_matrix tells corners, edges and the inside apart by the number of the cell
      within its layer. */
  function BuildLinks(m: Model, l: nat, i: int, j: int): seq<Link>
    requires l < |m.layers| && m.nc > 0
  {
    var g := i * m.nc + j;
    var n, s, e, w := North(m, l, i, j), South(m, l, i, j), East(m, l, i, j), West(m, l, i, j);
    var a, b := Above(m, l, i, j), Below(m, l, i, j);
    var ns, ss := SideList(m, l, OnNorth, i, j), SideList(m, l, OnSouth, i, j);
    var es, ws := SideList(m, l, OnEast, i, j), SideList(m, l, OnWest, i, j);
    if g == 0 then e + s + b + a + ns + ws
    else if g == m.nc - 1 then w + s + b + a + ns + es
    else if g == m.nr * m.nc - m.nc then e + n + b + a + ss + ws
    else if g == m.nr * m.nc - 1 then w + n + b + a + ss + es
    else if g > 0 && g < m.nc - 1 then w + e + s + b + a + ns
    else if g > m.nr * m.nc - m.nc && g < m.nr * m.nc - 1 then w + e + n + b + a + ss
    else if g % m.nc == 0 then n + s + e + b + a + ws
    else if (g + 1) % m.nc == 0 then n + s + w + b + a + es
    else n + s + w + e + b + a
  }

  /** Where a cell is, as its number in the layer tells. */
  lemma NumberTells(nr: nat, nc: nat, i: int, j: int)
    requires nr >= 2 && nc >= 2 && 0 <= i < nr && 0 <= j < nc
    ensures var g := i * nc + j;
            (g == 0 <==> i == 0 && j == 0) && (g == nc - 1 <==> i == 0 && j == nc - 1) &&
            (g == nr * nc - nc <==> i == nr - 1 && j == 0) && (g == nr * nc - 1 <==> i == nr - 1 && j == nc - 1) &&
            (g > 0 && g < nc - 1 <==> i == 0 && 0 < j < nc - 1) &&
            (g > nr * nc - nc && g < nr * nc - 1 <==> i == nr - 1 && 0 < j < nc - 1) &&
            (g % nc == 0 <==> j == 0) && ((g + 1) % nc == 0 <==> j == nc - 1)
  {
    var g := i * nc + j;
    assert (nr - 1) * nc == nr * nc - nc;
    FirstRow(nc, i, j);
    LastRow(nr, nc, i, j);
    Remainder(nc, i, j);
    if j < nc - 1 {
      Remainder(nc, i, j + 1);
    } else {
      assert g + 1 == (i + 1) * nc + 0;
      Remainder(nc, i + 1, 0);
    }
  }

  lemma FirstRow(nc: nat, i: int, j: int)
    requires 0 <= i && 0 <= j < nc
    ensures i * nc + j < nc <==> i == 0
  {
    assert i >= 1 ==> i * nc >= nc;
  }

  lemma LastRow(nr: nat, nc: nat, i: int, j: int)
    requires 0 <= i < nr && 0 <= j < nc
    ensures i * nc + j >= (nr - 1) * nc <==> i == nr - 1
    ensures i == nr - 1 ==> i * nc == (nr - 1) * nc
  {
    if i < nr - 1 {
      DigitBound(i, j, nr - 1, nc);
    }
  }

  lemma Remainder(nc: nat, i: int, j: int)
    requires 0 <= j < nc && i >= 0
    ensures (i * nc + j) % nc == j
  {
    var g := i * nc + j;
    assert g == (g / nc) * nc + g % nc;
    Digits(i, j, g / nc, g % nc, nc);
  }

  lemma SixParts(a: seq<Link>, b: seq<Link>, c: seq<Link>, d: seq<Link>, e: seq<Link>, f: seq<Link>, w: Weight)
    ensures LinkSum(a + b + c + d + e + f, w) ==
            LinkSum(a, w) + LinkSum(b, w) + LinkSum(c, w) + LinkSum(d, w) + LinkSum(e, w) + LinkSum(f, w)
  {
    LinkSumConcat(a + b + c + d + e, f, w);
    LinkSumConcat(a + b + c + d, e, w);
    LinkSumConcat(a + b + c, d, w);
    LinkSumConcat(a + b, c, w);
    LinkSumConcat(a, b, w);
  }

  /** In each of the nine cases just the links are made that the cell has. */
  lemma BuildLinksComplete(m: Model, l: nat, i: int, j: int, f: Weight)
    requires Broad(m) && IsNode(m, Cell(l, i, j))
    ensures LinkSum(BuildLinks(m, l, i, j), f) == LinkSum(CellLinks(m, l, i, j), f)
  {
    NumberTells(m.nr, m.nc, i, j);
    CellSum(m, l, i, j, f);
    hide CellLinks, LinkSum, EdgeOf;
    var n, s, e, w := North(m, l, i, j), South(m, l, i, j), East(m, l, i, j), West(m, l, i, j);
    var a, b := Above(m, l, i, j), Below(m, l, i, j);
    var ns, ss := SideList(m, l, OnNorth, i, j), SideList(m, l, OnSouth, i, j);
    var es, ws := SideList(m, l, OnEast, i, j), SideList(m, l, OnWest, i, j);
    NoLinks(f);
    if i == 0 && j == 0 {
      SixParts(e, s, b, a, ns, ws, f);
    } else if i == 0 && j == m.nc - 1 {
      SixParts(w, s, b, a, ns, es, f);
    } else if i == m.nr - 1 && j == 0 {
      SixParts(e, n, b, a, ss, ws, f);
    } else if i == m.nr - 1 && j == m.nc - 1 {
      SixParts(w, n, b, a, ss, es, f);
    } else if i == 0 {
      SixParts(w, e, s, b, a, ns, f);
    } else if i == m.nr - 1 {
      SixParts(w, e, n, b, a, ss, f);
    } else if j == 0 {
      SixParts(n, s, e, b, a, ws, f);
    } else if j == m.nc - 1 {
      SixParts(n, s, w, b, a, es, f);
    } else {
      SixParts(n, s, w, e, b, a, f);
    }
  }

  lemma NoLinks(f: Weight)
    ensures LinkSum([], f) == 0.0
  {
  }

  // ----- the whole matrix -----

  /** The links of a node in the order in which its entries are made. */
  function LinksMade(m: Model, x: Node): seq<Link>
    requires Tall(m) && m.nc > 0 && IsNode(m, x)
  {
    match x
    case Cell(l, i, j) => BuildLinks(m, l, i, j)
    case Extra(e) => RingLinks(m, RingOf(e), SideOf(e))
  }

  function NodeBlock(m: Model, x: Node): seq<Coo>
    requires Tall(m) && m.nc > 0 && IsNode(m, x)
  {
    Block(m, x, LinksMade(m, x), Amb(m, x))
  }

  function MatrixOf(m: Model, order: seq<Node>): seq<Coo>
    requires Tall(m) && m.nc > 0 && forall k | 0 <= k < |order| :: IsNode(m, order[k])
  {
    if order == [] then [] else MatrixOf(m, order[..|order| - 1]) + NodeBlock(m, order[|order| - 1])
  }

  /** What the row of a node, times the temperatures, has to come to. */
  ghost predicate RowIs(m: Model, x: Node, v: seq<real>, sum: real)
    requires Tall(m) && IsNode(m, x)
  {
    sum == CSum(m, x) * TempOf(m, v)(x) - LinkSum(Links(m, x), Flow(TempOf(m, v)))
  }

  lemma LinksMadeGood(m: Model, x: Node)
    requires Proper(m) && IsNode(m, x)
    ensures forall k | k in LinksMade(m, x) :: IsNode(m, k.to)
  {
    LinksGood(m, x);
    if x.Cell? {
      BuildLinksAre(m, x.l, x.i, x.j);
    }
  }

  lemma BuildLinksAre(m: Model, l: nat, i: int, j: int)
    requires Proper(m) && IsNode(m, Cell(l, i, j))
    ensures forall k | k in BuildLinks(m, l, i, j) :: k in CellLinks(m, l, i, j)
  {
    hide North, South, East, West, Above, Below, SideList;
    forall k | k in BuildLinks(m, l, i, j)
      ensures k in CellLinks(m, l, i, j)
    {
      InCellLinks(m, l, i, j, k);
    }
  }

  lemma NodeBlockDot(m: Model, x: Node, v: seq<real>, r: int)
    requires Broad(m) && |v| == Size(m) && IsNode(m, x)
    ensures r == Index(m, x) ==> RowIs(m, x, v, Dot(NodeBlock(m, x), r, ByIndex(v)))
    ensures r != Index(m, x) ==> Dot(NodeBlock(m, x), r, ByIndex(v)) == 0.0
  {
    hide Size, Index, TempOf, Amb, LinksMade, Links, LinkSum, Block, Dot, CSum, Flow;
    LinksMadeGood(m, x);
    SameSums(m, x, Flow(TempOf(m, v)));
    MadeTotal(m, x);
    BlockDot(m, x, LinksMade(m, x), Amb(m, x), CSum(m, x), v, r);
  }

  lemma MadeTotal(m: Model, x: Node)
    requires Broad(m) && IsNode(m, x)
    ensures CSum(m, x) == Amb(m, x) + LinkSum(LinksMade(m, x), Conductance)
  {
    hide Amb, LinksMade, Links, LinkSum;
    SameSums(m, x, Conductance);
  }

  lemma SameSums(m: Model, x: Node, f: Weight)
    requires Broad(m) && IsNode(m, x)
    ensures LinkSum(LinksMade(m, x), f) == LinkSum(Links(m, x), f)
  {
    if x.Cell? {
      BuildLinksComplete(m, x.l, x.i, x.j, f);
    }
  }

  /** The row of a node is what its block says; a node without a block has an empty row. */
  lemma {:induction false} MatrixDot(m: Model, order: seq<Node>, x: Node, v: seq<real>)
    requires Broad(m) && |v| == Size(m) && IsNode(m, x) && Nodes(m, order)
    ensures x in order ==> RowIs(m, x, v, Dot(MatrixOf(m, order), Index(m, x), ByIndex(v)))
    ensures x !in order ==> Dot(MatrixOf(m, order), Index(m, x), ByIndex(v)) == 0.0
  {
    hide Size, Index, TempOf, NodeBlock, RowIs;
    if order != [] {
      var n := |order| - 1;
      MatrixDot(m, order[..n], x, v);
      DotConcat(MatrixOf(m, order[..n]), NodeBlock(m, order[n]), Index(m, x), ByIndex(v));
      NodeBlockDot(m, order[n], v, Index(m, x));
      if order[n] == x {
        assert x !in order[..n];
      } else {
        if Index(m, order[n]) == Index(m, x) {
          IndexInjective(m, order[n], x);
        }
        assert x in order <==> x in order[..n];
      }
    }
  }

  /** The right-hand side at a node: its power, and what comes from ambient. */
  function RhsAt(m: Model, p: Temps, x: Node): real
    requires Tall(m) && IsNode(m, x)
  {
    p(x) + AmbFlow(m, x)
  }

  /** The steady state of the direct solver is that of the iteration: the matrix, times the
      temperatures, is the right-hand side exactly if every node is in balance. */
  lemma SolutionIffBalanced(m: Model, p: Temps, v: seq<real>, order: seq<Node>)
    requires Broad(m) && |v| == Size(m)
    requires Nodes(m, order) && forall x | IsNode(m, x) :: x in order
    ensures (forall x | IsNode(m, x) :: Dot(MatrixOf(m, order), Index(m, x), ByIndex(v)) == RhsAt(m, p, x)) <==>
            (forall x | IsNode(m, x) :: Balanced(m, p, TempOf(m, v), x))
  {
    hide MatrixOf, Dot, Balanced, Index, Size, TempOf, RhsAt;
    forall x | IsNode(m, x)
      ensures Dot(MatrixOf(m, order), Index(m, x), ByIndex(v)) == RhsAt(m, p, x) <==> Balanced(m, p, TempOf(m, v), x)
    {
      RowIffBalanced(m, p, v, order, x);
    }
  }

  lemma RowIffBalanced(m: Model, p: Temps, v: seq<real>, order: seq<Node>, x: Node)
    requires Broad(m) && |v| == Size(m) && Nodes(m, order) && IsNode(m, x) && x in order
    ensures Dot(MatrixOf(m, order), Index(m, x), ByIndex(v)) == RhsAt(m, p, x) <==> Balanced(m, p, TempOf(m, v), x)
  {
    hide MatrixOf, Dot, Index, Size, TempOf, Links, Amb, AmbFlow, CSum, LinkSum, RhsAt, Balanced, PrimaryPositive,
         SecondaryPositive;
    MatrixDot(m, order, x, v);
    RhsLeft(m, p, TempOf(m, v), x);
  }

  lemma RhsLeft(m: Model, p: Temps, t: Temps, x: Node)
    requires Tall(m) && IsNode(m, x)
    ensures CSum(m, x) * t(x) - LinkSum(Links(m, x), Flow(t)) == RhsAt(m, p, x) <==> Balanced(m, p, t, x)
  {
    hide Links, Amb, AmbFlow, CSum, LinkSum;
  }

  // ----- the order of the nodes -----

  /** All the cells in the order of the vector; the other nodes follow in the order of the sweep. */
  ghost predicate AllCells(m: Model, cells: seq<Node>) {
    CellsInOrder(m, cells) && |cells| == |m.layers| * m.nr * m.nc
  }

  ghost predicate NodesMade(m: Model, order: seq<Node>, entries: seq<Coo>)
    requires Tall(m) && m.nc > 0
  {
    Nodes(m, order) && entries == MatrixOf(m, order)
  }

  /** The entries are those of all the nodes, each once, in that order. */
  ghost predicate SteadyMatrix(m: Model, entries: seq<Coo>)
    requires Tall(m) && m.nc > 0
  {
    exists cells :: AllCells(m, cells) && NodesMade(m, cells + Extras(ExtraCount(m)), entries)
  }

  lemma AllNodes(m: Model, cells: seq<Node>)
    requires AllCells(m, cells)
    ensures Nodes(m, cells + Extras(ExtraCount(m))) && forall x | IsNode(m, x) :: x in cells + Extras(ExtraCount(m))
  {
    AllVisited(m, cells);
    OneMoreExtra(m, cells, ExtraCount(m) - 1);
  }

  /** For the matrix and the right-hand side as they are built: the direct solver's solutions are the
      steady states of the iteration. */
  lemma SteadySolutions(m: Model, p: seq<real>, entries: seq<Coo>, rhs: seq<real>, v: seq<real>)
    requires Broad(m) && SteadyMatrix(m, entries) && |v| == |rhs| == Size(m)
    requires forall x | IsNode(m, x) :: TempOf(m, rhs)(x) == RhsAt(m, PowerOf(m, p), x)
    ensures (forall r | 0 <= r < Size(m) :: Dot(entries, r, ByIndex(v)) == rhs[r]) <==>
            (forall x | IsNode(m, x) :: Balanced(m, PowerOf(m, p), TempOf(m, v), x))
  {
    hide MatrixOf, Dot, Balanced, Index, TempOf, RhsAt, PowerOf, CellsInOrder, PrimaryPositive, SecondaryPositive;
    var cells :| AllCells(m, cells) && NodesMade(m, cells + Extras(ExtraCount(m)), entries);
    var order := cells + Extras(ExtraCount(m));
    AllNodes(m, cells);
    SolutionIffBalanced(m, PowerOf(m, p), v, order);
    forall x | IsNode(m, x)
      ensures 0 <= Index(m, x) < Size(m) && rhs[Index(m, x)] == RhsAt(m, PowerOf(m, p), x)
    {
      TempAt(m, rhs, x);
    }
    if forall x | IsNode(m, x) :: Dot(entries, Index(m, x), ByIndex(v)) == RhsAt(m, PowerOf(m, p), x) {
      forall r | 0 <= r < Size(m)
        ensures Dot(entries, r, ByIndex(v)) == rhs[r]
      {
        var x := NodeAt(m, cells, r);
      }
    }
  }

  /** Every place in the vector belongs to a node. */
  lemma NodeAt(m: Model, cells: seq<Node>, r: int) returns (x: Node)
    requires AllCells(m, cells) && 0 <= r < Size(m)
    ensures IsNode(m, x) && Index(m, x) == r
  {
    x := if r < |cells| then cells[r] else Extra(r - |cells|);
  }

  // ----- the slope -----

  /** What flows in over a link, for a node at the given temperature. */
  function Drop(t: Temps, here: real): Weight {
    (k: Link) => Scaled(t(k.to) - here, k.r)
  }

  /** slope_fn_grid and slope_fn_pack at a node: power and all that flows in, over the capacitance. */
  function SlopeAt(m: Model, p: Temps, t: Temps, x: Node, capacitance: real): real
    requires Proper(m) && IsNode(m, x) && capacitance > 0.0
  {
    (p(x) + (m.ambient - t(x)) * Amb(m, x) + LinkSum(Links(m, x), Drop(t, t(x)))) / capacitance
  }

  lemma {:induction false} DropSum(links: seq<Link>, t: Temps, here: real)
    ensures LinkSum(links, Drop(t, here)) == LinkSum(links, Flow(t)) - here * LinkSum(links, Conductance)
  {
    hide Inverse;
    if links != [] {
      var k := links[|links| - 1];
      DropSum(links[..|links| - 1], t, here);
      DropOf(t(k.to), here, Inverse(k.r), LinkSum(links[..|links| - 1], Conductance));
    }
  }

  lemma DropOf(a: real, here: real, g: real, rest: real)
    ensures (a - here) * g == a * g - here * g && here * (rest + g) == here * rest + here * g
  {
  }

  /** The transient model is at rest at a node exactly if the node is in balance. */
  lemma RestIffBalanced(m: Model, p: Temps, t: Temps, x: Node, capacitance: real)
    requires Proper(m) && IsNode(m, x) && capacitance > 0.0
    ensures SlopeAt(m, p, t, x, capacitance) == 0.0 <==> Balanced(m, p, t, x)
  {
    hide Links, Amb, Drop, Flow, LinkSum;
    DropSum(Links(m, x), t, t(x));
    var inflow := (m.ambient - t(x)) * Amb(m, x) + LinkSum(Links(m, x), Drop(t, t(x)));
    InflowIs(m.ambient, t(x), Amb(m, x), LinkSum(Links(m, x), Conductance), LinkSum(Links(m, x), Flow(t)));
    assert inflow == WSum(m, t, x) - CSum(m, x) * t(x);
    Quotient(p(x) + inflow, capacitance, 0.0);
  }

  lemma InflowIs(ambient: real, t: real, amb: real, conductances: real, flows: real)
    ensures (ambient - t) * amb + (flows - t * conductances) == (ambient * amb + flows) - (amb + conductances) * t
  {
  }
}
