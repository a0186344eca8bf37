/** The shape of the steady-state matrix (build_steady_grid_matrix, HotSpot/temperature_grid.c): its
    number of entries, the absence of repeated coordinates, its symmetry and its row sums. */
module GridCounts {
  import opened GridNetwork
  import opened GaussSeidel
  import opened GridSweep
  import opened GridMatrix
  import opened Coordinates
  import S = SparseMatrix

  // ----- no coordinate is repeated -----

  function Hits(y: Node): Weight {
    (k: Link) => if k.to == y then 1.0 else 0.0
  }

  ghost predicate DistinctTargets(links: seq<Link>) {
    forall a, b | 0 <= a < b < |links| :: links[a].to != links[b].to
  }

  lemma {:induction false} HitsCount(links: seq<Link>, y: Node)
    ensures LinkSum(links, Hits(y)) >= 0.0
    ensures (exists a :: 0 <= a < |links| && links[a].to == y) ==> LinkSum(links, Hits(y)) >= 1.0
    ensures (exists a, b :: 0 <= a < b < |links| && links[a].to == y && links[b].to == y) ==>
            LinkSum(links, Hits(y)) >= 2.0
  {
    if links != [] {
      var n := |links| - 1;
      HitsCount(links[..n], y);
      assert forall a | 0 <= a < n :: links[..n][a] == links[a];
    }
  }

  lemma HitOnce(links: seq<Link>)
    requires forall y :: LinkSum(links, Hits(y)) <= 1.0
    ensures DistinctTargets(links)
  {
    forall a, b | 0 <= a < b < |links|
      ensures links[a].to != links[b].to
    {
      HitsCount(links, links[a].to);
    }
  }

  /** A cell hits no node twice, and not itself. */
  lemma CellHits(m: Model, l: nat, i: int, j: int, y: Node)
    requires Proper(m) && IsNode(m, Cell(l, i, j))
    ensures LinkSum(CellLinks(m, l, i, j), Hits(y)) <= 1.0
    ensures y == Cell(l, i, j) ==> LinkSum(CellLinks(m, l, i, j), Hits(y)) == 0.0
  {
    hide LinkSum;
    var f := Hits(y);
    CellSum(m, l, i, j, f);
    OptionalSum(North(m, l, i, j), i > 0, Link(Cell(l, i - 1, j), m.layers[l].ry), f);
    OptionalSum(South(m, l, i, j), i < m.nr - 1, Link(Cell(l, i + 1, j), m.layers[l].ry), f);
    OptionalSum(East(m, l, i, j), j < m.nc - 1, Link(Cell(l, i, j + 1), m.layers[l].rx), f);
    OptionalSum(West(m, l, i, j), j > 0, Link(Cell(l, i, j - 1), m.layers[l].rx), f);
    OptionalSum(Above(m, l, i, j), l > 0, Link(Cell(l - 1, i, j), if l > 0 then m.layers[l - 1].rz else 0.0), f);
    OptionalSum(Below(m, l, i, j), l < |m.layers| - 1, Link(Cell(l + 1, i, j), m.layers[l].rz), f);
    SideHits(m, l, OnNorth, i, j, y);
    SideHits(m, l, OnSouth, i, j, y);
    SideHits(m, l, OnEast, i, j, y);
    SideHits(m, l, OnWest, i, j, y);
  }

  lemma SideHits(m: Model, l: nat, side: Side, i: int, j: int, y: Node)
    requires Proper(m) && l < |m.layers|
    ensures LinkSum(SideList(m, l, side, i, j), Hits(y)) ==
            if AtEdge(m, side, i, j) && Ringed(m, l) && y == Extra(At(RingAt(m, l), side)) then 1.0 else 0.0
  {
    hide EdgeResistance;
    if AtEdge(m, side, i, j) && Ringed(m, l) {
      LinkSumOne(SideList(m, l, side, i, j)[0], Hits(y));
    }
  }

  /** The targets of a node are different nodes, and not the node itself. */
  lemma TargetsDistinct(m: Model, x: Node)
    requires Broad(m) && IsNode(m, x)
    ensures DistinctTargets(LinksMade(m, x)) && forall k | k in LinksMade(m, x) :: k.to != x
  {
    match x
    case Cell(l, i, j) =>
      forall y
        ensures LinkSum(LinksMade(m, x), Hits(y)) <= 1.0
      {
        BuildLinksComplete(m, l, i, j, Hits(y));
        CellHits(m, l, i, j, y);
      }
      HitOnce(LinksMade(m, x));
      BuildLinksComplete(m, l, i, j, Hits(x));
      CellHits(m, l, i, j, x);
      HitsCount(LinksMade(m, x), x);
      forall k | k in LinksMade(m, x)
        ensures k.to != x
      {
        var a :| 0 <= a < |LinksMade(m, x)| && LinksMade(m, x)[a] == k;
      }
    case Extra(e) =>
      AtRingAndSide(e);
      RingTargets(m, RingOf(e), SideOf(e));
  }

  lemma RingTargets(m: Model, ring: Ring, side: Side)
    requires Proper(m) && Present(m, ring)
    ensures DistinctTargets(RingLinks(m, ring, side))
    ensures forall k | k in RingLinks(m, ring, side) :: k.to != Extra(At(ring, side))
  {
    hide RingCells, InnerLink, OuterLink, At;
    RingCellTargets(m, ring, side);
    PackageTargets(m, ring, side);
    var cells, inner := RingCells(m, ring, side), InnerLink(m, ring, side);
    TargetsJoin(cells, inner);
    TargetsJoin(cells + inner, OuterLink(m, ring, side));
  }

  lemma RingCellTargets(m: Model, ring: Ring, side: Side)
    requires Proper(m) && Present(m, ring)
    ensures DistinctTargets(RingCells(m, ring, side)) && forall k | k in RingCells(m, ring, side) :: k.to.Cell?
  {
    hide EdgeResistance;
  }

  lemma PackageTargets(m: Model, ring: Ring, side: Side)
    ensures DistinctTargets(InnerLink(m, ring, side)) && DistinctTargets(OuterLink(m, ring, side))
    ensures forall k | k in InnerLink(m, ring, side) + OuterLink(m, ring, side) ::
              k.to.Extra? && k.to != Extra(At(ring, side))
    ensures forall k, k' | k in InnerLink(m, ring, side) && k' in OuterLink(m, ring, side) :: k.to != k'.to
  {
    hide OuterResistance;
  }

  lemma TargetsJoin(p: seq<Link>, q: seq<Link>)
    requires DistinctTargets(p) && DistinctTargets(q) && forall k, k' | k in p && k' in q :: k.to != k'.to
    ensures DistinctTargets(p + q)
  {
  }

  ghost predicate NoRepeats(entries: seq<Coo>) {
    forall a, b | 0 <= a < b < |entries| :: entries[a].x != entries[b].x || entries[a].y != entries[b].y
  }

  lemma BlockNoRepeats(m: Model, x: Node)
    requires Broad(m) && IsNode(m, x)
    ensures NoRepeats(NodeBlock(m, x)) && forall e | e in NodeBlock(m, x) :: e.x == Index(m, x)
  {
    hide LinksMade, RingLinks, IsNode, Index;
    TargetsDistinct(m, x);
    LinksMadeGood(m, x);
    var links := LinksMade(m, x);
    assert forall a | 0 <= a < |links| :: links[a] in links;
    hide LinksMade, Amb, Index;
    forall a, b | 0 <= a < b < |links|
      ensures Index(m, links[a].to) != Index(m, links[b].to)
    {
      if Index(m, links[a].to) == Index(m, links[b].to) {
        IndexInjective(m, links[a].to, links[b].to);
      }
    }
    forall a | 0 <= a < |links|
      ensures Index(m, links[a].to) != Index(m, x)
    {
      if Index(m, links[a].to) == Index(m, x) {
        IndexInjective(m, links[a].to, x);
      }
    }
  }

  /** No coordinate occurs twice in the matrix. */
  lemma {:induction false} MatrixNoRepeats(m: Model, order: seq<Node>)
    requires Broad(m) && Nodes(m, order)
    ensures NoRepeats(MatrixOf(m, order))
    ensures forall e | e in MatrixOf(m, order) :: exists x :: x in order && e.x == Index(m, x)
  {
    hide Index, NodeBlock;
    if order != [] {
      var n := |order| - 1;
      var before, block := MatrixOf(m, order[..n]), NodeBlock(m, order[n]);
      MatrixNoRepeats(m, order[..n]);
      BlockNoRepeats(m, order[n]);
      forall e | e in before
        ensures e.x != Index(m, order[n])
      {
        var x :| x in order[..n] && e.x == Index(m, x);
        if Index(m, x) == Index(m, order[n]) {
          IndexInjective(m, x, order[n]);
        }
      }
      JoinNoRepeats(before, block, Index(m, order[n]));
      forall e | e in before + block
        ensures exists x :: x in order && e.x == Index(m, x)
      {
        if e in before {
          var x :| x in order[..n] && e.x == Index(m, x);
          assert x in order;
        } else {
          assert order[n] in order;
        }
      }
    }
  }

  lemma JoinNoRepeats(a: seq<Coo>, b: seq<Coo>, r: int)
    requires NoRepeats(a) && NoRepeats(b) && (forall e | e in a :: e.x != r) && (forall e | e in b :: e.x == r)
    ensures NoRepeats(a + b)
  {
    var s := a + b;
    forall i, j | 0 <= i < j < |s|
      ensures s[i].x != s[j].x || s[i].y != s[j].y
    {
      if i < |a| <= j {
        assert s[i] in a && s[j] in b;
      }
    }
  }

  // ----- symmetry and row sums -----

  function Is(k: Link): Weight {
    (h: Link) => if h == k then 1.0 else 0.0
  }

  lemma {:induction false} IsCount(links: seq<Link>, k: Link)
    ensures LinkSum(links, Is(k)) >= 0.0 && (k in links <==> LinkSum(links, Is(k)) > 0.0)
  {
    if links != [] {
      IsCount(links[..|links| - 1], k);
    }
  }

  /** The entries of a node are made for just its links. */
  lemma MadeIffLink(m: Model, x: Node, k: Link)
    requires Broad(m) && IsNode(m, x)
    ensures k in LinksMade(m, x) <==> k in Links(m, x)
  {
    SameSums(m, x, Is(k));
    hide LinksMade, Links;
    IsCount(LinksMade(m, x), k);
    IsCount(Links(m, x), k);
  }

  lemma {:induction false} BlockIn(m: Model, order: seq<Node>, x: Node, e: Coo)
    requires Broad(m) && Nodes(m, order) && x in order && IsNode(m, x) && e in NodeBlock(m, x)
    ensures e in MatrixOf(m, order)
  {
    hide NodeBlock;
    var n := |order| - 1;
    if order[n] != x {
      BlockIn(m, order[..n], x, e);
    }
  }

  lemma {:induction false} EntryOf(m: Model, order: seq<Node>, e: Coo) returns (x: Node)
    requires Broad(m) && Nodes(m, order) && e in MatrixOf(m, order)
    ensures x in order && IsNode(m, x) && e in NodeBlock(m, x)
  {
    hide NodeBlock;
    var n := |order| - 1;
    if e in NodeBlock(m, order[n]) {
      x := order[n];
    } else {
      x := EntryOf(m, order[..n], e);
    }
  }

  /** Off the diagonal no entry is positive, and each is mirrored by an equal one. */
  lemma MatrixSymmetric(m: Model, order: seq<Node>, e: Coo)
    requires Broad(m) && Nodes(m, order) && (forall x | IsNode(m, x) :: x in order)
    requires e in MatrixOf(m, order) && e.x != e.y
    ensures e.v <= 0.0 && Coo(e.y, e.x, e.v) in MatrixOf(m, order)
  {
    hide LinksMade, Links, MatrixOf, Index, Proper, NodeBlock;
    var x := EntryOf(m, order, e);
    var k := LinkOf(m, x, e);
    MadeIffLink(m, x, k);
    LinksGood(m, x);
    LinksSymmetric(m, x, k);
    MadeIffLink(m, k.to, Link(x, k.r));
    OffDiagonalEntry(m, k.to, Link(x, k.r));
    BlockIn(m, order, k.to, Coo(e.y, e.x, e.v));
  }

  lemma LinkOf(m: Model, x: Node, e: Coo) returns (k: Link)
    requires Broad(m) && IsNode(m, x) && e in NodeBlock(m, x) && e.x != e.y
    ensures k in LinksMade(m, x) && e == Coo(Index(m, x), Index(m, k.to), -Inverse(k.r))
  {
    hide LinksMade, Amb, Index, Inverse;
    var links := LinksMade(m, x);
    assert e in OffDiagonal(m, x, links);
    var a :| 0 <= a < |links| && OffDiagonal(m, x, links)[a] == e;
    k := links[a];
  }

  lemma OffDiagonalEntry(m: Model, x: Node, k: Link)
    requires Broad(m) && IsNode(m, x) && k in LinksMade(m, x)
    ensures Coo(Index(m, x), Index(m, k.to), -Inverse(k.r)) in NodeBlock(m, x)
  {
    hide LinksMade, Amb, Index, Inverse;
    var links := LinksMade(m, x);
    var a :| 0 <= a < |links| && links[a] == k;
    assert OffDiagonal(m, x, links)[a] == Coo(Index(m, x), Index(m, k.to), -Inverse(k.r));
  }

  function Ones(n: nat): (s: seq<real>)
    ensures |s| == n && forall i | 0 <= i < n :: s[i] == 1.0
  {
    seq(n, i => 1.0)
  }

  /** Each row sums to the conductance of its node to ambient. */
  lemma RowSumsAreAmbient(m: Model, order: seq<Node>, x: Node)
    requires Broad(m) && Nodes(m, order) && IsNode(m, x) && x in order
    ensures Dot(MatrixOf(m, order), Index(m, x), ByIndex(Ones(Size(m)))) == Amb(m, x)
  {
    var v := Ones(Size(m));
    MatrixDot(m, order, x, v);
    LinksGood(m, x);
    forall k | k in Links(m, x)
      ensures Flow(TempOf(m, v))(k) == Conductance(k)
    {
      TempAt(m, v, k.to);
    }
    TempAt(m, v, x);
    hide Index, TempOf, Size, Links, Amb, MatrixOf, Dot;
    LinkSumSame(Links(m, x), Flow(TempOf(m, v)), Conductance);
  }

  // ----- how many entries -----

  function Bit(b: bool): int {
    if b then 1 else 0
  }

  function Degree(m: Model, l: int, i: int, j: int): int {
    Bit(i > 0) + Bit(i < m.nr - 1) + Bit(j < m.nc - 1) + Bit(j > 0) + Bit(l > 0) + Bit(l < |m.layers| - 1) +
    (if Ringed(m, l) then Bit(i == 0) + Bit(i == m.nr - 1) + Bit(j == m.nc - 1) + Bit(j == 0) else 0)
  }

  /** As many entries are made for a cell as it has links, and one for the diagonal. */
  lemma CellEntries(m: Model, l: nat, i: int, j: int)
    requires Broad(m) && IsNode(m, Cell(l, i, j))
    ensures |NodeBlock(m, Cell(l, i, j))| == Degree(m, l, i, j) + 1
  {
    BuildLinksComplete(m, l, i, j, Each);
    CountLinks(BuildLinks(m, l, i, j));
    CountLinks(CellLinks(m, l, i, j));
    hide LinkSum, BuildLinks, Amb, CellLinks;
    CellDegree(m, l, i, j);
  }

  lemma CellDegree(m: Model, l: nat, i: int, j: int)
    requires Broad(m) && IsNode(m, Cell(l, i, j))
    ensures |CellLinks(m, l, i, j)| == Degree(m, l, i, j)
  {
    hide EdgeResistance;
    assert |CellLinks(m, l, i, j)| ==
           |North(m, l, i, j)| + |South(m, l, i, j)| + |East(m, l, i, j)| + |West(m, l, i, j)| + |Above(m, l, i, j)| +
           |Below(m, l, i, j)| +
           |SideList(m, l, OnNorth, i, j)| + |SideList(m, l, OnSouth, i, j)| + |SideList(m, l, OnEast, i, j)| +
             |SideList(m, l, OnWest, i, j)|;
  }

  /** The entries of the first j cells of a row. */
  function RowEntries(m: Model, l: int, i: int, j: int): int {
    j * (1 + Bit(i > 0) + Bit(i < m.nr - 1) + Bit(l > 0) + Bit(l < |m.layers| - 1) +
         (if Ringed(m, l) then Bit(i == 0) + Bit(i == m.nr - 1) else 0)) +
    (if j > 0 then j - 1 else 0) + (if j < m.nc then j else m.nc - 1) +
    (if Ringed(m, l) then Bit(j >= 1) + Bit(j == m.nc) else 0)
  }

  lemma RowEntriesStep(m: Model, l: int, i: int, j: int)
    requires m.nc >= 2 && 0 <= j < m.nc
    ensures RowEntries(m, l, i, j + 1) == RowEntries(m, l, i, j) + Degree(m, l, i, j) + 1
    ensures RowEntries(m, l, i, 0) == 0
  {
    var d := 1 + Bit(i > 0) + Bit(i < m.nr - 1) + Bit(l > 0) + Bit(l < |m.layers| - 1) +
             (if Ringed(m, l) then Bit(i == 0) + Bit(i == m.nr - 1) else 0);
    assert (j + 1) * d == j * d + d;
  }

  /** The entries of the first i rows of a layer. */
  function LayerEntries(m: Model, l: int, i: int): int {
    m.nc * (i * (1 + Bit(l > 0) + Bit(l < |m.layers| - 1)) + (if i > 0 then i - 1 else 0) +
            (if i < m.nr then i else m.nr - 1) +
            (if Ringed(m, l) then Bit(i >= 1) + Bit(i == m.nr) else 0)) +
    i * (2 * (m.nc - 1) + (if Ringed(m, l) then 2 else 0))
  }

  lemma LayerEntriesStep(m: Model, l: int, i: int)
    requires m.nr >= 2 && m.nc >= 2 && 0 <= i < m.nr
    ensures LayerEntries(m, l, i + 1) == LayerEntries(m, l, i) + RowEntries(m, l, i, m.nc)
    ensures LayerEntries(m, l, 0) == 0
  {
    var v := 1 + Bit(l > 0) + Bit(l < |m.layers| - 1);
    var e := 2 * (m.nc - 1) + (if Ringed(m, l) then 2 else 0);
    assert (i + 1) * v == i * v + v && (i + 1) * e == i * e + e;
    var a := i * v + (if i > 0 then i - 1 else 0) + (if i < m.nr then i else m.nr - 1) +
      (if Ringed(m, l) then Bit(i >= 1) + Bit(i == m.nr) else 0);
    var b := v + Bit(i > 0) + Bit(i < m.nr - 1) + (if Ringed(m, l) then Bit(i == 0) + Bit(i == m.nr - 1) else 0);
    assert m.nc * (a + b) == m.nc * a + m.nc * b;
  }

  /** The entries of the first l layers. */
  function CellEntriesTo(m: Model, l: int): int {
    l * (5 * (m.nr * m.nc) - 2 * (m.nr + m.nc)) +
    ((if l > 0 then l - 1 else 0) + (if l < |m.layers| then l else |m.layers| - 1)) * (m.nr * m.nc) +
    RingsBelow(m, l) * (2 * (m.nr + m.nc))
  }

  /** How many of the first l layers have a ring. */
  function RingsBelow(m: Model, l: int): int {
    (if m.secondary then (if l < 3 then l else 3) else 0) + (if l > SpIdx(m) then l - SpIdx(m) else 0)
  }

  lemma CellEntriesStep(m: Model, l: int)
    requires Tall(m) && m.nr >= 2 && m.nc >= 2 && 0 <= l < |m.layers|
    ensures CellEntriesTo(m, l + 1) == CellEntriesTo(m, l) + LayerEntries(m, l, m.nr)
    ensures CellEntriesTo(m, 0) == 0
  {
    var nl, c, p, q := |m.layers|, m.nr * m.nc, 5 * (m.nr * m.nc) - 2 * (m.nr + m.nc), 2 * (m.nr + m.nc);
    var u := (if l > 0 then l - 1 else 0) + (if l < nl then l else nl - 1);
    var v := Bit(l > 0) + Bit(l < nl - 1);
    Expand(l, 1, p);
    Expand(u, v, c);
    assert RingsBelow(m, l + 1) == RingsBelow(m, l) + Bit(Ringed(m, l));
    Expand(RingsBelow(m, l), Bit(Ringed(m, l)), q);
    LayerTotal(m.nr, m.nc, v, if Ringed(m, l) then 2 else 0);
    Expand(0, 0, p);
  }

  lemma Expand(a: int, b: int, c: int)
    ensures (a + b) * c == a * c + b * c
  {
  }

  lemma LayerTotal(nr: int, nc: int, v: int, r: int)
    ensures nc * (nr * (1 + v) + (nr - 1) + (nr - 1) + r) + nr * (2 * (nc - 1) + r) ==
            (5 * (nr * nc) - 2 * (nr + nc)) + v * (nr * nc) + r * (nr + nc)
  {
  }

  /** A place among the cells: so many layers, rows and cells come before it. */
  ghost predicate Place(m: Model, l: int, i: int, j: int) {
    0 <= l <= |m.layers| && 0 <= i <= m.nr && 0 <= j <= m.nc && (l == |m.layers| ==> i == 0) &&
    (i == 0 && l == |m.layers| ==> j == 0) &&
    (i == m.nr ==> j == 0)
  }

  lemma LastCell(m: Model, order: seq<Node>, l: nat, i: nat, j: nat)
    requires CellsInOrder(m, order) && IsNode(m, Cell(l, i, j)) && |order| == CellsBefore(m, l, i) + j + 1
    ensures order[|order| - 1] == Cell(l, i, j)
  {
    CellIndexIs(m, l, i, j);
    IndexInjective(m, order[|order| - 1], Cell(l, i, j));
  }

  /** The entries of all the cells before a place. */
  lemma {:induction false} PrefixEntries(m: Model, order: seq<Node>, l: nat, i: nat, j: nat)
    requires Broad(m) && CellsInOrder(m, order) && Nodes(m, order) && Place(m, l, i, j)
    requires |order| == CellsBefore(m, l, i) + j
    ensures |MatrixOf(m, order)| == CellEntriesTo(m, l) +
            (if l < |m.layers| then LayerEntries(m, l, i) + (if i < m.nr then RowEntries(m, l, i, j) else 0) else 0)
    decreases |order|, l, i
  {
    hide CellEntriesTo, LayerEntries, RowEntries, NodeBlock, CellsBefore, Degree, Index;
    if j > 0 {
      BeforeNotNegative(m, l, i);
      var before := order[..|order| - 1];
      LastCell(m, order, l, i, j - 1);
      assert CellsInOrder(m, before) && Nodes(m, before);
      PrefixEntries(m, before, l, i, j - 1);
      CellEntries(m, l, i, j - 1);
      RowEntriesStep(m, l, i, j - 1);
    } else if i > 0 {
      CellsBeforeSteps(m, l, i - 1);
      PrefixEntries(m, order, l, i - 1, m.nc);
      LayerEntriesStep(m, l, i - 1);
      if i < m.nr {
        RowEntriesStep(m, l, i, 0);
      }
    } else if l > 0 {
      CellsBeforeSteps(m, l - 1, 0);
      PrefixEntries(m, order, l - 1, m.nr, 0);
      CellEntriesStep(m, l - 1);
      if l < |m.layers| {
        LayerEntriesStep(m, l, 0);
        RowEntriesStep(m, l, 0, 0);
      }
    } else {
      CellsBeforeSteps(m, 0, 0);
      CellEntriesStep(m, 0);
      LayerEntriesStep(m, 0, 0);
      RowEntriesStep(m, 0, 0, 0);
    }
  }

  lemma BeforeNotNegative(m: Model, l: nat, i: nat)
    ensures CellsBefore(m, l, i) >= 0
  {
  }

  // ----- the nodes around the grid -----

  /** The entries of a node of a ring: its links, and the diagonal. */
  function RingEntries(m: Model, ring: Ring, side: Side): int {
    (if HasLayer(ring) then SideLength(m, side) else 0) + Bit(HasInner(ring)) + Bit(HasOuter(ring)) + 1
  }

  lemma ExtraEntries(m: Model, e: int)
    requires Proper(m) && IsNode(m, Extra(e))
    ensures |NodeBlock(m, Extra(e))| == RingEntries(m, RingOf(e), SideOf(e))
  {
    hide EdgeResistance, OuterResistance, Amb;
  }

  /** The entries of the first k nodes around the grid. */
  function ExtraEntriesTo(m: Model, k: nat): int
    requires k <= EXTRA + EXTRA_SEC
  {
    if k == 0 then 0 else ExtraEntriesTo(m, k - 1) + RingEntries(m, PackRing((k - 1) / 4), PackSide((k - 1) % 4))
  }

  lemma AppendEntries(m: Model, before: seq<Node>, x: Node)
    requires Broad(m) && Nodes(m, before + [x])
    ensures Nodes(m, before) && IsNode(m, x) && |MatrixOf(m, before + [x])| == |MatrixOf(m, before)| + |NodeBlock(m, x)|
  {
    hide NodeBlock;
    var all := before + [x];
    assert all[|before|] == x && all[..|before|] == before;
    assert forall n | 0 <= n < |before| :: before[n] == all[n];
  }

  lemma {:induction false} MatrixEntriesTo(m: Model, cells: seq<Node>, k: nat)
    requires Broad(m) && CellsInOrder(m, cells) && Nodes(m, cells) && k <= ExtraCount(m) && Nodes(m, cells + Extras(k))
    ensures |MatrixOf(m, cells + Extras(k))| == |MatrixOf(m, cells)| + ExtraEntriesTo(m, k)
  {
    hide NodeBlock, MatrixOf, CellsInOrder, RingEntries, PackRing, PackSide, At, RingOf, SideOf, Nodes, PrimaryPositive,
         SecondaryPositive;
    if k == 0 {
      assert cells + Extras(0) == cells;
    } else {
      OneMoreExtra(m, cells, k - 1);
      var before, x := cells + Extras(k - 1), Extra(PackNode(k - 1));
      assert cells + Extras(k) == before + [x];
      AppendEntries(m, before, x);
      MatrixEntriesTo(m, cells, k - 1);
      ExtraEntries(m, PackNode(k - 1));
      RingAndSide(PackRing((k - 1) / 4), PackSide((k - 1) % 4));
    }
  }

  /** A ring: its four nodes. */
  lemma FourNodes(m: Model, g: nat)
    requires g < 7
    ensures var ring := PackRing(g);
            ExtraEntriesTo(m, 4 * g + 4) ==
            ExtraEntriesTo(m, 4 * g) + (if HasLayer(ring) then 2 * (m.nr + m.nc) else 0) +
            4 * (Bit(HasInner(ring)) + Bit(HasOuter(ring)) + 1)
  {
    hide PackRing, ExtraEntriesTo;
    FourSteps(m, 4 * g);
    assert (4 * g) / 4 == g && (4 * g + 1) / 4 == g && (4 * g + 2) / 4 == g && (4 * g + 3) / 4 == g;
    assert (4 * g) % 4 == 0 && (4 * g + 1) % 4 == 1 && (4 * g + 2) % 4 == 2 && (4 * g + 3) % 4 == 3;
  }

  lemma FourSteps(m: Model, k: nat)
    requires k + 4 <= EXTRA + EXTRA_SEC
    ensures ExtraEntriesTo(m, k + 4) == ExtraEntriesTo(m, k) +
            RingEntries(m, PackRing(k / 4), PackSide(k % 4)) +
            RingEntries(m, PackRing((k + 1) / 4), PackSide((k + 1) % 4)) +
            RingEntries(m, PackRing((k + 2) / 4), PackSide((k + 2) % 4)) +
            RingEntries(m, PackRing((k + 3) / 4), PackSide((k + 3) % 4))
  {
    hide RingEntries, PackRing, PackSide;
    assert ExtraEntriesTo(m, k + 2) == ExtraEntriesTo(m, k + 1) +
           RingEntries(m, PackRing((k + 1) / 4), PackSide((k + 1) % 4));
    assert ExtraEntriesTo(m, k + 3) == ExtraEntriesTo(m, k + 2) +
           RingEntries(m, PackRing((k + 2) / 4), PackSide((k + 2) % 4));
  }

  lemma GroupEntries(m: Model, g: nat)
    requires g < 7
    ensures ExtraEntriesTo(m, 4 * g + 4) ==
            ExtraEntriesTo(m, 4 * g) +
            (if g == 0 || g == 3 then 8 else 2 * (m.nr + m.nc) + (if g == 2 || g == 6 then 8 else 12))
  {
    hide ExtraEntriesTo;
    FourNodes(m, g);
  }

  lemma AllExtraEntries(m: Model)
    ensures ExtraEntriesTo(m, ExtraCount(m)) == if m.secondary then 10 * (m.nr + m.nc) + 68 else 4 * (m.nr + m.nc) + 28
  {
    hide PackRing;
    assert ExtraEntriesTo(m, 0) == 0;
    hide ExtraEntriesTo;
    GroupEntries(m, 0);
    GroupEntries(m, 1);
    GroupEntries(m, 2);
    GroupEntries(m, 3);
    GroupEntries(m, 4);
    GroupEntries(m, 5);
    GroupEntries(m, 6);
  }

  /** The number of entries that build_steady_grid_matrix allocates for, without and with the secondary
      path. */
  function Nnz(m: Model): int {
    var nl := |m.layers|;
    var inside := (5 * m.nr * m.nc - 2 * (m.nr + m.nc)) * nl + 2 * (nl - 1) * m.nr * m.nc;
    if m.secondary then inside + 5 * 2 * 2 * (m.nr + m.nc) + EXTRA + EXTRA_SEC + 16 + 24
    else inside + 2 * 2 * 2 * (m.nr + m.nc) + EXTRA + 16
  }

  /** Just so many entries are made: the arrays are full, and the check for a mismatch passes. */
  lemma MatrixSize(m: Model, entries: seq<Coo>)
    requires Broad(m) && SteadyMatrix(m, entries)
    ensures |entries| == Nnz(m)
  {
    hide MatrixOf, Nodes, CellsInOrder, ExtraEntriesTo, PrimaryPositive, SecondaryPositive;
    var cells :| AllCells(m, cells) && NodesMade(m, cells + Extras(ExtraCount(m)), entries);
    CellsDistinct(m, cells);
    CellsBeforeSteps(m, 0, 0);
    PrefixEntries(m, cells, |m.layers|, 0, 0);
    MatrixEntriesTo(m, cells, ExtraCount(m));
    AllExtraEntries(m);
    NnzIs(|m.layers|, m.nr, m.nc);
    RingsTotal(m);
  }

  lemma RingsTotal(m: Model)
    requires Tall(m)
    ensures RingsBelow(m, |m.layers|) == if m.secondary then 5 else 2
  {
  }

  lemma NnzIs(nl: int, nr: int, nc: int)
    ensures (5 * nr * nc - 2 * (nr + nc)) * nl + 2 * (nl - 1) * nr * nc == nl * (5 * (nr * nc) - 2 * (nr + nc)) +
            ((nl - 1) + (nl - 1)) * (nr * nc)
  {
    assert (5 * nr * nc - 2 * (nr + nc)) * nl == nl * (5 * (nr * nc) - 2 * (nr + nc));
    assert 2 * (nl - 1) * nr * nc == (2 * (nl - 1)) * (nr * nc);
  }

  // ----- in compressed columns -----

  lemma EntryInRange(m: Model, order: seq<Node>, e: Coo)
    requires Broad(m) && Nodes(m, order) && e in MatrixOf(m, order)
    ensures 0 <= e.x < Size(m) && 0 <= e.y < Size(m)
  {
    hide LinksMade, MatrixOf, Index, Amb, Size;
    var x := EntryOf(m, order, e);
    IndexInRange(m, x);
    BlockNoRepeats(m, x);
    if e.x != e.y {
      var k := LinkOf(m, x, e);
      LinksMadeGood(m, x);
      IndexInRange(m, k.to);
    }
  }

  lemma DiagonalIn(m: Model, x: Node)
    requires Broad(m) && IsNode(m, x)
    ensures exists e :: e in NodeBlock(m, x) && e.y == Index(m, x)
  {
    hide LinksMade, Amb, Index;
    var block := NodeBlock(m, x);
    assert block[|block| - 1] in block;
  }

  /** The last node has a diagonal entry, so that the conversion to columns always sets all the
      pointers, nnz of them in all, and loses nothing. */
  lemma MatrixConverts(m: Model, entries: seq<Coo>, rowInd: seq<int>, colPtr: seq<int>, val: seq<real>)
    requires Broad(m) && SteadyMatrix(m, entries) && S.Compressed(entries, Size(m), rowInd, colPtr, val)
    ensures |rowInd| == |val| == Nnz(m) && S.Pointers(colPtr, Size(m), Nnz(m)) && colPtr[0] == 0
    ensures colPtr[Size(m)] == Nnz(m)
    ensures multiset(S.ReadBack(rowInd, colPtr, val, Size(m))) == multiset(entries)
  {
    hide MatrixOf, Index, Size, Nnz, NodeBlock, S.Compressed, S.Pointers, S.ReadBack, S.Sorted;
    var cells :| AllCells(m, cells) && NodesMade(m, cells + Extras(ExtraCount(m)), entries);
    var order := cells + Extras(ExtraCount(m));
    AllNodes(m, cells);
    MatrixSize(m, entries);
    forall i | 0 <= i < |entries|
      ensures 0 <= entries[i].x < Size(m) && 0 <= entries[i].y < Size(m)
    {
      EntryInRange(m, order, entries[i]);
    }
    LastEntry(m, order);
    S.RoundTrip(entries, Size(m), rowInd, colPtr, val);
  }

  lemma LastEntry(m: Model, order: seq<Node>)
    requires Broad(m) && Nodes(m, order) && (forall x | IsNode(m, x) :: x in order)
    ensures S.LastFilled(MatrixOf(m, order), Size(m))
  {
    hide MatrixOf, NodeBlock;
    var x := Extra(ExtraCount(m) - 1);
    DiagonalIn(m, x);
    var e :| e in NodeBlock(m, x) && e.y == Index(m, x);
    BlockIn(m, order, x, e);
    assert e.y == Size(m) - 1;
    var i :| 0 <= i < |MatrixOf(m, order)| && MatrixOf(m, order)[i] == e;
  }
}
