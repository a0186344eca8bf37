/** What becomes of the steady-state matrix on a grid of a single row or column. build_steady_grid_matrix
    (HotSpot/temperature_grid.c) tells the corners apart by number alone and takes such a cell for one
    with a neighbour on each axis: it makes an entry with LARGENUM for a cell of another row or layer,
    and none for the second side of the package. */
module GridNarrow {
  import opened GridNetwork
  import opened GaussSeidel
  import opened GridSweep
  import opened GridMatrix
  import opened GridCounts
  import opened GridBuild
  import opened Coordinates

  /** At least two rows and two columns. */
  predicate Wide(m: Model) {
    m.nr >= 2 && m.nc >= 2
  }

  // ----- the rows in the whole -----

  lemma {:induction false} RowStarts(m: Model, large: real, order: seq<Node>)
    requires Proper(m) && Nodes(m, order) && order != []
    ensures |BuiltRow(m, large, order[0])| <= |Built(m, large, order)|
    ensures Built(m, large, order)[..|BuiltRow(m, large, order[0])|] == BuiltRow(m, large, order[0])
  {
    hide BuiltRow, PrimaryPositive, SecondaryPositive;
    var n := |order| - 1;
    if n == 0 {
      assert Built(m, large, order) == Built(m, large, []) + BuiltRow(m, large, order[0]);
    } else {
      RowStarts(m, large, order[..n]);
    }
  }

  lemma BuiltRowAt(m: Model, large: real, x: Node, e: Coo)
    requires Proper(m) && IsNode(m, x) && e in BuiltRow(m, large, x)
    ensures e.x == Index(m, x)
  {
    hide Index, CellTargets, LinksMade, Amb, LinkSum, Total, PrimaryPositive, SecondaryPositive;
  }

  lemma {:induction false} OtherRow(entries: seq<Coo>, r: int, t: int -> real)
    requires forall e | e in entries :: e.x != r
    ensures Dot(entries, r, t) == 0.0
  {
    if entries != [] {
      OtherRow(entries[..|entries| - 1], r, t);
    }
  }

  /** The row of a node, times a vector, is that of what was emitted for it. */
  lemma {:induction false} BuiltDot(m: Model, large: real, order: seq<Node>, x: Node, t: int -> real)
    requires Proper(m) && Nodes(m, order) && IsNode(m, x)
    ensures Dot(Built(m, large, order), Index(m, x), t) ==
            if x in order then Dot(BuiltRow(m, large, x), Index(m, x), t) else 0.0
  {
    hide BuiltRow, Index, PrimaryPositive, SecondaryPositive;
    if order != [] {
      var n := |order| - 1;
      BuiltDot(m, large, order[..n], x, t);
      DotConcat(Built(m, large, order[..n]), BuiltRow(m, large, order[n]), Index(m, x), t);
      if order[n] == x {
        assert x !in order[..n];
      } else {
        OtherRowOf(m, large, order[n], x, t);
        assert x in order <==> x in order[..n];
      }
    }
  }

  lemma OtherRowOf(m: Model, large: real, y: Node, x: Node, t: int -> real)
    requires Proper(m) && IsNode(m, x) && IsNode(m, y) && x != y
    ensures Dot(BuiltRow(m, large, y), Index(m, x), t) == 0.0
  {
    hide BuiltRow, Index, PrimaryPositive, SecondaryPositive;
    forall e | e in BuiltRow(m, large, y)
      ensures e.x != Index(m, x)
    {
      BuiltRowAt(m, large, y, e);
      if e.x == Index(m, x) {
        IndexInjective(m, x, y);
      }
    }
    OtherRow(BuiltRow(m, large, y), Index(m, x), t);
  }

  // ----- a coordinate is repeated -----

  /** The first cell has its entries for east, south and below at 1, nc and nr*nc. */
  lemma FirstRowRepeats(m: Model, large: real)
    requires Proper(m) && !Wide(m)
    ensures !NoRepeats(BuiltRow(m, large, Cell(0, 0, 0)))
  {
    hide SideTarget, Amb, Total, PrimaryPositive, SecondaryPositive;
    var ts := CellTargets(m, large, 0, 0, 0);
    assert |ts| >= 3 && ts[0].y == 1 && ts[1].y == m.nc && ts[2].y == m.nr * m.nc;
    var row := CellRow(m, large, 0, 0, 0);
    assert row[0].y == 1 && row[1].y == m.nc && row[2].y == m.nr * m.nc;
    assert row[0].x == row[1].x == row[2].x;
  }

  lemma RepeatsStay(a: seq<Coo>, n: nat)
    requires n <= |a| && !NoRepeats(a[..n])
    ensures !NoRepeats(a)
  {
    var i, j :| 0 <= i < j < n && a[..n][i].x == a[..n][j].x && a[..n][i].y == a[..n][j].y;
    assert a[i] == a[..n][i] && a[j] == a[..n][j];
  }

  /** No coordinate is repeated exactly if there are two rows and two columns. */
  lemma NoRepeatsIffWide(m: Model, large: real, entries: seq<Coo>)
    requires Proper(m) && large > 0.0 && AllBuilt(m, large, entries)
    ensures NoRepeats(entries) <==> Wide(m)
  {
    hide Built, BuiltRow, MatrixOf, NoRepeats, CellsInOrder, PrimaryPositive, SecondaryPositive;
    var cells :| AllCells(m, cells) && Progressing(m, large, cells + Extras(ExtraCount(m)), entries);
    var order := cells + Extras(ExtraCount(m));
    if Wide(m) {
      BuiltIsMatrix(m, large, order);
      MatrixNoRepeats(m, order);
    } else {
      FirstIsFirst(m, cells);
      RowStarts(m, large, order);
      FirstRowRepeats(m, large);
      RepeatsStay(entries, |BuiltRow(m, large, order[0])|);
    }
  }

  lemma FirstIsFirst(m: Model, cells: seq<Node>)
    requires Proper(m) && AllCells(m, cells)
    ensures |cells| > 0 && cells[0] == Cell(0, 0, 0)
  {
    hide PrimaryPositive, SecondaryPositive;
    var x := Cell(0, 0, 0);
    IndexInRange(m, x);
    assert Index(m, x) == 0;
    IndexInjective(m, cells[0], x);
  }

  // ----- a link is missing -----

  /** Each row of the matrix says what its node has to say in the network. */
  ghost predicate StandsFor(m: Model, entries: seq<Coo>)
    requires Tall(m)
  {
    forall v: seq<real>, x: Node | |v| == Size(m) && IsNode(m, x) ::
      RowIs(m, x, v, Dot(entries, Index(m, x), ByIndex(v)))
  }

  /** The side of the sink that the first cell of its layer is taken to be away from. */
  function Missed(m: Model): Side {
    if m.nr == 1 then OnSouth else OnEast
  }

  /** The node of the sink there is not among the columns of that cell. */
  lemma MissedColumn(m: Model, large: real, e: Coo)
    requires Proper(m) && !Wide(m) && e in BuiltRow(m, large, Cell(HsIdx(m), 0, 0))
    ensures e.y != |m.layers| * m.nr * m.nc + At(SinkIn, Missed(m))
  {
    hide EdgeResistance, Amb, Total, Inverse, PrimaryPositive, SecondaryPositive;
    var hs, base := HsIdx(m), |m.layers| * m.nr * m.nc;
    var ts := CellTargets(m, large, hs, 0, 0);
    OneLayerBelow(|m.layers|, m.nr, m.nc);
    assert forall k | 0 <= k < |ts| ::
        ts[k].y <= base || ts[k].y == base + At(SinkIn, OnNorth) || ts[k].y == base + At(SinkIn, OnWest);
  }

  lemma OneLayerBelow(nl: nat, nr: nat, nc: nat)
    requires nl >= 1 && nr >= 1 && nc >= 1
    ensures (nl - 1) * nr * nc + nr * nc == nl * nr * nc && nr * nc >= nc && nr * nc >= 1
  {
    assert (nl - 1) * nr == nl * nr - nr;
  }

  /** One at a place of the vector, zero elsewhere. */
  function Unit(n: nat, at: int): (s: seq<real>)
    ensures |s| == n && forall k | 0 <= k < n :: s[k] == if k == at then 1.0 else 0.0
  {
    seq(n, k => if k == at then 1.0 else 0.0)
  }

  lemma {:induction false} DotOfZeros(entries: seq<Coo>, r: int, t: int -> real)
    requires forall e | e in entries :: t(e.y) == 0.0
    ensures Dot(entries, r, t) == 0.0
  {
    if entries != [] {
      var n := |entries| - 1;
      DotOfZeros(entries[..n], r, t);
      assert entries[n] in entries;
    }
  }

  lemma {:induction false} SomePositive(links: seq<Link>, f: Weight, k: Link)
    requires (forall h | h in links :: f(h) >= 0.0) && k in links && f(k) > 0.0
    ensures LinkSum(links, f) > 0.0
  {
    var n := |links| - 1;
    if k in links[..n] {
      SomePositive(links[..n], f, k);
    } else {
      NoneNegative(links[..n], f);
      assert links[n] == k;
    }
  }

  lemma {:induction false} NoneNegative(links: seq<Link>, f: Weight)
    requires forall h | h in links :: f(h) >= 0.0
    ensures LinkSum(links, f) >= 0.0
  {
    if links != [] {
      NoneNegative(links[..|links| - 1], f);
    }
  }

  lemma MissedLink(m: Model) returns (k: Link)
    requires Proper(m) && !Wide(m)
    ensures k in Links(m, Cell(HsIdx(m), 0, 0)) && k.to == Extra(At(SinkIn, Missed(m))) && k.r > 0.0
  {
    hide North, South, East, West, Above, Below, EdgeResistance, PrimaryPositive, SecondaryPositive;
    var hs := HsIdx(m);
    EdgePositive(m, hs, Missed(m));
    k := Link(Extra(At(SinkIn, Missed(m))), EdgeResistance(m, hs, Missed(m)));
    assert k in SideList(m, hs, Missed(m), 0, 0);
    InCellLinks(m, hs, 0, 0, k);
  }

  lemma FlowOfUnit(m: Model, x: Node, at: Node, k: Link)
    requires Proper(m) && IsNode(m, x) && x != at && IsNode(m, at) && k in Links(m, x) && k.to == at && k.r > 0.0
    ensures var t := TempOf(m, Unit(Size(m), Index(m, at)));
            t(x) == 0.0 && LinkSum(Links(m, x), Flow(t)) > 0.0
  {
    hide Links, Index, PrimaryPositive, SecondaryPositive;
    var v := Unit(Size(m), Index(m, at));
    var t := TempOf(m, v);
    TempAt(m, v, x);
    TempAt(m, v, at);
    if Index(m, x) == Index(m, at) {
      IndexInjective(m, x, at);
    }
    LinksGood(m, x);
    forall h | h in Links(m, x)
      ensures Flow(t)(h) >= 0.0
    {
      TempAt(m, v, h.to);
      FlowNotNegative(t(h.to), h.r);
    }
    FlowNotNegative(1.0, k.r);
    SomePositive(Links(m, x), Flow(t), k);
  }

  lemma FlowNotNegative(t: real, r: real)
    requires t >= 0.0 && r > 0.0
    ensures Scaled(t, r) >= 0.0 && (t == 1.0 ==> Scaled(t, r) > 0.0)
  {
  }

  lemma MissedRow(m: Model, large: real, entries: seq<Coo>, order: seq<Node>)
    requires Proper(m) && large > 0.0 && !Wide(m) && Nodes(m, order) && Cell(HsIdx(m), 0, 0) in order
    requires entries == Built(m, large, order)
    ensures !StandsFor(m, entries)
  {
    hide Built, BuiltRow, Dot, Links, LinkSum, TempOf, CSum, Index, Size, Flow, PrimaryPositive, SecondaryPositive;
    var x, at := Cell(HsIdx(m), 0, 0), Extra(At(SinkIn, Missed(m)));
    var v := Unit(Size(m), Index(m, at));
    var k := MissedLink(m);
    FlowOfUnit(m, x, at, k);
    BuiltDot(m, large, order, x, ByIndex(v));
    MissedIndex(m);
    forall e | e in BuiltRow(m, large, x)
      ensures ByIndex(v)(e.y) == 0.0
    {
      MissedColumn(m, large, e);
    }
    DotOfZeros(BuiltRow(m, large, x), Index(m, x), ByIndex(v));
    assert Dot(entries, Index(m, x), ByIndex(v)) == 0.0;
    assert !RowIs(m, x, v, 0.0);
  }

  lemma MissedIndex(m: Model)
    ensures Index(m, Extra(At(SinkIn, Missed(m)))) == |m.layers| * m.nr * m.nc + At(SinkIn, Missed(m))
  {
  }

  /** The matrix is that of the network exactly if there are two rows and two columns. */
  lemma NetworkIffWide(m: Model, large: real, entries: seq<Coo>)
    requires Proper(m) && large > 0.0 && AllBuilt(m, large, entries)
    ensures StandsFor(m, entries) <==> Wide(m)
  {
    hide Built, MatrixOf, Dot, RowIs, CellsInOrder, StandsFor, Index, Size, PrimaryPositive, SecondaryPositive;
    var cells :| AllCells(m, cells) && Progressing(m, large, cells + Extras(ExtraCount(m)), entries);
    var order := cells + Extras(ExtraCount(m));
    AllNodes(m, cells);
    if Wide(m) {
      BuiltIsMatrix(m, large, order);
      MatrixStands(m, order);
    } else {
      MissedRow(m, large, entries, order);
    }
  }

  lemma MatrixStands(m: Model, order: seq<Node>)
    requires Broad(m) && Nodes(m, order) && forall x | IsNode(m, x) :: x in order
    ensures StandsFor(m, MatrixOf(m, order))
  {
    hide MatrixOf, Dot, RowIs, Index, Size, PrimaryPositive, SecondaryPositive;
    forall v: seq<real>, x: Node | |v| == Size(m) && IsNode(m, x)
      ensures RowIs(m, x, v, Dot(MatrixOf(m, order), Index(m, x), ByIndex(v)))
    {
      MatrixDot(m, order, x, v);
    }
  }

  // ----- how many entries -----

  /** The cells of a layer are in a line: cell g of it. */
  function InLine(m: Model, l: nat, g: nat): Node {
    if m.nr == 1 then Cell(l, 0, g) else Cell(l, g, 0)
  }

  function LineLength(m: Model): nat {
    if m.nr == 1 then m.nc else m.nr
  }

  lemma LineIndex(m: Model, l: nat, g: nat)
    requires Proper(m) && !Wide(m) && l < |m.layers| && g < LineLength(m)
    ensures IsNode(m, InLine(m, l, g)) && Index(m, InLine(m, l, g)) == l * LineLength(m) + g
    ensures m.nr * m.nc == LineLength(m) && l * m.nr * m.nc == l * LineLength(m)
  {
    assert l * m.nr * m.nc == l * (m.nr * m.nc);
  }

  /** The entries that a cell is given: at either end of the line two neighbours and two sides, between
      them three and one. */
  function LineEntries(m: Model, l: int, g: int): int {
    1 + Bit(l > 0) + Bit(l < |m.layers| - 1) +
    (if g == 0 || g == LineLength(m) - 1 then 2 + 2 * Bit(Ringed(m, l)) else 3 + Bit(Ringed(m, l)))
  }

  lemma CellEntriesInLine(m: Model, large: real, l: nat, g: nat)
    requires Proper(m) && !Wide(m) && l < |m.layers| && g < LineLength(m)
    ensures IsNode(m, InLine(m, l, g)) && |BuiltRow(m, large, InLine(m, l, g))| == LineEntries(m, l, g)
  {
    hide Amb, Total, EdgeResistance, Ringed, Index, PrimaryPositive, SecondaryPositive;
    LineIndex(m, l, g);
    LineCase(m, large, l, g);
  }

  /** Which of the nine cases a cell of the line is taken for. */
  lemma LineCase(m: Model, large: real, l: nat, g: nat)
    requires Proper(m) && !Wide(m) && l < |m.layers| && g < LineLength(m)
    ensures |CellTargets(m, large, l, InLine(m, l, g).i, InLine(m, l, g).j)| == LineEntries(m, l, g) - 1
  {
    hide EdgeResistance, Ringed, Index, OrLarge, PrimaryPositive, SecondaryPositive;
    if m.nr == 1 {
      assert m.nr * m.nc == m.nc;
    } else {
      assert g % 1 == 0 && g * m.nc == g && m.nr * m.nc == m.nr;
    }
  }

  /** The entries of the first g cells of a layer, and those of the whole layer. */
  function LineTo(m: Model, l: int, g: int): int {
    g * (4 + Bit(l > 0) + Bit(l < |m.layers| - 1) + Bit(Ringed(m, l))) +
    (if g > 0 then Bit(Ringed(m, l)) - 1 else 0) + (if g == LineLength(m) > 1 then Bit(Ringed(m, l)) - 1 else 0)
  }

  lemma LineStep(m: Model, l: int, g: int)
    requires 0 <= g < LineLength(m)
    ensures LineTo(m, l, g + 1) == LineTo(m, l, g) + LineEntries(m, l, g) && LineTo(m, l, 0) == 0
  {
    hide Ringed;
    NextStep(g, 4 + Bit(l > 0) + Bit(l < |m.layers| - 1) + Bit(Ringed(m, l)));
  }

  lemma NextStep(g: int, e: int)
    ensures (g + 1) * e == g * e + e && 0 * e == 0
  {
  }

  function LineLateral(n: int): int {
    if n == 1 then 3 else 4 * n - 2
  }

  function LineSides(n: int): int {
    if n == 1 then 2 else n + 2
  }

  /** The entries of the first l layers. */
  function LinesTo(m: Model, l: int): int {
    l * LineLateral(LineLength(m)) +
    ((if l > 0 then l - 1 else 0) + (if l < |m.layers| then l else |m.layers| - 1)) * LineLength(m) +
    RingsBelow(m, l) * LineSides(LineLength(m))
  }

  lemma LinesStep(m: Model, l: int)
    requires Proper(m) && 0 <= l < |m.layers|
    ensures LinesTo(m, l + 1) == LinesTo(m, l) + LineTo(m, l, LineLength(m)) && LinesTo(m, 0) == 0
  {
    var n := LineLength(m);
    var u := (if l > 0 then l - 1 else 0) + (if l < |m.layers| then l else |m.layers| - 1);
    var v := Bit(l > 0) + Bit(l < |m.layers| - 1);
    Expand(l, 1, LineLateral(n));
    Expand(u, v, n);
    assert RingsBelow(m, l + 1) == RingsBelow(m, l) + Bit(Ringed(m, l));
    Expand(RingsBelow(m, l), Bit(Ringed(m, l)), LineSides(n));
    hide Ringed, RingsBelow;
    WholeLine(n, v, Bit(Ringed(m, l)));
    Expand(0, 0, n);
  }

  lemma WholeLine(n: int, v: int, r: int)
    requires n >= 1 && (r == 0 || r == 1)
    ensures n * (4 + v + r) + (r - 1) + (if n > 1 then r - 1 else 0) == LineLateral(n) + v * n + r * LineSides(n)
  {
    assert n * (4 + v + r) == 4 * n + v * n + r * n;
  }

  lemma CellInLine(m: Model, order: seq<Node>, l: nat, g: nat)
    requires Proper(m) && !Wide(m) && CellsInOrder(m, order) && l < |m.layers| && g < LineLength(m)
    requires |order| == l * LineLength(m) + g + 1
    ensures order[|order| - 1] == InLine(m, l, g)
  {
    LineIndex(m, l, g);
    hide InLine, Index;
    IndexInjective(m, order[|order| - 1], InLine(m, l, g));
  }

  lemma AppendRow(m: Model, large: real, before: seq<Node>, x: Node)
    requires Proper(m) && Nodes(m, before + [x])
    ensures Nodes(m, before) && IsNode(m, x)
    ensures |Built(m, large, before + [x])| == |Built(m, large, before)| + |BuiltRow(m, large, x)|
  {
    hide BuiltRow, PrimaryPositive, SecondaryPositive;
    var all := before + [x];
    assert all[|before|] == x && all[..|before|] == before;
    assert forall n | 0 <= n < |before| :: before[n] == all[n];
  }

  /** The entries of all the cells before one. */
  lemma {:induction false} EntriesInLine(m: Model, large: real, order: seq<Node>, l: nat, g: nat)
    requires Proper(m) && !Wide(m) && CellsInOrder(m, order) && Nodes(m, order) && g <= LineLength(m)
    requires (l < |m.layers| || (l == |m.layers| && g == 0)) && |order| == l * LineLength(m) + g
    ensures |Built(m, large, order)| == LinesTo(m, l) + if l < |m.layers| then LineTo(m, l, g) else 0
    decreases |order|, l
  {
    hide LinesTo, LineTo, LineEntries, InLine, LineLength, BuiltRow, Index, PrimaryPositive, SecondaryPositive;
    LineNotEmpty(m);
    if g > 0 {
      var before, x := order[..|order| - 1], order[|order| - 1];
      assert order == before + [x];
      CellInLine(m, order, l, g - 1);
      AppendRow(m, large, before, x);
      EntriesInLine(m, large, before, l, g - 1);
      CellEntriesInLine(m, large, l, g - 1);
      LineStep(m, l, g - 1);
    } else if l > 0 {
      NextStep(l - 1, LineLength(m));
      EntriesInLine(m, large, order, l - 1, LineLength(m));
      LinesStep(m, l - 1);
      if l < |m.layers| {
        LineStep(m, l, 0);
      }
    } else {
      LinesStep(m, 0);
      LineStep(m, 0, 0);
    }
  }

  lemma LineNotEmpty(m: Model)
    requires Proper(m)
    ensures LineLength(m) >= 1
  {
  }

  lemma {:induction false} RowsTo(m: Model, large: real, cells: seq<Node>, k: nat)
    requires Proper(m) && CellsInOrder(m, cells) && k <= ExtraCount(m) && Nodes(m, cells + Extras(k)) && Nodes(m, cells)
    ensures |Built(m, large, cells + Extras(k))| == |Built(m, large, cells)| + ExtraEntriesTo(m, k)
  {
    hide NodeBlock, Built, CellsInOrder, RingEntries, PackRing, PackSide, At, RingOf, SideOf, Nodes, PrimaryPositive,
         SecondaryPositive;
    if k == 0 {
      assert cells + Extras(0) == cells;
    } else {
      OneMoreExtra(m, cells, k - 1);
      var before, x := cells + Extras(k - 1), Extra(PackNode(k - 1));
      assert cells + Extras(k) == before + [x];
      AppendRow(m, large, before, x);
      RowsTo(m, large, cells, k - 1);
      ExtraEntries(m, PackNode(k - 1));
      RingAndSide(PackRing((k - 1) / 4), PackSide((k - 1) % 4));
    }
  }

  /** How many entries too many are made: none on a wide grid, and none where the package has all the
      layers; else there are so many for each layer that has no ring. */
  function Excess(m: Model): int {
    if Wide(m) then 0
    else (|m.layers| - RingsBelow(m, |m.layers|)) * (if LineLength(m) == 1 then 2 else LineLength(m))
  }

  lemma EntriesMade(m: Model, large: real, entries: seq<Coo>)
    requires Proper(m) && large > 0.0 && AllBuilt(m, large, entries)
    ensures |entries| == Nnz(m) + Excess(m)
  {
    hide Built, MatrixOf, Nodes, CellsInOrder, LinesTo, ExtraEntriesTo, Nnz, Excess, LineLength, PrimaryPositive,
         SecondaryPositive;
    var cells :| AllCells(m, cells) && Progressing(m, large, cells + Extras(ExtraCount(m)), entries);
    CellsDistinct(m, cells);
    if Wide(m) {
      BuiltSteady(m, large, cells, entries);
      MatrixSize(m, entries);
      NothingTooMany(m);
    } else {
      LineCount(m);
      EntriesInLine(m, large, cells, |m.layers|, 0);
      RowsTo(m, large, cells, ExtraCount(m));
      AllExtraEntries(m);
      TooMany(m);
    }
  }

  lemma NothingTooMany(m: Model)
    requires Wide(m)
    ensures Excess(m) == 0
  {
  }

  lemma LineCount(m: Model)
    requires Proper(m) && !Wide(m)
    ensures |m.layers| * m.nr * m.nc == |m.layers| * LineLength(m)
  {
    assert |m.layers| * m.nr * m.nc == |m.layers| * (m.nr * m.nc);
  }

  lemma TooMany(m: Model)
    requires Proper(m) && !Wide(m)
    ensures LinesTo(m, |m.layers|) +
            (if m.secondary then 10 * (m.nr + m.nc) + 68 else 4 * (m.nr + m.nc) + 28) == Nnz(m) + Excess(m)
  {
    var nl, n, r := |m.layers|, LineLength(m), RingsBelow(m, |m.layers|);
    RingsTotal(m);
    NnzIs(nl, m.nr, m.nc);
    hide RingsBelow, LineLateral, LineSides, PrimaryPositive, SecondaryPositive;
    CountOf(nl, m.nr * m.nc, m.nr + m.nc, n, r);
  }

  lemma CountOf(nl: int, cells: int, around: int, n: int, r: int)
    requires n >= 1 && cells == n && around == n + 1
    ensures nl * LineLateral(n) + ((nl - 1) + (nl - 1)) * n + r * LineSides(n) ==
            nl * (5 * cells - 2 * around) + ((nl - 1) + (nl - 1)) * cells + r * (2 * around) +
            (nl - r) * (if n == 1 then 2 else n)
  {
    if n > 1 {
      assert nl * (4 * n - 2) == nl * (3 * n - 2) + nl * n;
      assert r * (n + 2) == r * (2 * n + 2) - r * n;
    }
  }

  /** The check that the arrays are just full passes exactly on grids of two rows and columns or more, and
      where all layers are layers of the package. */
  lemma CountIffWide(m: Model, large: real, entries: seq<Coo>)
    requires Proper(m) && large > 0.0 && AllBuilt(m, large, entries)
    ensures |entries| == Nnz(m) <==> Wide(m) || |m.layers| == if m.secondary then 5 else 2
    ensures |entries| >= Nnz(m)
  {
    hide AllBuilt, Nnz, PrimaryPositive, SecondaryPositive;
    EntriesMade(m, large, entries);
    RingsTotal(m);
    if !Wide(m) {
      LineNotEmpty(m);
      NotNothing(|m.layers| - RingsBelow(m, |m.layers|), if LineLength(m) == 1 then 2 else LineLength(m));
    }
  }

  lemma NotNothing(a: int, b: int)
    requires a >= 0 && b > 0
    ensures a * b >= 0 && (a * b == 0 <==> a == 0)
  {
  }
}
