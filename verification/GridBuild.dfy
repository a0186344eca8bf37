/** build_steady_grid_matrix (HotSpot/temperature_grid.c) as it is written: entry by entry, with
    coordinates computed from the number of a cell in its layer, and with LARGENUM for the resistance to
    a neighbour that is not there. On two rows and columns or more it is the matrix of GridMatrix.dfy. */
module GridBuild {
  import opened GridNetwork
  import opened GaussSeidel
  import opened GridSweep
  import opened GridMatrix
  import opened Coordinates

  // ----- rows -----

  /** A column, and the resistance that an entry in it stands for. */
  datatype Target = Target(y: int, r: real)

  function OffEntries(x: int, ts: seq<Target>): (s: seq<Coo>)
    ensures |s| == |ts| && forall k | 0 <= k < |ts| :: s[k] == Coo(x, ts[k].y, -Inverse(ts[k].r))
  {
    seq(|ts|, k requires 0 <= k < |ts| => Coo(x, ts[k].y, -Inverse(ts[k].r)))
  }

  /** dia_val after these entries. */
  function Total(ts: seq<Target>): real {
    if ts == [] then 0.0 else Total(ts[..|ts| - 1]) + Inverse(ts[|ts| - 1].r)
  }

  function RowEntriesOf(x: int, ts: seq<Target>, amb: real): seq<Coo> {
    OffEntries(x, ts) + [Coo(x, x, amb + Total(ts))]
  }

  /** The columns of the links of a node. */
  function AsTargets(m: Model, links: seq<Link>): (ts: seq<Target>)
    ensures |ts| == |links| && forall k | 0 <= k < |links| :: ts[k] == Target(Index(m, links[k].to), links[k].r)
  {
    seq(|links|, k requires 0 <= k < |links| => Target(Index(m, links[k].to), links[k].r))
  }

  lemma TargetsConcat(m: Model, a: seq<Link>, b: seq<Link>)
    ensures AsTargets(m, a + b) == AsTargets(m, a) + AsTargets(m, b)
  {
    hide Index;
  }

  lemma {:induction false} TotalIs(m: Model, links: seq<Link>)
    ensures Total(AsTargets(m, links)) == LinkSum(links, Conductance)
  {
    hide Index;
    if links != [] {
      var n := |links| - 1;
      TotalIs(m, links[..n]);
      assert AsTargets(m, links)[..n] == AsTargets(m, links[..n]);
    }
  }

  /** The block of a node is a row of this kind. */
  lemma BlockIsRow(m: Model, x: Node, links: seq<Link>, amb: real)
    ensures Block(m, x, links, amb) == RowEntriesOf(Index(m, x), AsTargets(m, links), amb)
  {
    hide Index, Inverse, Total, LinkSum;
    TotalIs(m, links);
    assert OffDiagonal(m, x, links) == OffEntries(Index(m, x), AsTargets(m, links));
  }

  // ----- emitting a row -----

  /** So far the row has these entries, and dia_val is their sum. */
  ghost predicate Emitting(start: seq<Coo>, x: int, ts: seq<Target>, entries: seq<Coo>, dia: real) {
    entries == start + OffEntries(x, ts) && dia == Total(ts)
  }

  /** cooX, cooY, cooV; curidx++; dia_val += 1.0/R. */
  method Emit(x: int, y: int, r: real, entries: seq<Coo>, dia: real, ghost start: seq<Coo>, ghost ts: seq<Target>)
    returns (entries': seq<Coo>, dia': real)
    requires r > 0.0 && Emitting(start, x, ts, entries, dia)
    ensures Emitting(start, x, ts + [Target(y, r)], entries', dia')
  {
    entries' := entries + [Coo(x, y, -1.0 / r)];
    dia' := dia + 1.0 / r;
    assert (ts + [Target(y, r)])[..|ts|] == ts;
    NegativeInverse(r);
    assert OffEntries(x, ts + [Target(y, r)]) == OffEntries(x, ts) + [Coo(x, y, -Inverse(r))];
  }

  lemma NegativeInverse(r: real)
    requires r > 0.0
    ensures -1.0 / r == -Inverse(r)
  {
  }

  lemma NothingEmitted(start: seq<Coo>, x: int)
    ensures Emitting(start, x, [], start, 0.0)
  {
    assert start + OffEntries(x, []) == start;
  }

  /** The diagonal entry, with the conductance to ambient if there is one. */
  method EmitDiagonal(x: int, amb: real, entries: seq<Coo>, dia: real, ghost start: seq<Coo>, ghost ts: seq<Target>)
    returns (entries': seq<Coo>)
    requires Emitting(start, x, ts, entries, dia)
    ensures entries' == start + RowEntriesOf(x, ts, amb)
  {
    entries' := entries + [Coo(x, x, dia + amb)];
  }

  // ----- the rows of cells -----

  /** The resistance to a neighbour, or LARGENUM. */
  function OrLarge(there: bool, r: real, large: real): real {
    if there then r else large
  }

  function NorthTarget(m: Model, large: real, l: nat, i: int, j: int): seq<Target>
    requires l < |m.layers|
  {
    [Target(i * m.nc + j - m.nc + l * m.nr * m.nc, OrLarge(i > 0, m.layers[l].ry, large))]
  }

  function SouthTarget(m: Model, large: real, l: nat, i: int, j: int): seq<Target>
    requires l < |m.layers|
  {
    [Target(i * m.nc + j + m.nc + l * m.nr * m.nc, OrLarge(i < m.nr - 1, m.layers[l].ry, large))]
  }

  function WestTarget(m: Model, large: real, l: nat, i: int, j: int): seq<Target>
    requires l < |m.layers|
  {
    [Target(i * m.nc + j - 1 + l * m.nr * m.nc, OrLarge(j > 0, m.layers[l].rx, large))]
  }

  function EastTarget(m: Model, large: real, l: nat, i: int, j: int): seq<Target>
    requires l < |m.layers|
  {
    [Target(i * m.nc + j + 1 + l * m.nr * m.nc, OrLarge(j < m.nc - 1, m.layers[l].rx, large))]
  }

  function BelowTarget(m: Model, l: nat, i: int, j: int): seq<Target>
    requires l < |m.layers|
  {
    if l < |m.layers| - 1 then [Target(i * m.nc + j + m.nr * m.nc + l * m.nr * m.nc, m.layers[l].rz)] else []
  }

  function AboveTarget(m: Model, l: nat, i: int, j: int): seq<Target>
    requires l < |m.layers|
  {
    if l > 0 then [Target(i * m.nc + j - m.nr * m.nc + l * m.nr * m.nc, m.layers[l - 1].rz)] else []
  }

  function SideTarget(m: Model, l: nat, side: Side): seq<Target>
    requires l < |m.layers|
  {
    if Ringed(m, l) then [Target(|m.layers| * m.nr * m.nc + At(RingAt(m, l), side), EdgeResistance(m, l, side))] else []
  }

  function VerticalTarget(m: Model, l: nat, i: int, j: int): seq<Target>
    requires l < |m.layers|
  {
    BelowTarget(m, l, i, j) + AboveTarget(m, l, i, j)
  }

  /** A corner: two neighbours in the layer, and two sides. */
  function CornerTargets(m: Model, large: real, l: nat, i: int, j: int, north: bool, west: bool): seq<Target>
    requires l < |m.layers|
  {
    (if west then EastTarget(m, large, l, i, j) else WestTarget(m, large, l, i, j)) +
    (if north then SouthTarget(m, large, l, i, j) else NorthTarget(m, large, l, i, j)) + VerticalTarget(m, l, i, j) +
    SideTarget(m, l, if north then OnNorth else OnSouth) + SideTarget(m, l, if west then OnWest else OnEast)
  }

  /** The first or the last row: three neighbours, and one side. */
  function RowTargets(m: Model, large: real, l: nat, i: int, j: int, north: bool): seq<Target>
    requires l < |m.layers|
  {
    WestTarget(m, large, l, i, j) + EastTarget(m, large, l, i, j) +
    (if north then SouthTarget(m, large, l, i, j) else NorthTarget(m, large, l, i, j)) + VerticalTarget(m, l, i, j) +
    SideTarget(m, l, if north then OnNorth else OnSouth)
  }

  /** The first or the last column. */
  function ColumnTargets(m: Model, large: real, l: nat, i: int, j: int, west: bool): seq<Target>
    requires l < |m.layers|
  {
    NorthTarget(m, large, l, i, j) + SouthTarget(m, large, l, i, j) +
    (if west then EastTarget(m, large, l, i, j) else WestTarget(m, large, l, i, j)) + VerticalTarget(m, l, i, j) +
    SideTarget(m, l, if west then OnWest else OnEast)
  }

  function InsideTargets(m: Model, large: real, l: nat, i: int, j: int): seq<Target>
    requires l < |m.layers|
  {
    NorthTarget(m, large, l, i, j) + SouthTarget(m, large, l, i, j) + WestTarget(m, large, l, i, j) +
    EastTarget(m, large, l, i, j) +
    VerticalTarget(m, l, i, j)
  }

  /** The nine cases, told apart by the number of the cell in its layer. */
  function CellTargets(m: Model, large: real, l: nat, i: int, j: int): seq<Target>
    requires l < |m.layers| && m.nc > 0
  {
    var g := i * m.nc + j;
    if g == 0 then CornerTargets(m, large, l, i, j, true, true)
    else if g == m.nc - 1 then CornerTargets(m, large, l, i, j, true, false)
    else if g == m.nr * m.nc - m.nc then CornerTargets(m, large, l, i, j, false, true)
    else if g == m.nr * m.nc - 1 then CornerTargets(m, large, l, i, j, false, false)
    else if g > 0 && g < m.nc - 1 then RowTargets(m, large, l, i, j, true)
    else if g > m.nr * m.nc - m.nc && g < m.nr * m.nc - 1 then RowTargets(m, large, l, i, j, false)
    else if g % m.nc == 0 then ColumnTargets(m, large, l, i, j, true)
    else if (g + 1) % m.nc == 0 then ColumnTargets(m, large, l, i, j, false)
    else InsideTargets(m, large, l, i, j)
  }

  function CellRow(m: Model, large: real, l: nat, i: int, j: int): seq<Coo>
    requires Tall(m) && m.nc > 0 && IsNode(m, Cell(l, i, j))
  {
    RowEntriesOf(Index(m, Cell(l, i, j)), CellTargets(m, large, l, i, j), Amb(m, Cell(l, i, j)))
  }

  /** What is known while the row of a cell is emitted. */
  ghost predicate InCell(m: Model, large: real, l: nat, i: int, j: int) {
    Proper(m) && large > 0.0 && IsNode(m, Cell(l, i, j))
  }

  method EmitNorth(m: Model, large: real, l: nat, i: nat, j: nat, entries: seq<Coo>, dia: real, ghost start: seq<Coo>,
                   ghost ts: seq<Target>)
    returns (entries': seq<Coo>, dia': real)
    requires InCell(m, large, l, i, j) && Emitting(start, Index(m, Cell(l, i, j)), ts, entries, dia)
    ensures Emitting(start, Index(m, Cell(l, i, j)), ts + NorthTarget(m, large, l, i, j), entries', dia')
  {
    hide Emitting;
    var off := l * m.nr * m.nc;
    entries', dia' := Emit(i * m.nc + j + off, i * m.nc + j - m.nc + off, if i > 0 then m.layers[l].ry else large,
                           entries, dia, start, ts);
  }

  method EmitSouth(m: Model, large: real, l: nat, i: nat, j: nat, entries: seq<Coo>, dia: real, ghost start: seq<Coo>,
                   ghost ts: seq<Target>)
    returns (entries': seq<Coo>, dia': real)
    requires InCell(m, large, l, i, j) && Emitting(start, Index(m, Cell(l, i, j)), ts, entries, dia)
    ensures Emitting(start, Index(m, Cell(l, i, j)), ts + SouthTarget(m, large, l, i, j), entries', dia')
  {
    hide Emitting;
    var off := l * m.nr * m.nc;
    entries', dia' := Emit(i * m.nc + j + off, i * m.nc + j + m.nc + off,
                           if i < m.nr - 1 then m.layers[l].ry else large, entries, dia, start, ts);
  }

  method EmitWest(m: Model, large: real, l: nat, i: nat, j: nat, entries: seq<Coo>, dia: real, ghost start: seq<Coo>,
                  ghost ts: seq<Target>)
    returns (entries': seq<Coo>, dia': real)
    requires InCell(m, large, l, i, j) && Emitting(start, Index(m, Cell(l, i, j)), ts, entries, dia)
    ensures Emitting(start, Index(m, Cell(l, i, j)), ts + WestTarget(m, large, l, i, j), entries', dia')
  {
    hide Emitting;
    var off := l * m.nr * m.nc;
    entries', dia' := Emit(i * m.nc + j + off, i * m.nc + j - 1 + off, if j > 0 then m.layers[l].rx else large, entries,
                           dia, start, ts);
  }

  method EmitEast(m: Model, large: real, l: nat, i: nat, j: nat, entries: seq<Coo>, dia: real, ghost start: seq<Coo>,
                  ghost ts: seq<Target>)
    returns (entries': seq<Coo>, dia': real)
    requires InCell(m, large, l, i, j) && Emitting(start, Index(m, Cell(l, i, j)), ts, entries, dia)
    ensures Emitting(start, Index(m, Cell(l, i, j)), ts + EastTarget(m, large, l, i, j), entries', dia')
  {
    hide Emitting;
    var off := l * m.nr * m.nc;
    entries', dia' := Emit(i * m.nc + j + off, i * m.nc + j + 1 + off, if j < m.nc - 1 then m.layers[l].rx else large,
                           entries, dia, start, ts);
  }

  /** The layers below and above. */
  method EmitVertical(m: Model, large: real, l: nat, i: nat, j: nat, entries: seq<Coo>, dia: real,
                      ghost start: seq<Coo>, ghost ts: seq<Target>)
    returns (entries': seq<Coo>, dia': real)
    requires InCell(m, large, l, i, j) && Emitting(start, Index(m, Cell(l, i, j)), ts, entries, dia)
    ensures Emitting(start, Index(m, Cell(l, i, j)), ts + VerticalTarget(m, l, i, j), entries', dia')
  {
    hide Emitting;
    var off := l * m.nr * m.nc;
    var g := i * m.nc + j;
    entries', dia' := entries, dia;
    ghost var now := ts;
    if l < |m.layers| - 1 {
      entries', dia' := Emit(g + off, g + m.nr * m.nc + off, m.layers[l].rz, entries', dia', start, now);
      now := now + [Target(g + m.nr * m.nc + off, m.layers[l].rz)];
    }
    assert now == ts + BelowTarget(m, l, i, j);
    if l > 0 {
      entries', dia' := Emit(g + off, g - m.nr * m.nc + off, m.layers[l - 1].rz, entries', dia', start, now);
      now := now + [Target(g - m.nr * m.nc + off, m.layers[l - 1].rz)];
    }
    assert now == ts + (BelowTarget(m, l, i, j) + AboveTarget(m, l, i, j));
  }

  /** The resistance from an edge cell to the node of its layer's ring, as it is written here. */
  method EdgeInMatrix(m: Model, l: nat, side: Side, x1: real, y1: real) returns (r: real)
    requires Tall(m) && l < |m.layers| && Ringed(m, l) && RimOfLayer(m, l, x1, y1)
    ensures r == EdgeResistance(m, l, side)
  {
    EdgeWritten(m, l, side, x1, y1);
    r := Along(side, m.layers[l].rx / 2.0 + m.nr as real * x1, m.layers[l].ry / 2.0 + m.nc as real * y1);
  }

  /** The node of the layer's ring on one side. */
  method EmitSide(m: Model, large: real, l: nat, i: nat, j: nat, side: Side, entries: seq<Coo>, dia: real,
                  ghost start: seq<Coo>, ghost ts: seq<Target>)
    returns (entries': seq<Coo>, dia': real)
    requires InCell(m, large, l, i, j) && Emitting(start, Index(m, Cell(l, i, j)), ts, entries, dia)
    ensures Emitting(start, Index(m, Cell(l, i, j)), ts + SideTarget(m, l, side), entries', dia')
  {
    hide Emitting, EdgeResistance;
    entries', dia' := entries, dia;
    if Ringed(m, l) {
      RingNode(m, l, side);
      var x1, y1 := m.pack.rPcb1X, m.pack.rPcb1Y;
      if l == SpIdx(m) {
        x1, y1 := m.pack.rSp1X, m.pack.rSp1Y;
      } else if l == HsIdx(m) {
        x1, y1 := m.pack.rHs1X, m.pack.rHs1Y;
      } else if l == LAYER_SUB {
        x1, y1 := m.pack.rSub1X, m.pack.rSub1Y;
      } else if l == LAYER_SOLDER {
        x1, y1 := m.pack.rSolder1X, m.pack.rSolder1Y;
      }
      var r := EdgeInMatrix(m, l, side, x1, y1);
      entries', dia' := Emit(i * m.nc + j + l * m.nr * m.nc, |m.layers| * m.nr * m.nc + At(RingAt(m, l), side), r,
                             entries', dia', start, ts);
    } else {
      assert ts + SideTarget(m, l, side) == ts;
    }
  }

  /** The conductance of a cell to ambient. */
  method CellAmbient(m: Model, l: nat, i: nat, j: nat) returns (amb: real)
    requires Proper(m) && IsNode(m, Cell(l, i, j))
    ensures amb == Amb(m, Cell(l, i, j))
  {
    hide BoardResistance, PrimaryPositive, SecondaryPositive;
    amb := 0.0;
    if l == HsIdx(m) {
      amb := 1.0 / m.layers[l].rz;
    } else if m.secondary && l == LAYER_PCB {
      amb := 1.0 / BoardToAmbient(m);
    }
  }

  method EmitCorner(m: Model, large: real, l: nat, i: nat, j: nat, entries: seq<Coo>, north: bool, west: bool)
    returns (entries': seq<Coo>, dia: real)
    requires InCell(m, large, l, i, j)
    ensures Emitting(entries, Index(m, Cell(l, i, j)), CornerTargets(m, large, l, i, j, north, west), entries', dia)
  {
    hide NorthTarget, SouthTarget, WestTarget, EastTarget, VerticalTarget, SideTarget, Emitting, Index, PrimaryPositive,
         SecondaryPositive;
    dia := 0.0;
    ghost var ts: seq<Target> := [];
    entries' := entries;
    NothingEmitted(entries, Index(m, Cell(l, i, j)));
    if west {
      entries', dia := EmitEast(m, large, l, i, j, entries', dia, entries, ts);
      ts := ts + EastTarget(m, large, l, i, j);
    } else {
      entries', dia := EmitWest(m, large, l, i, j, entries', dia, entries, ts);
      ts := ts + WestTarget(m, large, l, i, j);
    }
    if north {
      entries', dia := EmitSouth(m, large, l, i, j, entries', dia, entries, ts);
      ts := ts + SouthTarget(m, large, l, i, j);
    } else {
      entries', dia := EmitNorth(m, large, l, i, j, entries', dia, entries, ts);
      ts := ts + NorthTarget(m, large, l, i, j);
    }
    entries', dia := EmitVertical(m, large, l, i, j, entries', dia, entries, ts);
    ts := ts + VerticalTarget(m, l, i, j);
    entries', dia := EmitSide(m, large, l, i, j, if north then OnNorth else OnSouth, entries', dia, entries, ts);
    ts := ts + SideTarget(m, l, if north then OnNorth else OnSouth);
    entries', dia := EmitSide(m, large, l, i, j, if west then OnWest else OnEast, entries', dia, entries, ts);
    ts := ts + SideTarget(m, l, if west then OnWest else OnEast);
    assert ts == CornerTargets(m, large, l, i, j, north, west);
  }

  method EmitRow(m: Model, large: real, l: nat, i: nat, j: nat, entries: seq<Coo>, north: bool)
    returns (entries': seq<Coo>, dia: real)
    requires InCell(m, large, l, i, j)
    ensures Emitting(entries, Index(m, Cell(l, i, j)), RowTargets(m, large, l, i, j, north), entries', dia)
  {
    hide NorthTarget, SouthTarget, WestTarget, EastTarget, VerticalTarget, SideTarget, Emitting, Index, PrimaryPositive,
         SecondaryPositive;
    dia := 0.0;
    ghost var ts: seq<Target> := [];
    entries' := entries;
    NothingEmitted(entries, Index(m, Cell(l, i, j)));
    entries', dia := EmitWest(m, large, l, i, j, entries', dia, entries, ts);
    ts := ts + WestTarget(m, large, l, i, j);
    entries', dia := EmitEast(m, large, l, i, j, entries', dia, entries, ts);
    ts := ts + EastTarget(m, large, l, i, j);
    if north {
      entries', dia := EmitSouth(m, large, l, i, j, entries', dia, entries, ts);
      ts := ts + SouthTarget(m, large, l, i, j);
    } else {
      entries', dia := EmitNorth(m, large, l, i, j, entries', dia, entries, ts);
      ts := ts + NorthTarget(m, large, l, i, j);
    }
    entries', dia := EmitVertical(m, large, l, i, j, entries', dia, entries, ts);
    ts := ts + VerticalTarget(m, l, i, j);
    entries', dia := EmitSide(m, large, l, i, j, if north then OnNorth else OnSouth, entries', dia, entries, ts);
    ts := ts + SideTarget(m, l, if north then OnNorth else OnSouth);
    assert ts == RowTargets(m, large, l, i, j, north);
  }

  method EmitColumn(m: Model, large: real, l: nat, i: nat, j: nat, entries: seq<Coo>, west: bool)
    returns (entries': seq<Coo>, dia: real)
    requires InCell(m, large, l, i, j)
    ensures Emitting(entries, Index(m, Cell(l, i, j)), ColumnTargets(m, large, l, i, j, west), entries', dia)
  {
    hide NorthTarget, SouthTarget, WestTarget, EastTarget, VerticalTarget, SideTarget, Emitting, Index, PrimaryPositive,
         SecondaryPositive;
    dia := 0.0;
    ghost var ts: seq<Target> := [];
    entries' := entries;
    NothingEmitted(entries, Index(m, Cell(l, i, j)));
    entries', dia := EmitNorth(m, large, l, i, j, entries', dia, entries, ts);
    ts := ts + NorthTarget(m, large, l, i, j);
    entries', dia := EmitSouth(m, large, l, i, j, entries', dia, entries, ts);
    ts := ts + SouthTarget(m, large, l, i, j);
    if west {
      entries', dia := EmitEast(m, large, l, i, j, entries', dia, entries, ts);
      ts := ts + EastTarget(m, large, l, i, j);
    } else {
      entries', dia := EmitWest(m, large, l, i, j, entries', dia, entries, ts);
      ts := ts + WestTarget(m, large, l, i, j);
    }
    entries', dia := EmitVertical(m, large, l, i, j, entries', dia, entries, ts);
    ts := ts + VerticalTarget(m, l, i, j);
    entries', dia := EmitSide(m, large, l, i, j, if west then OnWest else OnEast, entries', dia, entries, ts);
    ts := ts + SideTarget(m, l, if west then OnWest else OnEast);
    assert ts == ColumnTargets(m, large, l, i, j, west);
  }

  method EmitInside(m: Model, large: real, l: nat, i: nat, j: nat, entries: seq<Coo>)
    returns (entries': seq<Coo>, dia: real)
    requires InCell(m, large, l, i, j)
    ensures Emitting(entries, Index(m, Cell(l, i, j)), InsideTargets(m, large, l, i, j), entries', dia)
  {
    hide NorthTarget, SouthTarget, WestTarget, EastTarget, VerticalTarget, SideTarget, Emitting, Index, PrimaryPositive,
         SecondaryPositive;
    dia := 0.0;
    ghost var ts: seq<Target> := [];
    entries' := entries;
    NothingEmitted(entries, Index(m, Cell(l, i, j)));
    entries', dia := EmitNorth(m, large, l, i, j, entries', dia, entries, ts);
    ts := ts + NorthTarget(m, large, l, i, j);
    entries', dia := EmitSouth(m, large, l, i, j, entries', dia, entries, ts);
    ts := ts + SouthTarget(m, large, l, i, j);
    entries', dia := EmitWest(m, large, l, i, j, entries', dia, entries, ts);
    ts := ts + WestTarget(m, large, l, i, j);
    entries', dia := EmitEast(m, large, l, i, j, entries', dia, entries, ts);
    ts := ts + EastTarget(m, large, l, i, j);
    entries', dia := EmitVertical(m, large, l, i, j, entries', dia, entries, ts);
    ts := ts + VerticalTarget(m, l, i, j);
    assert ts == InsideTargets(m, large, l, i, j);
  }

  /** The row of a cell. */
  method EmitCell(m: Model, large: real, l: nat, i: nat, j: nat, entries: seq<Coo>) returns (entries': seq<Coo>)
    requires InCell(m, large, l, i, j)
    ensures entries' == entries + CellRow(m, large, l, i, j)
  {
    hide CornerTargets, RowTargets, ColumnTargets, InsideTargets, Emitting, RowEntriesOf, Index, Amb, PrimaryPositive,
         SecondaryPositive;
    var g := i * m.nc + j;
    var dia;
    if g == 0 {
      entries', dia := EmitCorner(m, large, l, i, j, entries, true, true);
    } else if g == m.nc - 1 {
      entries', dia := EmitCorner(m, large, l, i, j, entries, true, false);
    } else if g == m.nr * m.nc - m.nc {
      entries', dia := EmitCorner(m, large, l, i, j, entries, false, true);
    } else if g == m.nr * m.nc - 1 {
      entries', dia := EmitCorner(m, large, l, i, j, entries, false, false);
    } else if g > 0 && g < m.nc - 1 {
      entries', dia := EmitRow(m, large, l, i, j, entries, true);
    } else if g > m.nr * m.nc - m.nc && g < m.nr * m.nc - 1 {
      entries', dia := EmitRow(m, large, l, i, j, entries, false);
    } else if g % m.nc == 0 {
      entries', dia := EmitColumn(m, large, l, i, j, entries, true);
    } else if (g + 1) % m.nc == 0 {
      entries', dia := EmitColumn(m, large, l, i, j, entries, false);
    } else {
      entries', dia := EmitInside(m, large, l, i, j, entries);
    }
    var amb := CellAmbient(m, l, i, j);
    entries' := EmitDiagonal(CellNumber(m, l, i, j), amb, entries', dia, entries, CellTargets(m, large, l, i, j));
  }

  /** grididx + xoffset. */
  function CellNumber(m: Model, l: nat, i: nat, j: nat): (x: int)
    ensures x == Index(m, Cell(l, i, j))
  {
    i * m.nc + j + l * m.nr * m.nc
  }

  // ----- on grids of two rows and columns or more -----

  lemma LateralTargets(m: Model, large: real, l: nat, i: int, j: int)
    requires IsNode(m, Cell(l, i, j))
    ensures i > 0 ==> NorthTarget(m, large, l, i, j) == AsTargets(m, North(m, l, i, j))
    ensures i < m.nr - 1 ==> SouthTarget(m, large, l, i, j) == AsTargets(m, South(m, l, i, j))
    ensures j > 0 ==> WestTarget(m, large, l, i, j) == AsTargets(m, West(m, l, i, j))
    ensures j < m.nc - 1 ==> EastTarget(m, large, l, i, j) == AsTargets(m, East(m, l, i, j))
  {
    assert (i - 1) * m.nc == i * m.nc - m.nc && (i + 1) * m.nc == i * m.nc + m.nc;
  }

  lemma VerticalTargets(m: Model, l: nat, i: int, j: int)
    requires IsNode(m, Cell(l, i, j))
    ensures BelowTarget(m, l, i, j) == AsTargets(m, Below(m, l, i, j))
    ensures AboveTarget(m, l, i, j) == AsTargets(m, Above(m, l, i, j))
  {
    assert (l + 1) * m.nr * m.nc == l * m.nr * m.nc + m.nr * m.nc by {
      assert (l + 1) * m.nr == l * m.nr + m.nr;
    }
    assert (l - 1) * m.nr * m.nc == l * m.nr * m.nc - m.nr * m.nc by {
      assert (l - 1) * m.nr == l * m.nr - m.nr;
    }
  }

  lemma SideTargets(m: Model, l: nat, side: Side, i: int, j: int)
    requires IsNode(m, Cell(l, i, j)) && AtEdge(m, side, i, j)
    ensures SideTarget(m, l, side) == AsTargets(m, SideList(m, l, side, i, j))
  {
    hide EdgeResistance;
  }

  lemma SixTargets(m: Model, a: seq<Link>, b: seq<Link>, c: seq<Link>, d: seq<Link>, e: seq<Link>, f: seq<Link>)
    ensures AsTargets(m, a + b + c + d + e + f) ==
            AsTargets(m, a) + AsTargets(m, b) + AsTargets(m, c) + AsTargets(m, d) + AsTargets(m, e) + AsTargets(m, f)
  {
    hide AsTargets;
    TargetsConcat(m, a + b + c + d + e, f);
    TargetsConcat(m, a + b + c + d, e);
    TargetsConcat(m, a + b + c, d);
    TargetsConcat(m, a + b, c);
    TargetsConcat(m, a, b);
  }

  /** What is known of the parts of a row where the cell has its neighbours. */
  lemma PartTargets(m: Model, large: real, l: nat, i: int, j: int)
    requires IsNode(m, Cell(l, i, j))
    ensures i > 0 ==> NorthTarget(m, large, l, i, j) == AsTargets(m, North(m, l, i, j))
    ensures i < m.nr - 1 ==> SouthTarget(m, large, l, i, j) == AsTargets(m, South(m, l, i, j))
    ensures j > 0 ==> WestTarget(m, large, l, i, j) == AsTargets(m, West(m, l, i, j))
    ensures j < m.nc - 1 ==> EastTarget(m, large, l, i, j) == AsTargets(m, East(m, l, i, j))
    ensures VerticalTarget(m, l, i, j) == AsTargets(m, Below(m, l, i, j)) + AsTargets(m, Above(m, l, i, j))
    ensures i == 0 ==> SideTarget(m, l, OnNorth) == AsTargets(m, SideList(m, l, OnNorth, i, j))
    ensures i == m.nr - 1 ==> SideTarget(m, l, OnSouth) == AsTargets(m, SideList(m, l, OnSouth, i, j))
    ensures j == 0 ==> SideTarget(m, l, OnWest) == AsTargets(m, SideList(m, l, OnWest, i, j))
    ensures j == m.nc - 1 ==> SideTarget(m, l, OnEast) == AsTargets(m, SideList(m, l, OnEast, i, j))
  {
    LateralTargets(m, large, l, i, j);
    VerticalTargets(m, l, i, j);
    hide NorthTarget, SouthTarget, WestTarget, EastTarget, BelowTarget, AboveTarget, SideTarget, SideList, AsTargets,
         North, South, East, West, Below, Above;
    forall side: Side | AtEdge(m, side, i, j)
      ensures SideTarget(m, l, side) == AsTargets(m, SideList(m, l, side, i, j))
    {
      SideTargets(m, l, side, i, j);
    }
  }

  lemma NorthWestLinks(m: Model, large: real, l: nat)
    requires Broad(m) && l < |m.layers|
    ensures var i, j := 0, 0;
            CornerTargets(m, large, l, i, j, true, true) == AsTargets(m, BuildLinks(m, l, i, j))
  {
    var i, j := 0, 0;
    NumberTells(m.nr, m.nc, i, j);
    hide NorthTarget, SouthTarget, WestTarget, EastTarget, VerticalTarget, SideTarget, AsTargets,
         North, South, West, East, Below, Above, SideList, PrimaryPositive, SecondaryPositive;
    PartTargets(m, large, l, i, j);
    SixTargets(m, East(m, l, i, j), South(m, l, i, j), Below(m, l, i, j), Above(m, l, i, j),
               SideList(m, l, OnNorth, i, j), SideList(m, l, OnWest, i, j));
  }

  lemma NorthEastBuilt(m: Model, l: nat)
    requires Broad(m) && l < |m.layers|
    ensures var i, j := 0, m.nc - 1;
            BuildLinks(m, l, i, j) == West(m, l, i, j) + South(m, l, i, j) + Below(m, l, i, j) + Above(m, l, i, j) +
                                      SideList(m, l, OnNorth, i, j) + SideList(m, l, OnEast, i, j)
  {
    NumberTells(m.nr, m.nc, 0, m.nc - 1);
    hide North, South, West, East, Below, Above, SideList, PrimaryPositive, SecondaryPositive;
  }

  lemma NorthEastLinks(m: Model, large: real, l: nat)
    requires Broad(m) && l < |m.layers|
    ensures var i, j := 0, m.nc - 1;
            CornerTargets(m, large, l, i, j, true, false) == AsTargets(m, BuildLinks(m, l, i, j))
  {
    var i, j := 0, m.nc - 1;
    NorthEastBuilt(m, l);
    hide NorthTarget, SouthTarget, WestTarget, EastTarget, VerticalTarget, SideTarget, AsTargets, BuildLinks,
         North, South, West, East, Below, Above, SideList, PrimaryPositive, SecondaryPositive;
    PartTargets(m, large, l, i, j);
    SixTargets(m, West(m, l, i, j), South(m, l, i, j), Below(m, l, i, j), Above(m, l, i, j),
               SideList(m, l, OnNorth, i, j), SideList(m, l, OnEast, i, j));
  }

  lemma SouthWestLinks(m: Model, large: real, l: nat)
    requires Broad(m) && l < |m.layers|
    ensures var i, j := m.nr - 1, 0;
            CornerTargets(m, large, l, i, j, false, true) == AsTargets(m, BuildLinks(m, l, i, j))
  {
    var i, j := m.nr - 1, 0;
    NumberTells(m.nr, m.nc, i, j);
    hide NorthTarget, SouthTarget, WestTarget, EastTarget, VerticalTarget, SideTarget, AsTargets,
         North, South, West, East, Below, Above, SideList, PrimaryPositive, SecondaryPositive;
    PartTargets(m, large, l, i, j);
    SixTargets(m, East(m, l, i, j), North(m, l, i, j), Below(m, l, i, j), Above(m, l, i, j),
               SideList(m, l, OnSouth, i, j), SideList(m, l, OnWest, i, j));
  }

  lemma SouthEastLinks(m: Model, large: real, l: nat)
    requires Broad(m) && l < |m.layers|
    ensures var i, j := m.nr - 1, m.nc - 1;
            CornerTargets(m, large, l, i, j, false, false) == AsTargets(m, BuildLinks(m, l, i, j))
  {
    var i, j := m.nr - 1, m.nc - 1;
    NumberTells(m.nr, m.nc, i, j);
    hide NorthTarget, SouthTarget, WestTarget, EastTarget, VerticalTarget, SideTarget, AsTargets,
         North, South, West, East, Below, Above, SideList, PrimaryPositive, SecondaryPositive;
    PartTargets(m, large, l, i, j);
    SixTargets(m, West(m, l, i, j), North(m, l, i, j), Below(m, l, i, j), Above(m, l, i, j),
               SideList(m, l, OnSouth, i, j), SideList(m, l, OnEast, i, j));
  }

  lemma CornerLinks(m: Model, large: real, l: nat, i: int, j: int)
    requires Broad(m) && IsNode(m, Cell(l, i, j)) && (i == 0 || i == m.nr - 1) && (j == 0 || j == m.nc - 1)
    ensures CornerTargets(m, large, l, i, j, i == 0, j == 0) == AsTargets(m, BuildLinks(m, l, i, j))
  {
    hide CornerTargets, BuildLinks, AsTargets, PrimaryPositive, SecondaryPositive;
    if i == 0 && j == 0 {
      NorthWestLinks(m, large, l);
    } else if i == 0 {
      NorthEastLinks(m, large, l);
    } else if j == 0 {
      SouthWestLinks(m, large, l);
    } else {
      SouthEastLinks(m, large, l);
    }
  }

  lemma RowLinks(m: Model, large: real, l: nat, i: int, j: int)
    requires Broad(m) && IsNode(m, Cell(l, i, j)) && (i == 0 || i == m.nr - 1) && 0 < j < m.nc - 1
    ensures RowTargets(m, large, l, i, j, i == 0) == AsTargets(m, BuildLinks(m, l, i, j))
  {
    NumberTells(m.nr, m.nc, i, j);
    hide NorthTarget, SouthTarget, WestTarget, EastTarget, VerticalTarget, SideTarget, AsTargets,
         North, South, West, East, Below, Above, SideList, PrimaryPositive, SecondaryPositive;
    PartTargets(m, large, l, i, j);
    SixTargets(m, West(m, l, i, j), East(m, l, i, j), if i == 0 then South(m, l, i, j) else North(m, l, i, j),
               Below(m, l, i, j), Above(m, l, i, j), SideList(m, l, if i == 0 then OnNorth else OnSouth, i, j));
  }

  lemma ColumnLinks(m: Model, large: real, l: nat, i: int, j: int)
    requires Broad(m) && IsNode(m, Cell(l, i, j)) && 0 < i < m.nr - 1 && (j == 0 || j == m.nc - 1)
    ensures ColumnTargets(m, large, l, i, j, j == 0) == AsTargets(m, BuildLinks(m, l, i, j))
  {
    NumberTells(m.nr, m.nc, i, j);
    hide NorthTarget, SouthTarget, WestTarget, EastTarget, VerticalTarget, SideTarget, AsTargets,
         North, South, West, East, Below, Above, SideList, PrimaryPositive, SecondaryPositive;
    PartTargets(m, large, l, i, j);
    SixTargets(m, North(m, l, i, j), South(m, l, i, j), if j == 0 then East(m, l, i, j) else West(m, l, i, j),
               Below(m, l, i, j), Above(m, l, i, j), SideList(m, l, if j == 0 then OnWest else OnEast, i, j));
  }

  lemma InsideLinks(m: Model, large: real, l: nat, i: int, j: int)
    requires Broad(m) && IsNode(m, Cell(l, i, j)) && 0 < i < m.nr - 1 && 0 < j < m.nc - 1
    ensures InsideTargets(m, large, l, i, j) == AsTargets(m, BuildLinks(m, l, i, j))
  {
    NumberTells(m.nr, m.nc, i, j);
    hide NorthTarget, SouthTarget, WestTarget, EastTarget, VerticalTarget, SideTarget, AsTargets,
         North, South, West, East, Below, Above, SideList, PrimaryPositive, SecondaryPositive;
    PartTargets(m, large, l, i, j);
    SixTargets(m, North(m, l, i, j), South(m, l, i, j), West(m, l, i, j), East(m, l, i, j), Below(m, l, i, j),
               Above(m, l, i, j));
  }

  /** Then the columns of a cell's row are the places of its neighbours, and no resistance is LARGENUM. */
  lemma TargetsAreLinks(m: Model, large: real, l: nat, i: int, j: int)
    requires Broad(m) && IsNode(m, Cell(l, i, j))
    ensures CellTargets(m, large, l, i, j) == AsTargets(m, BuildLinks(m, l, i, j))
  {
    NumberTells(m.nr, m.nc, i, j);
    hide CornerTargets, RowTargets, ColumnTargets, InsideTargets, BuildLinks, AsTargets, PrimaryPositive,
         SecondaryPositive;
    if (i == 0 || i == m.nr - 1) && (j == 0 || j == m.nc - 1) {
      CornerLinks(m, large, l, i, j);
    } else if i == 0 || i == m.nr - 1 {
      RowLinks(m, large, l, i, j);
    } else if j == 0 || j == m.nc - 1 {
      ColumnLinks(m, large, l, i, j);
    } else {
      InsideLinks(m, large, l, i, j);
    }
  }

  /** So the row is the block of the cell. */
  lemma CellRowIsBlock(m: Model, large: real, l: nat, i: int, j: int)
    requires Broad(m) && IsNode(m, Cell(l, i, j))
    ensures CellRow(m, large, l, i, j) == NodeBlock(m, Cell(l, i, j))
  {
    hide CellTargets, BuildLinks, Amb, Index, RowEntriesOf, AsTargets, Block, PrimaryPositive, SecondaryPositive;
    TargetsAreLinks(m, large, l, i, j);
    BlockIsRow(m, Cell(l, i, j), BuildLinks(m, l, i, j), Amb(m, Cell(l, i, j)));
  }

  // ----- the rows of the nodes around the grid -----

  function InnerTarget(m: Model, ring: Ring, side: Side): seq<Target> {
    if HasInner(ring) then
      [Target(|m.layers| * m.nr * m.nc + At(InnerOf(ring), side), OuterResistance(m, InnerOf(ring), side))]
    else []
  }

  function OuterTarget(m: Model, ring: Ring, side: Side): seq<Target> {
    if HasOuter(ring) then [Target(|m.layers| * m.nr * m.nc + At(OuterOf(ring), side), OuterResistance(m, ring, side))]
    else []
  }

  function RingTargetsOf(m: Model, ring: Ring, side: Side): seq<Target>
    requires Tall(m) && Present(m, ring)
  {
    AsTargets(m, RingCells(m, ring, side)) + InnerTarget(m, ring, side) + OuterTarget(m, ring, side)
  }

  /** What the row of a node has to be, part by part. */
  lemma RingRow(m: Model, ring: Ring, side: Side)
    requires Proper(m) && Present(m, ring)
    ensures NodeBlock(m, Extra(At(ring, side))) ==
            RowEntriesOf(|m.layers| * m.nr * m.nc + At(ring, side), RingTargetsOf(m, ring, side),
                         if HasAmbient(ring) then Inverse(AmbientResistance(m, ring, side)) else 0.0)
  {
    hide RingCells, OuterResistance, AmbientResistance, Amb, Block, RowEntriesOf, PrimaryPositive, SecondaryPositive;
    RingAndSide(ring, side);
    RingAmbient(m, ring, side);
    var x := Extra(At(ring, side));
    var c, i, o := RingCells(m, ring, side), InnerLink(m, ring, side), OuterLink(m, ring, side);
    TargetsConcat(m, c + i, o);
    TargetsConcat(m, c, i);
    assert AsTargets(m, i) == InnerTarget(m, ring, side);
    assert AsTargets(m, o) == OuterTarget(m, ring, side);
    BlockIsRow(m, x, RingLinks(m, ring, side), Amb(m, x));
  }

  /** The resistances that occur in the row of a node. */
  lemma RingResistances(m: Model, ring: Ring, side: Side)
    requires Proper(m) && Present(m, ring)
    ensures HasInner(ring) ==> OuterResistance(m, InnerOf(ring), side) > 0.0
    ensures OuterResistance(m, ring, side) > 0.0 && AmbientResistance(m, ring, side) > 0.0
  {
    RingPositive(m, ring, side);
    if HasInner(ring) {
      RingPositive(m, InnerOf(ring), side);
    }
  }

  /** The loop over the edge cells of a ring's layer. */
  method EmitEdge(m: Model, ring: Ring, side: Side, r: real, x: int, entries: seq<Coo>, dia: real,
                  ghost start: seq<Coo>)
    returns (entries': seq<Coo>, dia': real)
    requires Proper(m) && Present(m, ring) && HasLayer(ring) && Emitting(start, x, [], entries, dia)
    requires 0 <= RingLayer(m, ring) < |m.layers| && r == EdgeResistance(m, RingLayer(m, ring), side)
    ensures Emitting(start, x, AsTargets(m, RingCells(m, ring, side)), entries', dia')
  {
    RingsOfLayers(m, ring);
    var l := RingLayer(m, ring);
    EdgePositive(m, l, side);
    hide Emitting, EdgeResistance, Index, PrimaryPositive, SecondaryPositive;
    entries', dia' := entries, dia;
    ghost var ts := AsTargets(m, RingCells(m, ring, side));
    for k := 0 to SideLength(m, side)
      invariant Emitting(start, x, ts[..k], entries', dia')
    {
      var i := match side case OnNorth => 0 case OnSouth => m.nr - 1 case _ => k;
      var j := match side case OnWest => 0 case OnEast => m.nc - 1 case _ => k;
      assert SideCell(m, l, side, k) == Cell(l, i, j);
      entries', dia' := Emit(x, CellNumber(m, l, i, j), r, entries', dia', start, ts[..k]);
      assert ts[..k + 1] == ts[..k] + [Target(CellNumber(m, l, i, j), r)];
    }
    assert ts[..SideLength(m, side)] == ts;
  }

  /** Outer sink. */
  method EmitSinkOut(m: Model, side: Side, entries: seq<Coo>) returns (entries': seq<Coo>)
    requires Proper(m)
    ensures entries' == entries + NodeBlock(m, Extra(At(SinkOut, side)))
  {
    hide Index, At, Emitting, RowEntriesOf, NodeBlock, AsTargets, PrimaryPositive, SecondaryPositive;
    RingRow(m, SinkOut, side);
    RingResistances(m, SinkOut, side);
    var base := |m.layers| * m.nr * m.nc;
    var x := base + At(SinkOut, side);
    var dia := 0.0;
    ghost var ts: seq<Target> := [];
    entries' := entries;
    NothingEmitted(entries, x);
    entries', dia := Emit(x, base + At(SinkIn, side), Along(side, m.pack.rHs2X, m.pack.rHs2Y) + m.pack.rHs, entries',
                          dia, entries, ts);
    ts := ts + [Target(base + At(SinkIn, side), Along(side, m.pack.rHs2X, m.pack.rHs2Y) + m.pack.rHs)];
    assert ts == RingTargetsOf(m, SinkOut, side);
    entries' := EmitDiagonal(x, 1.0 / (m.pack.rHsPer + m.pack.rAmbPer), entries', dia, entries, ts);
  }

  /** Inner sink: its edge cells, spreader, outer sink. */
  method EmitSinkIn(m: Model, side: Side, entries: seq<Coo>) returns (entries': seq<Coo>)
    requires Proper(m)
    ensures entries' == entries + NodeBlock(m, Extra(At(SinkIn, side)))
  {
    hide Index, At, Emitting, RowEntriesOf, NodeBlock, AsTargets, RingCells, PrimaryPositive, SecondaryPositive;
    var edge := EdgeInMatrix(m, HsIdx(m), side, m.pack.rHs1X, m.pack.rHs1Y);
    RingRow(m, SinkIn, side);
    RingResistances(m, SinkIn, side);
    var base := |m.layers| * m.nr * m.nc;
    var x := base + At(SinkIn, side);
    var dia := 0.0;
    ghost var ts: seq<Target> := [];
    entries' := entries;
    NothingEmitted(entries, x);
    entries', dia := EmitEdge(m, SinkIn, side, edge, x, entries', dia, entries);
    ts := AsTargets(m, RingCells(m, SinkIn, side));
    entries', dia :=
      Emit(x, base + At(SpRing, side), Along(side, m.pack.rSpPerX, m.pack.rSpPerY), entries', dia, entries, ts);
    ts := ts + [Target(base + At(SpRing, side), Along(side, m.pack.rSpPerX, m.pack.rSpPerY))];
    entries', dia := Emit(x, base + At(SinkOut, side), Along(side, m.pack.rHs2X, m.pack.rHs2Y) + m.pack.rHs, entries',
                          dia, entries, ts);
    ts := ts + [Target(base + At(SinkOut, side), Along(side, m.pack.rHs2X, m.pack.rHs2Y) + m.pack.rHs)];
    assert ts == RingTargetsOf(m, SinkIn, side);
    entries' := EmitDiagonal(x, 1.0 / (Along(side, m.pack.rHsCPerX, m.pack.rHsCPerY) +
                                       Along(side, m.pack.rAmbCPerX, m.pack.rAmbCPerY)), entries', dia, entries, ts);
  }

  /** Spreader: its edge cells, inner sink. */
  method EmitSpreader(m: Model, side: Side, entries: seq<Coo>) returns (entries': seq<Coo>)
    requires Proper(m)
    ensures entries' == entries + NodeBlock(m, Extra(At(SpRing, side)))
  {
    hide Index, At, Emitting, RowEntriesOf, NodeBlock, AsTargets, RingCells, PrimaryPositive, SecondaryPositive;
    var edge := EdgeInMatrix(m, SpIdx(m), side, m.pack.rSp1X, m.pack.rSp1Y);
    RingRow(m, SpRing, side);
    RingResistances(m, SpRing, side);
    var base := |m.layers| * m.nr * m.nc;
    var x := base + At(SpRing, side);
    var dia := 0.0;
    ghost var ts: seq<Target> := [];
    entries' := entries;
    NothingEmitted(entries, x);
    entries', dia := EmitEdge(m, SpRing, side, edge, x, entries', dia, entries);
    ts := AsTargets(m, RingCells(m, SpRing, side));
    entries', dia :=
      Emit(x, base + At(SinkIn, side), Along(side, m.pack.rSpPerX, m.pack.rSpPerY), entries', dia, entries, ts);
    ts := ts + [Target(base + At(SinkIn, side), Along(side, m.pack.rSpPerX, m.pack.rSpPerY))];
    assert ts == RingTargetsOf(m, SpRing, side);
    entries' := EmitDiagonal(x, 0.0, entries', dia, entries, ts);
  }

  /** Outer board. */
  method EmitPcbOut(m: Model, side: Side, entries: seq<Coo>) returns (entries': seq<Coo>)
    requires Proper(m) && m.secondary
    ensures entries' == entries + NodeBlock(m, Extra(At(PcbOut, side)))
  {
    hide Index, At, Emitting, RowEntriesOf, NodeBlock, AsTargets, PrimaryPositive, SecondaryPositive;
    RingRow(m, PcbOut, side);
    RingResistances(m, PcbOut, side);
    var base := |m.layers| * m.nr * m.nc;
    var x := base + At(PcbOut, side);
    var dia := 0.0;
    ghost var ts: seq<Target> := [];
    entries' := entries;
    NothingEmitted(entries, x);
    entries', dia := Emit(x, base + At(PcbIn, side), Along(side, m.pack.rPcb2X, m.pack.rPcb2Y) + m.pack.rPcb, entries',
                          dia, entries, ts);
    ts := ts + [Target(base + At(PcbIn, side), Along(side, m.pack.rPcb2X, m.pack.rPcb2Y) + m.pack.rPcb)];
    assert ts == RingTargetsOf(m, PcbOut, side);
    entries' := EmitDiagonal(x, 1.0 / m.pack.rAmbSecPer, entries', dia, entries, ts);
  }

  /** Inner board: its edge cells, solder, outer board. */
  method EmitPcbIn(m: Model, side: Side, entries: seq<Coo>) returns (entries': seq<Coo>)
    requires Proper(m) && m.secondary
    ensures entries' == entries + NodeBlock(m, Extra(At(PcbIn, side)))
  {
    hide Index, At, Emitting, RowEntriesOf, NodeBlock, AsTargets, RingCells, PrimaryPositive, SecondaryPositive;
    var edge := EdgeInMatrix(m, LAYER_PCB, side, m.pack.rPcb1X, m.pack.rPcb1Y);
    RingRow(m, PcbIn, side);
    RingResistances(m, PcbIn, side);
    var base := |m.layers| * m.nr * m.nc;
    var x := base + At(PcbIn, side);
    var dia := 0.0;
    ghost var ts: seq<Target> := [];
    entries' := entries;
    NothingEmitted(entries, x);
    entries', dia := EmitEdge(m, PcbIn, side, edge, x, entries', dia, entries);
    ts := AsTargets(m, RingCells(m, PcbIn, side));
    entries', dia :=
      Emit(x, base + At(SolderRing, side), Along(side, m.pack.rPcbCPerX, m.pack.rPcbCPerY), entries', dia, entries, ts);
    ts := ts + [Target(base + At(SolderRing, side), Along(side, m.pack.rPcbCPerX, m.pack.rPcbCPerY))];
    entries', dia := Emit(x, base + At(PcbOut, side), Along(side, m.pack.rPcb2X, m.pack.rPcb2Y) + m.pack.rPcb, entries',
                          dia, entries, ts);
    ts := ts + [Target(base + At(PcbOut, side), Along(side, m.pack.rPcb2X, m.pack.rPcb2Y) + m.pack.rPcb)];
    assert ts == RingTargetsOf(m, PcbIn, side);
    entries' := EmitDiagonal(x, 1.0 / Along(side, m.pack.rAmbSecCPerX, m.pack.rAmbSecCPerY), entries', dia, entries,
                             ts);
  }

  /** Solder: its edge cells, substrate, inner board. */
  method EmitSolder(m: Model, side: Side, entries: seq<Coo>) returns (entries': seq<Coo>)
    requires Proper(m) && m.secondary
    ensures entries' == entries + NodeBlock(m, Extra(At(SolderRing, side)))
  {
    hide Index, At, Emitting, RowEntriesOf, NodeBlock, AsTargets, RingCells, PrimaryPositive, SecondaryPositive;
    var edge := EdgeInMatrix(m, LAYER_SOLDER, side, m.pack.rSolder1X, m.pack.rSolder1Y);
    RingRow(m, SolderRing, side);
    RingResistances(m, SolderRing, side);
    var base := |m.layers| * m.nr * m.nc;
    var x := base + At(SolderRing, side);
    var dia := 0.0;
    ghost var ts: seq<Target> := [];
    entries' := entries;
    NothingEmitted(entries, x);
    entries', dia := EmitEdge(m, SolderRing, side, edge, x, entries', dia, entries);
    ts := AsTargets(m, RingCells(m, SolderRing, side));
    entries', dia := Emit(x, base + At(SubRing, side), Along(side, m.pack.rSolderPerX, m.pack.rSolderPerY), entries',
                          dia, entries, ts);
    ts := ts + [Target(base + At(SubRing, side), Along(side, m.pack.rSolderPerX, m.pack.rSolderPerY))];
    entries', dia :=
      Emit(x, base + At(PcbIn, side), Along(side, m.pack.rPcbCPerX, m.pack.rPcbCPerY), entries', dia, entries, ts);
    ts := ts + [Target(base + At(PcbIn, side), Along(side, m.pack.rPcbCPerX, m.pack.rPcbCPerY))];
    assert ts == RingTargetsOf(m, SolderRing, side);
    entries' := EmitDiagonal(x, 0.0, entries', dia, entries, ts);
  }

  /** Substrate: its edge cells, solder. */
  method EmitSubstrate(m: Model, side: Side, entries: seq<Coo>) returns (entries': seq<Coo>)
    requires Proper(m) && m.secondary
    ensures entries' == entries + NodeBlock(m, Extra(At(SubRing, side)))
  {
    hide Index, At, Emitting, RowEntriesOf, NodeBlock, AsTargets, RingCells, PrimaryPositive, SecondaryPositive;
    var edge := EdgeInMatrix(m, LAYER_SUB, side, m.pack.rSub1X, m.pack.rSub1Y);
    RingRow(m, SubRing, side);
    RingResistances(m, SubRing, side);
    var base := |m.layers| * m.nr * m.nc;
    var x := base + At(SubRing, side);
    var dia := 0.0;
    ghost var ts: seq<Target> := [];
    entries' := entries;
    NothingEmitted(entries, x);
    entries', dia := EmitEdge(m, SubRing, side, edge, x, entries', dia, entries);
    ts := AsTargets(m, RingCells(m, SubRing, side));
    entries', dia := Emit(x, base + At(SolderRing, side), Along(side, m.pack.rSolderPerX, m.pack.rSolderPerY), entries',
                          dia, entries, ts);
    ts := ts + [Target(base + At(SolderRing, side), Along(side, m.pack.rSolderPerX, m.pack.rSolderPerY))];
    assert ts == RingTargetsOf(m, SubRing, side);
    entries' := EmitDiagonal(x, 0.0, entries', dia, entries, ts);
  }

  method EmitExtra(m: Model, e: nat, entries: seq<Coo>) returns (entries': seq<Coo>)
    requires Proper(m) && e < ExtraCount(m)
    ensures entries' == entries + NodeBlock(m, Extra(e))
  {
    AtRingAndSide(e);
    hide NodeBlock, At, PrimaryPositive, SecondaryPositive;
    var side := SideOf(e);
    match RingOf(e) {
      case SinkOut => entries' := EmitSinkOut(m, side, entries);
      case SinkIn => entries' := EmitSinkIn(m, side, entries);
      case SpRing => entries' := EmitSpreader(m, side, entries);
      case PcbOut => entries' := EmitPcbOut(m, side, entries);
      case PcbIn => entries' := EmitPcbIn(m, side, entries);
      case SolderRing => entries' := EmitSolder(m, side, entries);
      case SubRing => entries' := EmitSubstrate(m, side, entries);
    }
  }

  // ----- the whole matrix -----

  /** The rows of these nodes, as they are emitted. */
  function Built(m: Model, large: real, order: seq<Node>): seq<Coo>
    requires Tall(m) && m.nc > 0 && forall k | 0 <= k < |order| :: IsNode(m, order[k])
  {
    if order == [] then [] else Built(m, large, order[..|order| - 1]) + BuiltRow(m, large, order[|order| - 1])
  }

  function BuiltRow(m: Model, large: real, x: Node): seq<Coo>
    requires Tall(m) && m.nc > 0 && IsNode(m, x)
  {
    match x
    case Cell(l, i, j) => CellRow(m, large, l, i, j)
    case Extra(_) => NodeBlock(m, x)
  }

  /** On grids of two rows and columns or more they are the matrix of the network. */
  lemma {:induction false} BuiltIsMatrix(m: Model, large: real, order: seq<Node>)
    requires Broad(m) && forall k | 0 <= k < |order| :: IsNode(m, order[k])
    ensures Built(m, large, order) == MatrixOf(m, order)
  {
    hide CellRow, NodeBlock, PrimaryPositive, SecondaryPositive;
    if order != [] {
      var n := |order| - 1;
      BuiltIsMatrix(m, large, order[..n]);
      if order[n].Cell? {
        CellRowIsBlock(m, large, order[n].l, order[n].i, order[n].j);
      }
    }
  }

  ghost predicate Progressing(m: Model, large: real, order: seq<Node>, entries: seq<Coo>)
    requires Tall(m) && m.nc > 0
  {
    Nodes(m, order) && entries == Built(m, large, order)
  }

  lemma OneMoreRow(m: Model, large: real, order: seq<Node>, entries: seq<Coo>, x: Node)
    requires Proper(m) && IsNode(m, x) && Progressing(m, large, order, entries) && Nodes(m, order + [x])
    ensures Progressing(m, large, order + [x], entries + BuiltRow(m, large, x))
  {
    hide BuiltRow, PrimaryPositive, SecondaryPositive;
    assert (order + [x])[..|order|] == order;
  }

  method BuildRow(m: Model, large: real, l: nat, i: nat, entries: seq<Coo>, ghost order: seq<Node>)
    returns (entries': seq<Coo>, ghost order': seq<Node>)
    requires Proper(m) && large > 0.0 && l < |m.layers| && i < m.nr && |order| == CellsBefore(m, l, i)
    requires CellsInOrder(m, order) && Progressing(m, large, order, entries)
    ensures CellsInOrder(m, order') && Progressing(m, large, order', entries') && |order'| == CellsBefore(m, l, i + 1)
  {
    hide CellsBefore, Progressing, CellRow, CellsInOrder, PrimaryPositive, SecondaryPositive;
    entries', order' := entries, order;
    for j := 0 to m.nc
      invariant CellsInOrder(m, order') && |order'| == CellsBefore(m, l, i) + j
      invariant Progressing(m, large, order', entries')
    {
      OneMoreCell(m, order', l, i, j);
      OneMoreRow(m, large, order', entries', Cell(l, i, j));
      entries' := EmitCell(m, large, l, i, j, entries');
      order' := order' + [Cell(l, i, j)];
    }
    CellsBeforeSteps(m, l, i);
  }

  method BuildLayer(m: Model, large: real, l: nat, entries: seq<Coo>, ghost order: seq<Node>)
    returns (entries': seq<Coo>, ghost order': seq<Node>)
    requires Proper(m) && large > 0.0 && l < |m.layers| && |order| == CellsBefore(m, l, 0)
    requires CellsInOrder(m, order) && Progressing(m, large, order, entries)
    ensures CellsInOrder(m, order') && Progressing(m, large, order', entries') && |order'| == CellsBefore(m, l + 1, 0)
  {
    hide CellsBefore, Progressing, CellsInOrder, PrimaryPositive, SecondaryPositive;
    entries', order' := entries, order;
    for i := 0 to m.nr
      invariant CellsInOrder(m, order') && |order'| == CellsBefore(m, l, i) && Progressing(m, large, order', entries')
    {
      entries', order' := BuildRow(m, large, l, i, entries', order');
    }
    CellsBeforeSteps(m, l, m.nr);
  }

  /** The rows of all the nodes, each once, in the order of the vector. */
  ghost predicate AllBuilt(m: Model, large: real, entries: seq<Coo>)
    requires Tall(m) && m.nc > 0
  {
    exists cells :: AllCells(m, cells) && Progressing(m, large, cells + Extras(ExtraCount(m)), entries)
  }

  /** build_steady_grid_matrix. */
  method BuildSteadyGridMatrix(m: Model, large: real) returns (entries: seq<Coo>)
    requires Proper(m) && large > 0.0
    ensures AllBuilt(m, large, entries)
    ensures Broad(m) ==> SteadyMatrix(m, entries)
  {
    hide CellsBefore, Progressing, CellsInOrder, Built, MatrixOf, PrimaryPositive, SecondaryPositive;
    entries := [];
    ghost var cells := [];
    CellsBeforeSteps(m, 0, 0);
    NothingBuilt(m, large);
    for l := 0 to |m.layers|
      invariant CellsInOrder(m, cells) && |cells| == CellsBefore(m, l, 0) && Progressing(m, large, cells, entries)
    {
      entries, cells := BuildLayer(m, large, l, entries, cells);
    }
    assert AllCells(m, cells);
    entries := BuildPack(m, large, entries, cells);
    if Broad(m) {
      BuiltSteady(m, large, cells, entries);
    }
  }

  lemma NothingBuilt(m: Model, large: real)
    requires Proper(m)
    ensures CellsInOrder(m, []) && Progressing(m, large, [], [])
  {
  }

  lemma BuiltSteady(m: Model, large: real, cells: seq<Node>, entries: seq<Coo>)
    requires Broad(m) && AllCells(m, cells) && Progressing(m, large, cells + Extras(ExtraCount(m)), entries)
    ensures SteadyMatrix(m, entries)
  {
    hide Built, MatrixOf, CellsInOrder, PrimaryPositive, SecondaryPositive;
    BuiltIsMatrix(m, large, cells + Extras(ExtraCount(m)));
    assert NodesMade(m, cells + Extras(ExtraCount(m)), entries);
  }

  method BuildPack(m: Model, large: real, entries: seq<Coo>, ghost cells: seq<Node>) returns (entries': seq<Coo>)
    requires Proper(m) && CellsInOrder(m, cells) && Progressing(m, large, cells, entries)
    ensures Progressing(m, large, cells + Extras(ExtraCount(m)), entries')
  {
    hide CellsInOrder, Progressing, NodeBlock, PackNode, PrimaryPositive, SecondaryPositive;
    entries' := entries;
    assert cells + Extras(0) == cells;
    for k := 0 to ExtraCount(m)
      invariant Progressing(m, large, cells + Extras(k), entries')
    {
      OneMoreExtra(m, cells, k);
      assert cells + Extras(k + 1) == cells + Extras(k) + [Extra(PackNode(k))];
      OneMoreRow(m, large, cells + Extras(k), entries', Extra(PackNode(k)));
      entries' := EmitExtra(m, PackNode(k), entries');
    }
  }
}
