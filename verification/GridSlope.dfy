/** The slope of the transient grid model as it is written (slope_fn_grid and slope_fn_pack,
    HotSpot/temperature_grid.c), over the whole vector, and how it stands to the network of
    GridNetwork.dfy. With the secondary path the two differ: slope_fn_pack leaves out what flows from
    the substrate to the solder, while it has the flow the other way. */
module GridSlope {
  import opened GridNetwork
  import opened GaussSeidel
  import opened GridSweep
  import opened GridMatrix
  import opened GridTransfer

  /** package_RC_t: the capacitances. */
  datatype Caps = Caps(cSpPerX: real, cSpPerY: real, cHsCPerX: real, cHsCPerY: real, cAmbCPerX: real, cAmbCPerY: real,
                       cHsPer: real, cAmbPer: real, cSubPerX: real, cSubPerY: real, cSolderPerX: real,
                       cSolderPerY: real,
                       cPcbCPerX: real, cPcbCPerY: real, cAmbSecCPerX: real, cAmbSecCPerY: real, cPcbPer: real,
                       cAmbSecPer: real)

  function RingCapacitance(c: Caps, ring: Ring, side: Side): real {
    match ring
    case SpRing => Along(side, c.cSpPerX, c.cSpPerY)
    case SinkIn => Along(side, c.cHsCPerX, c.cHsCPerY) + Along(side, c.cAmbCPerX, c.cAmbCPerY)
    case SinkOut => c.cHsPer + c.cAmbPer
    case SubRing => Along(side, c.cSubPerX, c.cSubPerY)
    case SolderRing => Along(side, c.cSolderPerX, c.cSolderPerY)
    case PcbIn => Along(side, c.cPcbCPerX, c.cPcbCPerY) + Along(side, c.cAmbSecCPerX, c.cAmbSecCPerY)
    case PcbOut => c.cPcbPer + c.cAmbSecPer
  }

  function Capacitance(m: Model, c: Caps, x: Node): real
    requires IsNode(m, x)
  {
    match x
    case Cell(l, _, _) => m.layers[l].c
    case Extra(e) => RingCapacitance(c, RingOf(e), SideOf(e))
  }

  /** All capacitances are positive. */
  ghost predicate Capacious(m: Model, c: Caps) {
    forall x | IsNode(m, x) :: Capacitance(m, c, x) > 0.0
  }

  // ----- what flows into a cell -----

  /** What flows in from a neighbour, or nothing at the boundary. */
  method Current(m: Model, v: array<real>, here: real, there: bool, x: Node, r: real, ghost links: seq<Link>)
    returns (w: real)
    requires v.Length == Size(m) && r > 0.0 && (there ==> IsNode(m, x)) && links == if there then [Link(x, r)] else []
    ensures w == LinkSum(links, Drop(TempOf(m, v[..]), here))
  {
    OptionalSum(links, there, Link(x, r), Drop(TempOf(m, v[..]), here));
    if there {
      TempAt(m, v[..], x);
      DivideIs(v[Index(m, x)] - here, r);
      w := Over(v[Index(m, x)] - here, r);
    } else {
      w := 0.0;
    }
  }

  /** The six macros NP to BP. */
  method NeighbourCurrents(m: Model, v: array<real>, here: real, l: nat, i: nat, j: nat) returns (psum: real)
    requires Proper(m) && v.Length == Size(m) && IsNode(m, Cell(l, i, j))
    ensures GridPart(m, l, i, j, Drop(TempOf(m, v[..]), here), psum)
  {
    hide LinkSum;
    var rx, ry, rz := m.layers[l].rx, m.layers[l].ry, m.layers[l].rz;
    var up := if l > 0 then m.layers[l - 1].rz else rz;
    hide Size, TempOf, LinkSum, Drop;
    var np := Current(m, v, here, i > 0, Cell(l, i - 1, j), ry, North(m, l, i, j));
    var sp := Current(m, v, here, i < m.nr - 1, Cell(l, i + 1, j), ry, South(m, l, i, j));
    var ep := Current(m, v, here, j < m.nc - 1, Cell(l, i, j + 1), rx, East(m, l, i, j));
    var wp := Current(m, v, here, j > 0, Cell(l, i, j - 1), rx, West(m, l, i, j));
    var ap := Current(m, v, here, l > 0, Cell(l - 1, i, j), up, Above(m, l, i, j));
    var bp := Current(m, v, here, l < |m.layers| - 1, Cell(l + 1, i, j), rz, Below(m, l, i, j));
    psum := np + sp + ep + wp + ap + bp;
  }

  /** The resistance from an edge cell to the node of its layer's ring, as it is written here. */
  method EdgeInSlope(m: Model, l: nat, side: Side, x1: real, y1: real) returns (r: real)
    requires Tall(m) && l < |m.layers| && Ringed(m, l) && RimOfLayer(m, l, x1, y1)
    ensures r == EdgeResistance(m, l, side)
  {
    EdgeWritten(m, l, side, x1, y1);
    r := Along(side, m.layers[l].rx / 2.0 + m.nr as real * x1, m.layers[l].ry / 2.0 + m.nc as real * y1);
  }

  method SideCurrent(m: Model, v: array<real>, here: real, l: nat, side: Side, i: nat, j: nat, psum: real)
    returns (psum': real)
    requires Proper(m) && v.Length == Size(m) && IsNode(m, Cell(l, i, j)) && Ringed(m, l)
    ensures psum' == psum + LinkSum(SideList(m, l, side, i, j), Drop(TempOf(m, v[..]), here))
  {
    hide Size, TempOf, EdgeResistance, Drop, LinkSum, PrimaryPositive, SecondaryPositive;
    var x1, y1 := m.pack.rPcb1X, m.pack.rPcb1Y;
    if l == SpIdx(m) {
      x1, y1 := m.pack.rSp1X, m.pack.rSp1Y;
    } else if l == HsIdx(m) {
      x1, y1 := m.pack.rHs1X, m.pack.rHs1Y;
    } else if l == LAYER_SUB {
      x1, y1 := m.pack.rSub1X, m.pack.rSub1Y;
    } else if l == LAYER_SOLDER {
      x1, y1 := m.pack.rSolder1X, m.pack.rSolder1Y;
    }
    var r := EdgeInSlope(m, l, side, x1, y1);
    RingNode(m, l, side);
    var w := Current(m, v, here, AtEdge(m, side, i, j), Extra(At(RingAt(m, l), side)), r, SideList(m, l, side, i, j));
    psum' := psum + w;
  }

  /** What flows in from ambient. */
  function FromAmbient(m: Model, x: Node, here: real): real
    requires Tall(m) && IsNode(m, x)
  {
    (m.ambient - here) * Amb(m, x)
  }

  method AmbientCurrent(m: Model, here: real, l: nat, i: nat, j: nat) returns (w: real)
    requires Proper(m) && IsNode(m, Cell(l, i, j))
    ensures w == FromAmbient(m, Cell(l, i, j), here)
  {
    hide BoardResistance, PrimaryPositive, SecondaryPositive;
    w := 0.0;
    if l == HsIdx(m) {
      DivideIs(m.ambient - here, m.layers[l].rz);
      w := Over(m.ambient - here, m.layers[l].rz);
    } else if m.secondary && l == LAYER_PCB {
      var r := BoardToAmbient(m);
      DivideIs(m.ambient - here, r);
      w := Over(m.ambient - here, r);
    }
  }

  method AroundCurrents(m: Model, v: array<real>, here: real, l: nat, i: nat, j: nat, psum: real) returns (psum': real)
    requires Proper(m) && v.Length == Size(m) && IsNode(m, Cell(l, i, j))
    ensures SidePart(m, l, i, j, Drop(TempOf(m, v[..]), here), psum' - psum - FromAmbient(m, Cell(l, i, j), here))
  {
    hide Size, TempOf, EdgeResistance, Drop, FromAmbient, PrimaryPositive, SecondaryPositive;
    var w := AmbientCurrent(m, here, l, i, j);
    psum' := psum + w;
    if Ringed(m, l) {
      psum' := SideCurrent(m, v, here, l, OnNorth, i, j, psum');
      psum' := SideCurrent(m, v, here, l, OnSouth, i, j, psum');
      psum' := SideCurrent(m, v, here, l, OnEast, i, j, psum');
      psum' := SideCurrent(m, v, here, l, OnWest, i, j, psum');
    }
  }

  // ----- the links that the slope knows -----

  /** All of them, but for the ones from the solder inwards. */
  function SlopeLinks(m: Model, x: Node): seq<Link>
    requires Tall(m) && IsNode(m, x)
  {
    match x
    case Cell(l, i, j) => CellLinks(m, l, i, j)
    case Extra(e) =>
      RingCells(m, RingOf(e), SideOf(e)) + SlopeInner(m, RingOf(e), SideOf(e)) + OuterLink(m, RingOf(e), SideOf(e))
  }

  function SlopeInner(m: Model, ring: Ring, side: Side): seq<Link> {
    if ring.SolderRing? then [] else InnerLink(m, ring, side)
  }

  /** Everything that flows into a node. */
  ghost predicate Inflow(m: Model, t: Temps, x: Node, psum: real)
    requires Tall(m) && IsNode(m, x)
  {
    psum == FromAmbient(m, x, t(x)) + LinkSum(SlopeLinks(m, x), Drop(t, t(x)))
  }

  method CellInflow(m: Model, v: array<real>, l: nat, i: nat, j: nat) returns (psum: real)
    requires Proper(m) && v.Length == Size(m) && IsNode(m, Cell(l, i, j))
    ensures Inflow(m, TempOf(m, v[..]), Cell(l, i, j), psum)
  {
    TempAt(m, v[..], Cell(l, i, j));
    hide Size, TempOf, CellLinks, North, South, East, West, Above, Below, SideList, FromAmbient, LinkSum, Drop,
         PrimaryPositive, SecondaryPositive;
    var here := v[Index(m, Cell(l, i, j))];
    psum := NeighbourCurrents(m, v, here, l, i, j);
    psum := AroundCurrents(m, v, here, l, i, j, psum);
    CellSum(m, l, i, j, Drop(TempOf(m, v[..]), here));
  }

  // ----- what flows into the nodes around the grid -----

  /** What the inflow of a node of a ring consists of. */
  ghost predicate RingInflow(m: Model, ring: Ring, side: Side, t: Temps, psum: real)
    requires Tall(m) && Present(m, ring)
  {
    var here := t(Extra(At(ring, side)));
    psum == FromAmbient(m, Extra(At(ring, side)), here) + LinkSum(RingCells(m, ring, side), Drop(t, here)) +
            LinkSum(SlopeInner(m, ring, side), Drop(t, here)) + LinkSum(OuterLink(m, ring, side), Drop(t, here))
  }

  lemma RingInflowIs(m: Model, ring: Ring, side: Side, t: Temps, psum: real)
    requires Proper(m) && Present(m, ring) && RingInflow(m, ring, side, t, psum)
    ensures Inflow(m, t, Extra(At(ring, side)), psum)
  {
    RingAndSide(ring, side);
    hide RingCells, SlopeInner, OuterLink, LinkSum, FromAmbient, Drop, PrimaryPositive, SecondaryPositive, At, RingOf,
         SideOf;
    var f := Drop(t, t(Extra(At(ring, side))));
    LinkSumConcat(RingCells(m, ring, side), SlopeInner(m, ring, side), f);
    LinkSumConcat(RingCells(m, ring, side) + SlopeInner(m, ring, side), OuterLink(m, ring, side), f);
  }

  function Surplus(t: Temps, here: real): Weight {
    (k: Link) => t(k.to) - here
  }

  /** One resistance for all the links of a side. */
  lemma SideDrop(m: Model, t: Temps, here: real, l: int, side: Side, r: real)
    requires r > 0.0
    ensures LinkSum(SideLinks(m, l, side, r), Drop(t, here)) ==
            Over(LinkSum(SideLinks(m, l, side, r), Surplus(t, here)), r)
  {
    var links := SideLinks(m, l, side, r);
    forall k | k in links
      ensures Drop(t, here)(k) == Inverse(r) * Surplus(t, here)(k)
    {
      assert Surplus(t, here)(k) == t(k.to) - here;
    }
    LinkSumTimes(links, Inverse(r), Surplus(t, here), Drop(t, here));
    DivideIs(LinkSum(links, Surplus(t, here)), r);
  }

  /** The loop over the edge cells of a ring's layer. */
  method EdgeInflow(m: Model, v: array<real>, here: real, ring: Ring, side: Side, r: real) returns (psum: real)
    requires Proper(m) && v.Length == Size(m) && Present(m, ring) && HasLayer(ring)
    requires 0 <= RingLayer(m, ring) < |m.layers| && r == EdgeResistance(m, RingLayer(m, ring), side)
    ensures psum == LinkSum(RingCells(m, ring, side), Drop(TempOf(m, v[..]), here))
  {
    RingsOfLayers(m, ring);
    var l := RingLayer(m, ring);
    EdgePositive(m, l, side);
    hide EdgeResistance, TempOf, Size, Drop, PrimaryPositive, SecondaryPositive;
    ghost var t, links := TempOf(m, v[..]), SideLinks(m, l, side, r);
    psum := 0.0;
    for k := 0 to SideLength(m, side)
      invariant psum == LinkSum(links[..k], Surplus(t, here))
    {
      assert links[..k + 1][..k] == links[..k];
      TempAt(m, v[..], SideCell(m, l, side, k));
      psum := psum + (v[Index(m, SideCell(m, l, side, k))] - here);
    }
    assert links[..SideLength(m, side)] == links;
    SideDrop(m, t, here, l, side, r);
    psum := Over(psum, r);
  }

  lemma OneDrop(k: Link, t: Temps, here: real)
    requires k.r > 0.0
    ensures LinkSum([k], Drop(t, here)) == Over(t(k.to) - here, k.r)
  {
    LinkSumOne(k, Drop(t, here));
    DivideIs(t(k.to) - here, k.r);
  }

  method OuterInflow(m: Model, v: array<real>, here: real, ring: Ring, side: Side, r: real) returns (w: real)
    requires Proper(m) && v.Length == Size(m) && Present(m, ring) && HasOuter(ring)
    requires r == OuterResistance(m, ring, side)
    ensures w == LinkSum(OuterLink(m, ring, side), Drop(TempOf(m, v[..]), here))
  {
    RingPositive(m, ring, side);
    hide TempOf, Size, OuterResistance, LinkSum, Drop, PrimaryPositive, SecondaryPositive;
    var e := At(OuterOf(ring), side);
    var t := ExtraTemp(m, v, e);
    OneDrop(Link(Extra(e), r), TempOf(m, v[..]), here);
    w := Over(t - here, r);
  }

  method InnerInflow(m: Model, v: array<real>, here: real, ring: Ring, side: Side, r: real) returns (w: real)
    requires Proper(m) && v.Length == Size(m) && Present(m, ring) && HasInner(ring)
    requires r == OuterResistance(m, InnerOf(ring), side)
    ensures w == LinkSum(InnerLink(m, ring, side), Drop(TempOf(m, v[..]), here))
  {
    RingPositive(m, InnerOf(ring), side);
    hide TempOf, Size, OuterResistance, LinkSum, Drop, PrimaryPositive, SecondaryPositive;
    var e := At(InnerOf(ring), side);
    var t := ExtraTemp(m, v, e);
    OneDrop(Link(Extra(e), r), TempOf(m, v[..]), here);
    w := Over(t - here, r);
  }

  method AmbientInflow(m: Model, here: real, r: real, ghost x: Node) returns (w: real)
    requires Tall(m) && IsNode(m, x) && r > 0.0 && Amb(m, x) == Inverse(r)
    ensures w == FromAmbient(m, x, here)
  {
    DivideIs(m.ambient - here, r);
    w := Over(m.ambient - here, r);
  }

  /** Outer sink: ambient and the inner sink. */
  method SinkOutInflow(m: Model, v: array<real>, side: Side) returns (psum: real)
    requires Proper(m) && v.Length == Size(m)
    ensures Inflow(m, TempOf(m, v[..]), Extra(At(SinkOut, side)), psum)
  {
    RingAmbient(m, SinkOut, side);
    hide TempOf, Size, LinkSum, Amb, FromAmbient, Drop, At, InnerLink, PrimaryPositive, SecondaryPositive;
    var here := ExtraTemp(m, v, At(SinkOut, side));
    var wa := AmbientInflow(m, here, m.pack.rHsPer + m.pack.rAmbPer, Extra(At(SinkOut, side)));
    var wi := InnerInflow(m, v, here, SinkOut, side, Along(side, m.pack.rHs2X, m.pack.rHs2Y) + m.pack.rHs);
    psum := wa + wi;
    NoTerms(Drop(TempOf(m, v[..]), here));
    RingInflowIs(m, SinkOut, side, TempOf(m, v[..]), psum);
  }

  /** Inner sink: its edge cells, ambient, the spreader, and the outer sink. */
  method SinkInInflow(m: Model, v: array<real>, side: Side) returns (psum: real)
    requires Proper(m) && v.Length == Size(m)
    ensures Inflow(m, TempOf(m, v[..]), Extra(At(SinkIn, side)), psum)
  {
    hide LinkSum;
    var edge := EdgeInSlope(m, HsIdx(m), side, m.pack.rHs1X, m.pack.rHs1Y);
    RingAmbient(m, SinkIn, side);
    hide TempOf, Size, LinkSum, Amb, FromAmbient, Drop, At, RingCells, InnerLink, OuterLink, PrimaryPositive,
         SecondaryPositive;
    var here := ExtraTemp(m, v, At(SinkIn, side));
    psum := EdgeInflow(m, v, here, SinkIn, side, edge);
    var wa := AmbientInflow(m, here, Along(side, m.pack.rHsCPerX, m.pack.rHsCPerY) +
                            Along(side, m.pack.rAmbCPerX, m.pack.rAmbCPerY), Extra(At(SinkIn, side)));
    var wi := InnerInflow(m, v, here, SinkIn, side, Along(side, m.pack.rSpPerX, m.pack.rSpPerY));
    var wo := OuterInflow(m, v, here, SinkIn, side, Along(side, m.pack.rHs2X, m.pack.rHs2Y) + m.pack.rHs);
    psum := psum + (wa + wi + wo);
    RingInflowIs(m, SinkIn, side, TempOf(m, v[..]), psum);
  }

  /** Spreader: its edge cells, and the inner sink. */
  method SpreaderInflow(m: Model, v: array<real>, side: Side) returns (psum: real)
    requires Proper(m) && v.Length == Size(m)
    ensures Inflow(m, TempOf(m, v[..]), Extra(At(SpRing, side)), psum)
  {
    hide LinkSum;
    var edge := EdgeInSlope(m, SpIdx(m), side, m.pack.rSp1X, m.pack.rSp1Y);
    RingAmbient(m, SpRing, side);
    assert forall here :: FromAmbient(m, Extra(At(SpRing, side)), here) == 0.0;
    hide TempOf, Size, LinkSum, Amb, FromAmbient, Drop, At, RingCells, OuterLink, PrimaryPositive, SecondaryPositive;
    var here := ExtraTemp(m, v, At(SpRing, side));
    psum := EdgeInflow(m, v, here, SpRing, side, edge);
    var wo := OuterInflow(m, v, here, SpRing, side, Along(side, m.pack.rSpPerX, m.pack.rSpPerY));
    psum := psum + wo;
    NoTerms(Drop(TempOf(m, v[..]), here));
    RingInflowIs(m, SpRing, side, TempOf(m, v[..]), psum);
  }

  /** Outer board: ambient and the inner board. */
  method PcbOutInflow(m: Model, v: array<real>, side: Side) returns (psum: real)
    requires Proper(m) && m.secondary && v.Length == Size(m)
    ensures Inflow(m, TempOf(m, v[..]), Extra(At(PcbOut, side)), psum)
  {
    RingAmbient(m, PcbOut, side);
    hide TempOf, Size, LinkSum, Amb, FromAmbient, Drop, At, InnerLink, PrimaryPositive, SecondaryPositive;
    var here := ExtraTemp(m, v, At(PcbOut, side));
    var wa := AmbientInflow(m, here, m.pack.rAmbSecPer, Extra(At(PcbOut, side)));
    var wi := InnerInflow(m, v, here, PcbOut, side, Along(side, m.pack.rPcb2X, m.pack.rPcb2Y) + m.pack.rPcb);
    psum := wa + wi;
    NoTerms(Drop(TempOf(m, v[..]), here));
    RingInflowIs(m, PcbOut, side, TempOf(m, v[..]), psum);
  }

  /** Inner board: its edge cells, ambient, the solder, and the outer board. */
  method PcbInInflow(m: Model, v: array<real>, side: Side) returns (psum: real)
    requires Proper(m) && m.secondary && v.Length == Size(m)
    ensures Inflow(m, TempOf(m, v[..]), Extra(At(PcbIn, side)), psum)
  {
    hide LinkSum;
    var edge := EdgeInSlope(m, LAYER_PCB, side, m.pack.rPcb1X, m.pack.rPcb1Y);
    RingAmbient(m, PcbIn, side);
    hide TempOf, Size, LinkSum, Amb, FromAmbient, Drop, At, RingCells, InnerLink, OuterLink, PrimaryPositive,
         SecondaryPositive;
    var here := ExtraTemp(m, v, At(PcbIn, side));
    psum := EdgeInflow(m, v, here, PcbIn, side, edge);
    var wa := AmbientInflow(m, here, Along(side, m.pack.rAmbSecCPerX, m.pack.rAmbSecCPerY), Extra(At(PcbIn, side)));
    var wi := InnerInflow(m, v, here, PcbIn, side, Along(side, m.pack.rPcbCPerX, m.pack.rPcbCPerY));
    var wo := OuterInflow(m, v, here, PcbIn, side, Along(side, m.pack.rPcb2X, m.pack.rPcb2Y) + m.pack.rPcb);
    psum := psum + (wa + wi + wo);
    RingInflowIs(m, PcbIn, side, TempOf(m, v[..]), psum);
  }

  /** Solder: its edge cells and the inner board, but not the substrate. */
  method SolderInflow(m: Model, v: array<real>, side: Side) returns (psum: real)
    requires Proper(m) && m.secondary && v.Length == Size(m)
    ensures Inflow(m, TempOf(m, v[..]), Extra(At(SolderRing, side)), psum)
  {
    hide LinkSum;
    var edge := EdgeInSlope(m, LAYER_SOLDER, side, m.pack.rSolder1X, m.pack.rSolder1Y);
    RingAmbient(m, SolderRing, side);
    assert forall here :: FromAmbient(m, Extra(At(SolderRing, side)), here) == 0.0;
    hide TempOf, Size, LinkSum, Amb, FromAmbient, Drop, At, RingCells, InnerLink, OuterLink, PrimaryPositive,
         SecondaryPositive;
    var here := ExtraTemp(m, v, At(SolderRing, side));
    psum := EdgeInflow(m, v, here, SolderRing, side, edge);
    var wo := OuterInflow(m, v, here, SolderRing, side, Along(side, m.pack.rPcbCPerX, m.pack.rPcbCPerY));
    psum := psum + wo;
    NoTerms(Drop(TempOf(m, v[..]), here));
    RingInflowIs(m, SolderRing, side, TempOf(m, v[..]), psum);
  }

  /** Substrate: its edge cells, and the solder. */
  method SubstrateInflow(m: Model, v: array<real>, side: Side) returns (psum: real)
    requires Proper(m) && m.secondary && v.Length == Size(m)
    ensures Inflow(m, TempOf(m, v[..]), Extra(At(SubRing, side)), psum)
  {
    hide LinkSum;
    var edge := EdgeInSlope(m, LAYER_SUB, side, m.pack.rSub1X, m.pack.rSub1Y);
    RingAmbient(m, SubRing, side);
    assert forall here :: FromAmbient(m, Extra(At(SubRing, side)), here) == 0.0;
    hide TempOf, Size, LinkSum, Amb, FromAmbient, Drop, At, RingCells, OuterLink, PrimaryPositive, SecondaryPositive;
    var here := ExtraTemp(m, v, At(SubRing, side));
    psum := EdgeInflow(m, v, here, SubRing, side, edge);
    var wo := OuterInflow(m, v, here, SubRing, side, Along(side, m.pack.rSolderPerX, m.pack.rSolderPerY));
    psum := psum + wo;
    NoTerms(Drop(TempOf(m, v[..]), here));
    RingInflowIs(m, SubRing, side, TempOf(m, v[..]), psum);
  }

  method ExtraInflow(m: Model, v: array<real>, e: nat) returns (psum: real)
    requires Proper(m) && v.Length == Size(m) && e < ExtraCount(m)
    ensures Inflow(m, TempOf(m, v[..]), Extra(e), psum)
  {
    AtRingAndSide(e);
    hide Inflow, TempOf, Size, At, PrimaryPositive, SecondaryPositive;
    var side := SideOf(e);
    match RingOf(e) {
      case SinkOut => psum := SinkOutInflow(m, v, side);
      case SinkIn => psum := SinkInInflow(m, v, side);
      case SpRing => psum := SpreaderInflow(m, v, side);
      case PcbOut => psum := PcbOutInflow(m, v, side);
      case PcbIn => psum := PcbInInflow(m, v, side);
      case SolderRing => psum := SolderInflow(m, v, side);
      case SubRing => psum := SubstrateInflow(m, v, side);
    }
  }

  // ----- the slope -----

  /** What slope_fn_grid makes of a node. */
  function WrittenSlope(m: Model, c: Caps, p: Temps, t: Temps, x: Node): real
    requires Tall(m) && IsNode(m, x) && Capacitance(m, c, x) > 0.0
  {
    (p(x) + (FromAmbient(m, x, t(x)) + LinkSum(SlopeLinks(m, x), Drop(t, t(x))))) / Capacitance(m, c, x)
  }

  ghost function Slopes(m: Model, c: Caps, p: Temps, t: Temps): Temps
    requires Tall(m) && Capacious(m, c)
  {
    (x: Node) => if IsNode(m, x) then WrittenSlope(m, c, p, t, x) else 0.0
  }

  lemma SlopeFrom(m: Model, c: Caps, p: Temps, t: Temps, x: Node, own: real, psum: real)
    requires Tall(m) && Capacious(m, c) && IsNode(m, x) && own == p(x) && Inflow(m, t, x, psum)
    ensures Capacitance(m, c, x) > 0.0 && (own + psum) / Capacitance(m, c, x) == Slopes(m, c, p, t)(x)
  {
    hide FromAmbient, LinkSum, SlopeLinks, Drop, Capacitance;
  }

  method SlopeCell(m: Model, c: Caps, p: array<real>, v: array<real>, l: nat, i: nat, j: nat) returns (r: real)
    requires Proper(m) && Capacious(m, c) && v.Length == p.Length == Size(m) && IsNode(m, Cell(l, i, j))
    ensures r == Slopes(m, c, PowerOf(m, p[..]), TempOf(m, v[..]))(Cell(l, i, j))
  {
    hide TempOf, Inflow, PowerOf, Slopes, PrimaryPositive, SecondaryPositive;
    var psum := CellInflow(m, v, l, i, j);
    var own := PowerAt(m, p, l, i, j);
    SlopeFrom(m, c, PowerOf(m, p[..]), TempOf(m, v[..]), Cell(l, i, j), own, psum);
    r := (own + psum) / m.layers[l].c;
  }

  method SlopeExtra(m: Model, c: Caps, p: array<real>, v: array<real>, e: nat) returns (r: real)
    requires Proper(m) && Capacious(m, c) && v.Length == p.Length == Size(m) && e < ExtraCount(m)
    ensures r == Slopes(m, c, PowerOf(m, p[..]), TempOf(m, v[..]))(Extra(e))
  {
    hide TempOf, Inflow, Slopes, Capacious, PrimaryPositive, SecondaryPositive;
    var psum := ExtraInflow(m, v, e);
    SlopeFrom(m, c, PowerOf(m, p[..]), TempOf(m, v[..]), Extra(e), 0.0, psum);
    r := psum / RingCapacitance(c, RingOf(e), SideOf(e));
  }

  /** The nodes around the grid that are done: the first k in the order of slope_fn_pack. */
  function CellsAndPack(k: nat): Node -> bool
    requires k <= EXTRA + EXTRA_SEC
  {
    (x: Node) => x.Cell? || x in Extras(k)
  }

  /** slope_fn_pack. */
  method SlopeFnPack(m: Model, c: Caps, p: array<real>, v: array<real>, dv: array<real>, ghost want: Temps)
    requires Proper(m) && Capacious(m, c) && dv != v && dv != p && dv.Length == v.Length == p.Length == Size(m)
    requires want == Slopes(m, c, PowerOf(m, p[..]), TempOf(m, v[..]))
    requires Agree(m, TempOf(m, dv[..]), want, CellsAndPack(0))
    modifies dv
    ensures forall x | IsNode(m, x) :: TempOf(m, dv[..])(x) == want(x)
  {
    hide TempOf, Size, PackNode, Slopes, Capacious, PrimaryPositive, SecondaryPositive;
    for k := 0 to ExtraCount(m)
      invariant Agree(m, TempOf(m, dv[..]), want, CellsAndPack(k))
    {
      var r := SlopeExtra(m, c, p, v, PackNode(k));
      PackGrows(m, k);
      Write(m, dv, Extra(PackNode(k)), r, want, CellsAndPack(k), CellsAndPack(k + 1));
    }
    PackFull(m);
  }

  lemma PackGrows(m: Model, k: nat)
    requires k < ExtraCount(m)
    ensures OneMore(m, CellsAndPack(k), Extra(PackNode(k)), CellsAndPack(k + 1))
  {
    hide PackNode;
    assert Extras(k + 1) == Extras(k) + [Extra(PackNode(k))];
  }

  lemma PackFull(m: Model)
    ensures forall x | IsNode(m, x) :: CellsAndPack(ExtraCount(m))(x)
  {
    hide PackNode;
    forall x | IsNode(m, x) && x.Extra?
      ensures x in Extras(ExtraCount(m))
    {
      var n := PlaceOf(x.e);
      assert Extras(ExtraCount(m))[n] == x;
    }
  }

  /** slope_fn_grid: the whole vector dv. */
  method SlopeFnGrid(m: Model, c: Caps, p: array<real>, v: array<real>, dv: array<real>)
    requires Proper(m) && Capacious(m, c) && dv != v && dv != p && dv.Length == v.Length == p.Length == Size(m)
    modifies dv
    ensures forall x | IsNode(m, x) ::
            TempOf(m, dv[..])(x) == WrittenSlope(m, c, PowerOf(m, p[..]), TempOf(m, v[..]), x)
  {
    hide TempOf, Size, WrittenSlope, PowerOf, Capacious, PrimaryPositive, SecondaryPositive;
    ghost var want := Slopes(m, c, PowerOf(m, p[..]), TempOf(m, v[..]));
    for l := 0 to |m.layers|
      invariant Agree(m, TempOf(m, dv[..]), want, CellsUpTo(l, 0, 0))
    {
      for i := 0 to m.nr
        invariant Agree(m, TempOf(m, dv[..]), want, CellsUpTo(l, i, 0))
      {
        for j := 0 to m.nc
          invariant Agree(m, TempOf(m, dv[..]), want, CellsUpTo(l, i, j))
        {
          var r := SlopeCell(m, c, p, v, l, i, j);
          Write(m, dv, Cell(l, i, j), r, want, CellsUpTo(l, i, j), CellsUpTo(l, i, j + 1));
        }
        AgreeFewer(m, TempOf(m, dv[..]), want, CellsUpTo(l, i, m.nc), CellsUpTo(l, i + 1, 0));
      }
      AgreeFewer(m, TempOf(m, dv[..]), want, CellsUpTo(l, m.nr, 0), CellsUpTo(l + 1, 0, 0));
    }
    AgreeFewer(m, TempOf(m, dv[..]), want, CellsUpTo(|m.layers|, 0, 0), CellsAndPack(0));
    SlopeFnPack(m, c, p, v, dv, want);
  }

  // ----- against the network -----

  /** The temperatures of the substrate and the solder on each side of a node do not differ, if the
      node is one of the solder. */
  predicate SolderLevel(t: Temps, x: Node) {
    x.Extra? && RingOf(x.e).SolderRing? ==> t(Extra(At(SubRing, SideOf(x.e)))) == t(x)
  }

  lemma LeftOut(m: Model, t: Temps, x: Node)
    requires Proper(m) && IsNode(m, x)
    ensures var gap := LinkSum(Links(m, x), Drop(t, t(x))) - LinkSum(SlopeLinks(m, x), Drop(t, t(x)));
            gap == 0.0 <==> SolderLevel(t, x)
  {
    hide LinkSum;
    if x.Extra? {
      hide RingCells, OuterLink, LinkSum, Drop, PrimaryPositive, SecondaryPositive;
      var ring, side, f := RingOf(x.e), SideOf(x.e), Drop(t, t(x));
      RingSum(m, ring, side, f);
      LinkSumConcat(RingCells(m, ring, side), SlopeInner(m, ring, side), f);
      LinkSumConcat(RingCells(m, ring, side) + SlopeInner(m, ring, side), OuterLink(m, ring, side), f);
      if ring.SolderRing? {
        NoTerms(f);
        RingPositive(m, SubRing, side);
        OneDrop(InnerLink(m, ring, side)[0], t, t(x));
        Quotient(t(Extra(At(SubRing, side))) - t(x), OuterResistance(m, SubRing, side), 0.0);
      }
    }
  }

  /** The slope at a node is that of the network exactly if the node is not in the solder, or no warmer or
      colder than the substrate beside it. */
  lemma SlopeIffLevel(m: Model, c: Caps, p: Temps, t: Temps, x: Node)
    requires Proper(m) && Capacious(m, c) && IsNode(m, x)
    ensures Capacitance(m, c, x) > 0.0
    ensures WrittenSlope(m, c, p, t, x) == SlopeAt(m, p, t, x, Capacitance(m, c, x)) <==> SolderLevel(t, x)
  {
    hide Drop, LinkSum, Links, SlopeLinks, Amb, Capacitance, SolderLevel, PrimaryPositive, SecondaryPositive;
    assert Capacitance(m, c, x) > 0.0;
    LeftOut(m, t, x);
    SameQuotient(p(x) + (FromAmbient(m, x, t(x)) + LinkSum(SlopeLinks(m, x), Drop(t, t(x)))),
                 p(x) + (m.ambient - t(x)) * Amb(m, x) + LinkSum(Links(m, x), Drop(t, t(x))), Capacitance(m, c, x));
  }

  lemma SameQuotient(a: real, b: real, c: real)
    requires c > 0.0
    ensures a / c == b / c <==> a == b
  {
    Quotient(a, c, b / c);
    Quotient(b, c, b / c);
  }

  /** Without the secondary path, the transient model is at rest exactly if every node is in balance. */
  lemma RestIffSteady(m: Model, c: Caps, p: Temps, t: Temps)
    requires Proper(m) && Capacious(m, c) && !m.secondary
    ensures (forall x | IsNode(m, x) :: WrittenSlope(m, c, p, t, x) == 0.0) <==>
            (forall x | IsNode(m, x) :: Balanced(m, p, t, x))
  {
    hide WrittenSlope, SlopeAt, Balanced, Capacitance, PrimaryPositive, SecondaryPositive;
    forall x | IsNode(m, x)
      ensures WrittenSlope(m, c, p, t, x) == 0.0 <==> Balanced(m, p, t, x)
    {
      SlopeIffLevel(m, c, p, t, x);
      RestIffBalanced(m, p, t, x, Capacitance(m, c, x));
    }
  }

  /** With it, a steady state of the network is at rest in the transient model exactly if the solder is
      level with the substrate on every side. */
  lemma SteadyAtRestIffLevel(m: Model, c: Caps, p: Temps, t: Temps)
    requires Proper(m) && Capacious(m, c) && m.secondary && forall x | IsNode(m, x) :: Balanced(m, p, t, x)
    ensures (forall x | IsNode(m, x) :: WrittenSlope(m, c, p, t, x) == 0.0) <==>
            (forall side: Side :: t(Extra(At(SubRing, side))) == t(Extra(At(SolderRing, side))))
  {
    hide WrittenSlope, SlopeAt, Balanced, Capacitance, PrimaryPositive, SecondaryPositive;
    forall x | IsNode(m, x)
      ensures WrittenSlope(m, c, p, t, x) == 0.0 <==> SolderLevel(t, x)
    {
      SlopeIffLevel(m, c, p, t, x);
      RestIffBalanced(m, p, t, x, Capacitance(m, c, x));
    }
    forall side: Side
      ensures IsNode(m, Extra(At(SolderRing, side))) && RingOf(At(SolderRing, side)) == SolderRing
      ensures SideOf(At(SolderRing, side)) == side
    {
      RingAndSide(SolderRing, side);
    }
    forall x | IsNode(m, x) && x.Extra?
      ensures At(RingOf(x.e), SideOf(x.e)) == x.e
    {
      AtRingAndSide(x.e);
    }
  }
}
