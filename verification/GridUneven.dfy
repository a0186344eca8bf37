/** A package in a steady state that the transient grid model does not leave at rest: one cell in each of
    the five layers of the package, every resistance one, and heat in the cells only. The solder is then
    colder than the substrate, and slope_fn_pack (HotSpot/temperature_grid.c) leaves out what flows
    between them. */
module GridUneven {
  import opened GridNetwork
  import opened GridSweep
  import opened GridSlope

  const UNIT_LAYER: Layer := Layer(1.0, 1.0, 1.0, 1.0)

  /** Resistances that occur in sums of two are a half each. */
  const UNIT_PACK: Pack :=
    Pack(0.5, 0.5, 0.5, 0.5, 0.5, 0.5, 0.5, 1.0, 1.0, 0.5, 0.5, 0.5, 0.5, 0.5, 0.5,
         0.5, 0.5, 0.5, 0.5, 0.5, 0.5, 0.5, 0.5, 0.5, 1.0, 1.0, 1.0, 1.0, 1.0, 1.0, 1.0, 1.0, 1.0)

  const AMBIENT: real := 318.15

  const UNEVEN: Model :=
    Model([UNIT_LAYER, UNIT_LAYER, UNIT_LAYER, UNIT_LAYER, UNIT_LAYER], 1, 1, 1.0, 1.0, UNIT_PACK, AMBIENT, true)

  const UNIT_CAPS: Caps :=
    Caps(1.0, 1.0, 1.0, 1.0, 1.0, 1.0, 1.0, 1.0, 1.0, 1.0, 1.0, 1.0, 1.0, 1.0, 1.0, 1.0, 1.0, 1.0)

  /** How much warmer than ambient a cell or a node of a ring is. */
  function CellAbove(l: int): real {
    if l == 0 then 3.0 else if l == 1 then 5.0 else if l == 2 then 6.0 else 4.0
  }

  function RingAbove(ring: Ring): real {
    match ring
    case SpRing => 3.0
    case SinkIn => 2.0
    case SinkOut => 1.0
    case SubRing => 5.0
    case SolderRing => 4.0
    case PcbIn => 2.0
    case PcbOut => 1.0
  }

  function UnevenTemps(): Temps {
    (x: Node) => AMBIENT + match x case Cell(l, _, _) => CellAbove(l) case Extra(e) => RingAbove(RingOf(e))
  }

  /** Only cells have power, and none draws any. */
  function UnevenPower(): Temps {
    (x: Node) =>
      match x
      case Cell(l, _, _) => if l == 2 then 7.0 else if l == 3 then 2.0 else if l == 4 then 12.0 else 5.0
      case Extra(_) => 0.0
  }

  lemma UnevenProper()
    ensures Proper(UNEVEN) && Capacious(UNEVEN, UNIT_CAPS)
  {
  }

  /** All resistances that occur are one. */
  lemma RingsOfOne(ring: Ring, side: Side)
    ensures OuterResistance(UNEVEN, ring, side) == 1.0 && AmbientResistance(UNEVEN, ring, side) == 1.0
  {
  }

  lemma EdgesOfOne(l: nat, side: Side)
    requires l < 5
    ensures Ringed(UNEVEN, l) && EdgeResistance(UNEVEN, l, side) == 1.0
  {
    assert RingResistance(UNEVEN, RingAt(UNEVEN, l), side) == 0.5;
    assert EdgeOf(1.0, 1, 0.5) == 1.0;
  }

  lemma BoardOfOne()
    ensures BoardResistance(UNEVEN) == 1.0
  {
    assert CellArea(UNEVEN) == 1.0;
    assert Squared(1.0) == 1.0;
  }

  /** A sum over links of one. */
  lemma LinkOf(t: Temps, x: Node)
    ensures LinkSum([Link(x, 1.0)], Conductance) == 1.0 && LinkSum([Link(x, 1.0)], Flow(t)) == t(x)
    ensures LinkSum([], Conductance) == 0.0 && LinkSum([], Flow(t)) == 0.0
  {
    LinkSumOne(Link(x, 1.0), Conductance);
    LinkSumOne(Link(x, 1.0), Flow(t));
  }

  lemma SideOfOne(l: nat, side: Side, t: Temps)
    requires l < 5
    ensures LinkSum(SideList(UNEVEN, l, side, 0, 0), Conductance) == 1.0
    ensures LinkSum(SideList(UNEVEN, l, side, 0, 0), Flow(t)) == t(Extra(At(RingAt(UNEVEN, l), side)))
  {
    EdgesOfOne(l, side);
    LinkOf(t, Extra(At(RingAt(UNEVEN, l), side)));
    assert SideList(UNEVEN, l, side, 0, 0) == [Link(Extra(At(RingAt(UNEVEN, l), side)), 1.0)];
  }

  lemma CellSumsOfOne(l: nat, t: Temps, ring: real)
    requires l < 5 && forall side: Side :: t(Extra(At(RingAt(UNEVEN, l), side))) == ring
    ensures LinkSum(CellLinks(UNEVEN, l, 0, 0), Conductance) ==
            (if l > 0 then 1.0 else 0.0) + (if l < 4 then 1.0 else 0.0) + 4.0
    ensures LinkSum(CellLinks(UNEVEN, l, 0, 0), Flow(t)) ==
            (if l > 0 then t(Cell(l - 1, 0, 0)) else 0.0) + (if l < 4 then t(Cell(l + 1, 0, 0)) else 0.0) + 4.0 * ring
  {
    CellSum(UNEVEN, l, 0, 0, Conductance);
    CellSum(UNEVEN, l, 0, 0, Flow(t));
    forall side: Side
      ensures LinkSum(SideList(UNEVEN, l, side, 0, 0), Conductance) == 1.0
      ensures LinkSum(SideList(UNEVEN, l, side, 0, 0), Flow(t)) == ring
    {
      SideOfOne(l, side, t);
    }
    hide SideList, LinkSum, CellLinks;
    assert North(UNEVEN, l, 0, 0) == South(UNEVEN, l, 0, 0) == East(UNEVEN, l, 0, 0) == West(UNEVEN, l, 0, 0) == [];
    LinkOf(t, Cell(l - 1, 0, 0));
    LinkOf(t, Cell(l + 1, 0, 0));
    assert Above(UNEVEN, l, 0, 0) == if l > 0 then [Link(Cell(l - 1, 0, 0), 1.0)] else [];
    assert Below(UNEVEN, l, 0, 0) == if l < 4 then [Link(Cell(l + 1, 0, 0), 1.0)] else [];
  }

  lemma CellBalanced(l: nat)
    requires l < 5
    ensures Balanced(UNEVEN, UnevenPower(), UnevenTemps(), Cell(l, 0, 0))
  {
    hide CellLinks;
    var t := UnevenTemps();
    forall side: Side
      ensures t(Extra(At(RingAt(UNEVEN, l), side))) == AMBIENT + RingAbove(RingAt(UNEVEN, l))
    {
      RingAndSide(RingAt(UNEVEN, l), side);
    }
    CellSumsOfOne(l, t, AMBIENT + RingAbove(RingAt(UNEVEN, l)));
    BoardOfOne();
    hide CellLinks, LinkSum, BoardResistance;
    assert Amb(UNEVEN, Cell(l, 0, 0)) == if l == 0 || l == 4 then 1.0 else 0.0;
  }

  lemma RingCellsOfOne(ring: Ring, side: Side, t: Temps)
    ensures LinkSum(RingCells(UNEVEN, ring, side), Conductance) == if HasLayer(ring) then 1.0 else 0.0
    ensures LinkSum(RingCells(UNEVEN, ring, side), Flow(t)) ==
            if HasLayer(ring) then t(Cell(RingLayer(UNEVEN, ring), 0, 0)) else 0.0
  {
    LinkOf(t, Cell(0, 0, 0));
    if HasLayer(ring) {
      RingsOfLayers(UNEVEN, ring);
      var l := RingLayer(UNEVEN, ring);
      EdgesOfOne(l, side);
      LinkOf(t, Cell(l, 0, 0));
      assert RingCells(UNEVEN, ring, side) == [Link(Cell(l, 0, 0), 1.0)];
    }
  }

  lemma RingBalanced(ring: Ring, side: Side)
    ensures Balanced(UNEVEN, UnevenPower(), UnevenTemps(), Extra(At(ring, side)))
  {
    var t, x := UnevenTemps(), Extra(At(ring, side));
    RingAndSide(ring, side);
    UnevenProper();
    RingCellsOfOne(ring, side, t);
    RingLinksOfOne(ring, side, t);
    RingAmbient(UNEVEN, ring, side);
    RingsOfOne(ring, side);
    RingSum(UNEVEN, ring, side, Conductance);
    RingSum(UNEVEN, ring, side, Flow(t));
    hide RingCells, InnerLink, OuterLink, LinkSum, RingLinks, Amb, AmbientResistance, PrimaryPositive,
         SecondaryPositive;
    assert Amb(UNEVEN, x) == if HasAmbient(ring) then 1.0 else 0.0;
  }

  lemma RingLinksOfOne(ring: Ring, side: Side, t: Temps)
    requires t == UnevenTemps()
    ensures LinkSum(InnerLink(UNEVEN, ring, side), Conductance) == if HasInner(ring) then 1.0 else 0.0
    ensures LinkSum(InnerLink(UNEVEN, ring, side), Flow(t)) ==
            if HasInner(ring) then AMBIENT + RingAbove(InnerOf(ring)) else 0.0
    ensures LinkSum(OuterLink(UNEVEN, ring, side), Conductance) == if HasOuter(ring) then 1.0 else 0.0
    ensures LinkSum(OuterLink(UNEVEN, ring, side), Flow(t)) ==
            if HasOuter(ring) then AMBIENT + RingAbove(OuterOf(ring)) else 0.0
  {
    LinkOf(t, Extra(0));
    hide LinkSum, Flow;
    if HasInner(ring) {
      RingsOfOne(InnerOf(ring), side);
      RingAndSide(InnerOf(ring), side);
      LinkOf(t, Extra(At(InnerOf(ring), side)));
    }
    if HasOuter(ring) {
      RingsOfOne(ring, side);
      RingAndSide(OuterOf(ring), side);
      LinkOf(t, Extra(At(OuterOf(ring), side)));
    }
  }

  /** Every node is in balance, with heat in the cells only and none taken out; and yet the transient model
      is not at rest. */
  lemma SteadyNotAtRest()
    ensures Proper(UNEVEN) && Capacious(UNEVEN, UNIT_CAPS)
    ensures forall e :: UnevenPower()(Extra(e)) == 0.0
    ensures forall x :: UnevenPower()(x) >= 0.0
    ensures forall x | IsNode(UNEVEN, x) :: Balanced(UNEVEN, UnevenPower(), UnevenTemps(), x)
    ensures !(forall x | IsNode(UNEVEN, x) :: WrittenSlope(UNEVEN, UNIT_CAPS, UnevenPower(), UnevenTemps(), x) == 0.0)
  {
    UnevenProper();
    hide Balanced, WrittenSlope, Capacious, Proper;
    forall x | IsNode(UNEVEN, x)
      ensures Balanced(UNEVEN, UnevenPower(), UnevenTemps(), x)
    {
      match x
      case Cell(l, i, j) => CellBalanced(l);
      case Extra(e) =>
        AtRingAndSide(e);
        RingBalanced(RingOf(e), SideOf(e));
    }
    SteadyAtRestIffLevel(UNEVEN, UNIT_CAPS, UnevenPower(), UnevenTemps());
    RingAndSide(SubRing, OnNorth);
    RingAndSide(SolderRing, OnNorth);
    assert UnevenTemps()(Extra(At(SubRing, OnNorth))) != UnevenTemps()(Extra(At(SolderRing, OnNorth)));
  }
}
