/** The thermal network of the grid model (HotSpot/temperature_grid.c, uniform layers, with or without
    the secondary heat path): which nodes are linked through which resistance, and what balance at a
    node means. */
module GridNetwork {
  import opened Numbers

  /** A grid cell of a layer, in row i and column j, or one of the nodes of the package around the grid. */
  datatype Node = Cell(l: int, i: int, j: int) | Extra(e: int)

  datatype Link = Link(to: Node, r: real)

  datatype Layer = Layer(rx: real, ry: real, rz: real, c: real)

  /** package_RC_t: the resistances, first those of the primary path. The last two are of the
      configuration: convection at the board, and the side of the board. */
  datatype Pack = Pack(rSp1X: real, rSp1Y: real, rHs1X: real, rHs1Y: real, rHs2X: real, rHs2Y: real, rHs: real,
                       rSpPerX: real, rSpPerY: real, rHsCPerX: real, rHsCPerY: real, rAmbCPerX: real, rAmbCPerY: real,
                       rHsPer: real, rAmbPer: real,
                       rSub1X: real, rSub1Y: real, rSolder1X: real, rSolder1Y: real, rPcb1X: real, rPcb1Y: real,
                       rPcb2X: real, rPcb2Y: real, rPcb: real, rSolderPerX: real, rSolderPerY: real,
                       rPcbCPerX: real, rPcbCPerY: real, rAmbSecCPerX: real, rAmbSecCPerY: real, rAmbSecPer: real,
                       rConvecSec: real, sPcb: real)

  datatype Model = Model(layers: seq<Layer>, nr: nat, nc: nat, width: real, height: real, pack: Pack, ambient: real,
                         secondary: bool)

  const EXTRA: nat := 12
  const EXTRA_SEC: nat := 16

  /** The nodes around the grid come in rings of four. */
  datatype Ring = SpRing | SinkIn | SinkOut | SubRing | SolderRing | PcbIn | PcbOut

  datatype Side = OnNorth | OnSouth | OnEast | OnWest

  /** The number of the first node of a ring, and of a side within its ring: SP_W is 0, SP_E is 1,
      SP_N is 2, SP_S is 3, SINK_C_W is 4, and so on. */
  function RingBase(ring: Ring): nat {
    match ring
    case SpRing => 0
    case SinkIn => 4
    case SinkOut => 8
    case SubRing => 12
    case SolderRing => 16
    case PcbIn => 20
    case PcbOut => 24
  }

  function SideBase(side: Side): nat {
    match side case OnWest => 0 case OnEast => 1 case OnNorth => 2 case OnSouth => 3
  }

  function At(ring: Ring, side: Side): (e: nat)
    ensures e < EXTRA + EXTRA_SEC && (e < EXTRA <==> Primary(ring))
  {
    RingBase(ring) + SideBase(side)
  }

  predicate Primary(ring: Ring) {
    ring.SpRing? || ring.SinkIn? || ring.SinkOut?
  }

  function RingOf(e: int): Ring {
    if e < 4 then SpRing else if e < 8 then SinkIn else if e < 12 then SinkOut else if e < 16 then SubRing
    else if e < 20 then SolderRing else if e < 24 then PcbIn else PcbOut
  }

  function SideOf(e: int): Side {
    if e % 4 == 0 then OnWest else if e % 4 == 1 then OnEast else if e % 4 == 2 then OnNorth else OnSouth
  }

  lemma RingAndSide(ring: Ring, side: Side)
    ensures RingOf(At(ring, side)) == ring && SideOf(At(ring, side)) == side
  {
  }

  lemma AtRingAndSide(e: int)
    requires 0 <= e < EXTRA + EXTRA_SEC
    ensures At(RingOf(e), SideOf(e)) == e
  {
  }

  function ExtraCount(m: Model): nat {
    if m.secondary then EXTRA + EXTRA_SEC else EXTRA
  }

  /** A value for the direction of a side: y for north and south, x for east and west. */
  function Along(side: Side, x: real, y: real): real {
    if side.OnNorth? || side.OnSouth? then y else x
  }

  // ----- the layers of the package -----

  /** Spreader and sink are the last layers; board, solder and substrate, if they are modelled, the
      first. */
  function SpIdx(m: Model): int { |m.layers| - 2 }
  function HsIdx(m: Model): int { |m.layers| - 1 }
  const LAYER_PCB: nat := 0
  const LAYER_SOLDER: nat := 1
  const LAYER_SUB: nat := 2

  /** The layers that have a ring around them. */
  predicate Ringed(m: Model, l: int) {
    l == SpIdx(m) || l == HsIdx(m) || (m.secondary && LAYER_PCB <= l <= LAYER_SUB)
  }

  function RingAt(m: Model, l: int): Ring {
    if l == SpIdx(m) then SpRing else if l == HsIdx(m) then SinkIn
    else if l == LAYER_SUB then SubRing else if l == LAYER_SOLDER then SolderRing else PcbIn
  }

  predicate HasLayer(ring: Ring) {
    !ring.SinkOut? && !ring.PcbOut?
  }

  function RingLayer(m: Model, ring: Ring): int
    requires HasLayer(ring)
  {
    match ring
    case SpRing => SpIdx(m)
    case SinkIn => HsIdx(m)
    case SubRing => LAYER_SUB
    case SolderRing => LAYER_SOLDER
    case PcbIn => LAYER_PCB
  }

  /** The resistance within a ring's part of its layer. */
  function RingResistance(m: Model, ring: Ring, side: Side): real {
    match ring
    case SpRing => Along(side, m.pack.rSp1X, m.pack.rSp1Y)
    case SinkIn => Along(side, m.pack.rHs1X, m.pack.rHs1Y)
    case SubRing => Along(side, m.pack.rSub1X, m.pack.rSub1Y)
    case SolderRing => Along(side, m.pack.rSolder1X, m.pack.rSolder1Y)
    case PcbIn => Along(side, m.pack.rPcb1X, m.pack.rPcb1Y)
    case _ => 1.0
  }

  /** The rings of each path are a chain: spreader, inner sink, outer sink; and substrate, solder, inner
      board, outer board. */
  predicate HasOuter(ring: Ring) {
    !ring.SinkOut? && !ring.PcbOut?
  }

  function OuterOf(ring: Ring): Ring
    requires HasOuter(ring)
  {
    match ring
    case SpRing => SinkIn
    case SinkIn => SinkOut
    case SubRing => SolderRing
    case SolderRing => PcbIn
    case PcbIn => PcbOut
  }

  predicate HasInner(ring: Ring) {
    !ring.SpRing? && !ring.SubRing?
  }

  function InnerOf(ring: Ring): (r: Ring)
    requires HasInner(ring)
    ensures HasOuter(r) && OuterOf(r) == ring
  {
    match ring
    case SinkIn => SpRing
    case SinkOut => SinkIn
    case SolderRing => SubRing
    case PcbIn => SolderRing
    case PcbOut => PcbIn
  }

  /** Between a node and the one of the next ring. */
  function OuterResistance(m: Model, ring: Ring, side: Side): real {
    match ring
    case SpRing => Along(side, m.pack.rSpPerX, m.pack.rSpPerY)
    case SinkIn => Along(side, m.pack.rHs2X, m.pack.rHs2Y) + m.pack.rHs
    case SubRing => Along(side, m.pack.rSolderPerX, m.pack.rSolderPerY)
    case SolderRing => Along(side, m.pack.rPcbCPerX, m.pack.rPcbCPerY)
    case PcbIn => Along(side, m.pack.rPcb2X, m.pack.rPcb2Y) + m.pack.rPcb
    case _ => 1.0
  }

  predicate HasAmbient(ring: Ring) {
    ring.SinkIn? || ring.SinkOut? || ring.PcbIn? || ring.PcbOut?
  }

  function AmbientResistance(m: Model, ring: Ring, side: Side): real {
    match ring
    case SinkIn => Along(side, m.pack.rHsCPerX, m.pack.rHsCPerY) + Along(side, m.pack.rAmbCPerX, m.pack.rAmbCPerY)
    case SinkOut => m.pack.rHsPer + m.pack.rAmbPer
    case PcbIn => Along(side, m.pack.rAmbSecCPerX, m.pack.rAmbSecCPerY)
    case PcbOut => m.pack.rAmbSecPer
    case _ => 1.0
  }

  function CellArea(m: Model): real
    requires m.nr > 0 && m.nc > 0
  {
    m.width / m.nc as real * (m.height / m.nr as real)
  }

  function Product(a: real, b: real): real {
    a * b
  }

  function Squared(x: real): real {
    Product(x, x)
  }

  lemma ProductsPositive(a: real, b: real)
    requires a > 0.0 && b > 0.0
    ensures Product(a, b) > 0.0
  {
    ProductPositive(a, b);
  }

  lemma SquaredPositive(s: real)
    requires s > 0.0
    ensures Squared(s) > 0.0
  {
    hide Product;
    ProductsPositive(s, s);
  }

  /** The resistance from a cell of the board to ambient. */
  function BoardResistance(m: Model): real
    requires m.nr > 0 && m.nc > 0
  {
    m.pack.rConvecSec * Squared(m.pack.sPcb) * Inverse(CellArea(m))
  }

  /** There are the layers of the package, and none of them twice. */
  predicate Tall(m: Model) {
    |m.layers| >= (if m.secondary then 5 else 2)
  }

  /** All resistances and capacitances are positive. */
  ghost predicate Proper(m: Model) {
    Tall(m) && m.nr >= 1 && m.nc >= 1 && m.width > 0.0 && m.height > 0.0 &&
    (forall l | 0 <= l < |m.layers| ::
      m.layers[l].rx > 0.0 && m.layers[l].ry > 0.0 && m.layers[l].rz > 0.0 && m.layers[l].c > 0.0) &&
    PrimaryPositive(m.pack) && (m.secondary ==> SecondaryPositive(m.pack))
  }

  ghost predicate PrimaryPositive(k: Pack) {
    k.rSp1X > 0.0 && k.rSp1Y > 0.0 && k.rHs1X > 0.0 && k.rHs1Y > 0.0 && k.rHs2X > 0.0 && k.rHs2Y > 0.0 && k.rHs > 0.0 &&
    k.rSpPerX > 0.0 && k.rSpPerY > 0.0 && k.rHsCPerX > 0.0 && k.rHsCPerY > 0.0 && k.rAmbCPerX > 0.0 &&
    k.rAmbCPerY > 0.0 &&
    k.rHsPer > 0.0 && k.rAmbPer > 0.0
  }

  ghost predicate SecondaryPositive(k: Pack) {
    k.rSub1X > 0.0 && k.rSub1Y > 0.0 && k.rSolder1X > 0.0 && k.rSolder1Y > 0.0 && k.rPcb1X > 0.0 && k.rPcb1Y > 0.0 &&
    k.rPcb2X > 0.0 && k.rPcb2Y > 0.0 && k.rPcb > 0.0 && k.rSolderPerX > 0.0 && k.rSolderPerY > 0.0 &&
    k.rPcbCPerX > 0.0 && k.rPcbCPerY > 0.0 && k.rAmbSecCPerX > 0.0 && k.rAmbSecCPerY > 0.0 && k.rAmbSecPer > 0.0 &&
    k.rConvecSec > 0.0 && k.sPcb > 0.0
  }

  /** And the grid is at least two by two. */
  ghost predicate Broad(m: Model) {
    Proper(m) && m.nr >= 2 && m.nc >= 2
  }

  predicate IsNode(m: Model, x: Node) {
    match x
    case Cell(l, i, j) => 0 <= l < |m.layers| && 0 <= i < m.nr && 0 <= j < m.nc
    case Extra(e) => 0 <= e < ExtraCount(m)
  }

  /** Which rings there are. */
  predicate Present(m: Model, ring: Ring) {
    m.secondary || Primary(ring)
  }

  // ----- sums over links -----

  type Weight = Link -> real

  function LinkSum(links: seq<Link>, f: Weight): real {
    if links == [] then 0.0 else LinkSum(links[..|links| - 1], f) + f(links[|links| - 1])
  }

  lemma {:induction false} LinkSumConcat(a: seq<Link>, b: seq<Link>, f: Weight)
    ensures LinkSum(a + b, f) == LinkSum(a, f) + LinkSum(b, f)
  {
    if b == [] {
      assert a + b == a;
    } else {
      var k := |b| - 1;
      assert (a + b)[..|a + b| - 1] == a + b[..k];
      LinkSumConcat(a, b[..k], f);
    }
  }

  lemma LinkSumOne(k: Link, f: Weight)
    ensures LinkSum([k], f) == f(k)
  {
    assert [k][..0] == [];
  }

  lemma {:induction false} LinkSumSame(links: seq<Link>, f: Weight, g: Weight)
    requires forall k | k in links :: f(k) == g(k)
    ensures LinkSum(links, f) == LinkSum(links, g)
  {
    if links != [] {
      LinkSumSame(links[..|links| - 1], f, g);
    }
  }

  lemma {:induction false} LinkSumOrdered(links: seq<Link>, f: Weight, g: Weight)
    requires forall k | k in links :: f(k) <= g(k)
    ensures LinkSum(links, f) <= LinkSum(links, g)
  {
    if links != [] {
      LinkSumOrdered(links[..|links| - 1], f, g);
    }
  }

  lemma {:induction false} LinkSumTimes(links: seq<Link>, c: real, f: Weight, g: Weight)
    requires forall k | k in links :: g(k) == c * f(k)
    ensures LinkSum(links, g) == c * LinkSum(links, f)
  {
    if links != [] {
      LinkSumTimes(links[..|links| - 1], c, f, g);
    }
  }

  // ----- the links of a cell -----

  function North(m: Model, l: nat, i: int, j: int): seq<Link>
    requires l < |m.layers|
  {
    if i > 0 then [Link(Cell(l, i - 1, j), m.layers[l].ry)] else []
  }

  function South(m: Model, l: nat, i: int, j: int): seq<Link>
    requires l < |m.layers|
  {
    if i < m.nr - 1 then [Link(Cell(l, i + 1, j), m.layers[l].ry)] else []
  }

  function East(m: Model, l: nat, i: int, j: int): seq<Link>
    requires l < |m.layers|
  {
    if j < m.nc - 1 then [Link(Cell(l, i, j + 1), m.layers[l].rx)] else []
  }

  function West(m: Model, l: nat, i: int, j: int): seq<Link>
    requires l < |m.layers|
  {
    if j > 0 then [Link(Cell(l, i, j - 1), m.layers[l].rx)] else []
  }

  function Above(m: Model, l: nat, i: int, j: int): seq<Link>
    requires l < |m.layers|
  {
    if l > 0 then [Link(Cell(l - 1, i, j), m.layers[l - 1].rz)] else []
  }

  function Below(m: Model, l: nat, i: int, j: int): seq<Link>
    requires l < |m.layers|
  {
    if l < |m.layers| - 1 then [Link(Cell(l + 1, i, j), m.layers[l].rz)] else []
  }

  /** Half a cell, and the share of the cell in the resistance beyond it. */
  function EdgeOf(half: real, count: nat, r: real): real {
    half / 2.0 + count as real * r
  }

  /** The resistance from a cell along a side of a layer to the node of its ring on that side. */
  function EdgeResistance(m: Model, l: nat, side: Side): real
    requires l < |m.layers|
  {
    if side.OnNorth? || side.OnSouth? then EdgeOf(m.layers[l].ry, m.nc, RingResistance(m, RingAt(m, l), side))
    else EdgeOf(m.layers[l].rx, m.nr, RingResistance(m, RingAt(m, l), side))
  }

  predicate AtEdge(m: Model, side: Side, i: int, j: int) {
    match side
    case OnNorth => i == 0
    case OnSouth => i == m.nr - 1
    case OnEast => j == m.nc - 1
    case OnWest => j == 0
  }

  /** From an edge cell of a layer with a ring to the node of the ring on that side. */
  function SideList(m: Model, l: nat, side: Side, i: int, j: int): seq<Link>
    requires l < |m.layers|
  {
    if AtEdge(m, side, i, j) && Ringed(m, l) then [Link(Extra(At(RingAt(m, l), side)), EdgeResistance(m, l, side))]
    else []
  }

  function CellLinks(m: Model, l: nat, i: int, j: int): seq<Link>
    requires l < |m.layers|
  {
    North(m, l, i, j) + South(m, l, i, j) + East(m, l, i, j) + West(m, l, i, j) + Above(m, l, i, j) +
    Below(m, l, i, j) +
    SideList(m, l, OnNorth, i, j) + SideList(m, l, OnSouth, i, j) + SideList(m, l, OnEast, i, j) +
    SideList(m, l, OnWest, i, j)
  }

  /** A sum over the links of a cell, direction by direction. */
  lemma CellSum(m: Model, l: nat, i: int, j: int, f: Weight)
    requires l < |m.layers|
    ensures LinkSum(CellLinks(m, l, i, j), f) ==
            LinkSum(North(m, l, i, j), f) + LinkSum(South(m, l, i, j), f) + LinkSum(East(m, l, i, j), f) +
            LinkSum(West(m, l, i, j), f) + LinkSum(Above(m, l, i, j), f) + LinkSum(Below(m, l, i, j), f) +
            LinkSum(SideList(m, l, OnNorth, i, j), f) + LinkSum(SideList(m, l, OnSouth, i, j), f) +
            LinkSum(SideList(m, l, OnEast, i, j), f) + LinkSum(SideList(m, l, OnWest, i, j), f)
  {
    hide North, South, East, West, Above, Below, SideList, LinkSum;
    var n, s, e, w := North(m, l, i, j), South(m, l, i, j), East(m, l, i, j), West(m, l, i, j);
    var a, b := Above(m, l, i, j), Below(m, l, i, j);
    var ns, ss := SideList(m, l, OnNorth, i, j), SideList(m, l, OnSouth, i, j);
    var es, ws := SideList(m, l, OnEast, i, j), SideList(m, l, OnWest, i, j);
    LinkSumConcat(n, s, f);
    LinkSumConcat(n + s, e, f);
    LinkSumConcat(n + s + e, w, f);
    LinkSumConcat(n + s + e + w, a, f);
    LinkSumConcat(n + s + e + w + a, b, f);
    LinkSumConcat(n + s + e + w + a + b, ns, f);
    LinkSumConcat(n + s + e + w + a + b + ns, ss, f);
    LinkSumConcat(n + s + e + w + a + b + ns + ss, es, f);
    LinkSumConcat(n + s + e + w + a + b + ns + ss + es, ws, f);
  }

  // ----- the links of the nodes around the grid -----

  function SideLength(m: Model, side: Side): nat {
    if side.OnNorth? || side.OnSouth? then m.nc else m.nr
  }

  /** Cell k along one side of a layer. */
  function SideCell(m: Model, l: int, side: Side, k: int): Node {
    match side
    case OnNorth => Cell(l, 0, k)
    case OnSouth => Cell(l, m.nr - 1, k)
    case OnEast => Cell(l, k, m.nc - 1)
    case OnWest => Cell(l, k, 0)
  }

  /** To all the cells along one side. */
  function SideLinks(m: Model, l: int, side: Side, r: real): (s: seq<Link>)
    ensures |s| == SideLength(m, side) && forall k | 0 <= k < |s| :: s[k] == Link(SideCell(m, l, side, k), r)
  {
    seq(SideLength(m, side), k requires 0 <= k < SideLength(m, side) => Link(SideCell(m, l, side, k), r))
  }

  /** The links of a node of a ring: to the cells of its side, inwards and outwards. */
  function RingCells(m: Model, ring: Ring, side: Side): seq<Link>
    requires Tall(m) && Present(m, ring)
  {
    if HasLayer(ring) then SideLinks(m, RingLayer(m, ring), side, EdgeResistance(m, RingLayer(m, ring), side)) else []
  }

  function InnerLink(m: Model, ring: Ring, side: Side): seq<Link> {
    if HasInner(ring) then [Link(Extra(At(InnerOf(ring), side)), OuterResistance(m, InnerOf(ring), side))] else []
  }

  function OuterLink(m: Model, ring: Ring, side: Side): seq<Link> {
    if HasOuter(ring) then [Link(Extra(At(OuterOf(ring), side)), OuterResistance(m, ring, side))] else []
  }

  function RingLinks(m: Model, ring: Ring, side: Side): seq<Link>
    requires Tall(m) && Present(m, ring)
  {
    RingCells(m, ring, side) + InnerLink(m, ring, side) + OuterLink(m, ring, side)
  }

  lemma RingSum(m: Model, ring: Ring, side: Side, f: Weight)
    requires Tall(m) && Present(m, ring)
    ensures LinkSum(RingLinks(m, ring, side), f) ==
            LinkSum(RingCells(m, ring, side), f) + LinkSum(InnerLink(m, ring, side), f) +
            LinkSum(OuterLink(m, ring, side), f)
  {
    hide RingCells, InnerLink, OuterLink, LinkSum;
    LinkSumConcat(RingCells(m, ring, side), InnerLink(m, ring, side), f);
    LinkSumConcat(RingCells(m, ring, side) + InnerLink(m, ring, side), OuterLink(m, ring, side), f);
  }

  function Links(m: Model, x: Node): seq<Link>
    requires Tall(m) && IsNode(m, x)
  {
    match x
    case Cell(l, i, j) => CellLinks(m, l, i, j)
    case Extra(e) => RingLinks(m, RingOf(e), SideOf(e))
  }

  /** 1/r, for the resistances that occur. */
  function Inverse(r: real): real {
    if r > 0.0 then 1.0 / r else 0.0
  }

  /** The conductance from a node to ambient. */
  function Amb(m: Model, x: Node): real
    requires Tall(m) && IsNode(m, x)
  {
    match x
    case Cell(l, _, _) =>
      if l == HsIdx(m) then Inverse(m.layers[l].rz)
      else if m.secondary && l == LAYER_PCB then Inverse(BoardResistance(m)) else 0.0
    case Extra(e) => if HasAmbient(RingOf(e)) then Inverse(AmbientResistance(m, RingOf(e), SideOf(e))) else 0.0
  }

  // ----- balance -----

  type Temps = Node -> real

  const Conductance: Weight := (k: Link) => Inverse(k.r)

  /** A temperature weighted by a conductance. */
  function Scaled(t: real, r: real): real {
    t * Inverse(r)
  }

  function Flow(t: Temps): Weight {
    (k: Link) => Scaled(t(k.to), k.r)
  }

  /** Ambient, weighted like a neighbour. */
  function AmbFlow(m: Model, x: Node): real
    requires Tall(m) && IsNode(m, x)
  {
    m.ambient * Amb(m, x)
  }

  /** The sum of the conductances at a node, and of the temperatures around it weighted by them. */
  function CSum(m: Model, x: Node): real
    requires Tall(m) && IsNode(m, x)
  {
    Amb(m, x) + LinkSum(Links(m, x), Conductance)
  }

  function WSum(m: Model, t: Temps, x: Node): real
    requires Tall(m) && IsNode(m, x)
  {
    AmbFlow(m, x) + LinkSum(Links(m, x), Flow(t))
  }

  /** What flows out of a node is the power that it is given. */
  ghost predicate Balanced(m: Model, p: Temps, t: Temps, x: Node)
    requires Tall(m) && IsNode(m, x)
  {
    CSum(m, x) * t(x) - WSum(m, t, x) == p(x)
  }

  // ----- facts about the links -----

  ghost predicate GoodLinks(m: Model, links: seq<Link>) {
    forall k | k in links :: IsNode(m, k.to) && k.r > 0.0
  }

  lemma LinksGood(m: Model, x: Node)
    requires Proper(m) && IsNode(m, x)
    ensures GoodLinks(m, Links(m, x))
  {
    match x
    case Cell(l, i, j) => CellLinksGood(m, l, i, j);
    case Extra(e) => RingLinksGood(m, RingOf(e), SideOf(e));
  }

  lemma RingPositive(m: Model, ring: Ring, side: Side)
    requires Proper(m) && Present(m, ring)
    ensures RingResistance(m, ring, side) > 0.0 && OuterResistance(m, ring, side) > 0.0
    ensures AmbientResistance(m, ring, side) > 0.0
  {
  }

  lemma ShareOfMany(n: nat, r: real)
    requires n > 0 && r > 0.0
    ensures n as real * r > 0.0
  {
  }

  lemma EdgePositive(m: Model, l: nat, side: Side)
    requires Proper(m) && l < |m.layers| && Ringed(m, l)
    ensures EdgeResistance(m, l, side) > 0.0
  {
    RingPositive(m, RingAt(m, l), side);
    ShareOfMany(m.nc, RingResistance(m, RingAt(m, l), side));
    ShareOfMany(m.nr, RingResistance(m, RingAt(m, l), side));
  }

  /** The package's resistances beyond the sides of a layer. */
  predicate RimOfLayer(m: Model, l: nat, x1: real, y1: real) {
    if l == SpIdx(m) then x1 == m.pack.rSp1X && y1 == m.pack.rSp1Y
    else if l == HsIdx(m) then x1 == m.pack.rHs1X && y1 == m.pack.rHs1Y
    else if l == LAYER_SUB then x1 == m.pack.rSub1X && y1 == m.pack.rSub1Y
    else if l == LAYER_SOLDER then x1 == m.pack.rSolder1X && y1 == m.pack.rSolder1Y
    else x1 == m.pack.rPcb1X && y1 == m.pack.rPcb1Y
  }

  /** The resistance of an edge cell as it is written at each layer of the package. */
  lemma EdgeWritten(m: Model, l: nat, side: Side, x1: real, y1: real)
    requires Tall(m) && l < |m.layers| && Ringed(m, l)
    requires RimOfLayer(m, l, x1, y1)
    ensures EdgeResistance(m, l, side) ==
            Along(side, m.layers[l].rx / 2.0 + m.nr as real * x1, m.layers[l].ry / 2.0 + m.nc as real * y1)
  {
  }

  /** A layer's ring has that layer, and the other way round. */
  lemma RingsOfLayers(m: Model, ring: Ring)
    requires Tall(m) && Present(m, ring) && HasLayer(ring)
    ensures 0 <= RingLayer(m, ring) < |m.layers| && Ringed(m, RingLayer(m, ring))
    ensures RingAt(m, RingLayer(m, ring)) == ring
  {
  }

  lemma LayersOfRings(m: Model, l: int)
    requires Tall(m) && 0 <= l < |m.layers| && Ringed(m, l)
    ensures Present(m, RingAt(m, l)) && HasLayer(RingAt(m, l)) && RingLayer(m, RingAt(m, l)) == l
  {
  }

  lemma CellLinksGood(m: Model, l: nat, i: int, j: int)
    requires Proper(m) && IsNode(m, Cell(l, i, j))
    ensures GoodLinks(m, CellLinks(m, l, i, j))
  {
    forall side: Side
      ensures GoodLinks(m, SideList(m, l, side, i, j))
    {
      SideGood(m, l, side, i, j);
    }
    assert GoodLinks(m, SideList(m, l, OnNorth, i, j)) && GoodLinks(m, SideList(m, l, OnSouth, i, j));
    assert GoodLinks(m, SideList(m, l, OnEast, i, j)) && GoodLinks(m, SideList(m, l, OnWest, i, j));
    hide SideList;
    assert GoodLinks(m, North(m, l, i, j)) && GoodLinks(m, South(m, l, i, j)) && GoodLinks(m, East(m, l, i, j)) &&
           GoodLinks(m, West(m, l, i, j)) && GoodLinks(m, Above(m, l, i, j)) && GoodLinks(m, Below(m, l, i, j));
  }

  lemma SideGood(m: Model, l: nat, side: Side, i: int, j: int)
    requires Proper(m) && IsNode(m, Cell(l, i, j))
    ensures GoodLinks(m, SideList(m, l, side, i, j))
  {
    hide EdgeResistance;
    if Ringed(m, l) {
      EdgePositive(m, l, side);
      LayersOfRings(m, l);
    }
  }

  lemma RingLinksGood(m: Model, ring: Ring, side: Side)
    requires Proper(m) && Present(m, ring)
    ensures GoodLinks(m, RingLinks(m, ring, side))
  {
    hide EdgeResistance, OuterResistance;
    if HasLayer(ring) {
      RingsOfLayers(m, ring);
      EdgePositive(m, RingLayer(m, ring), side);
    }
    assert GoodLinks(m, RingCells(m, ring, side));
    if HasInner(ring) {
      RingPositive(m, InnerOf(ring), side);
    }
    assert GoodLinks(m, InnerLink(m, ring, side));
    RingPositive(m, ring, side);
    assert GoodLinks(m, OuterLink(m, ring, side));
  }

  lemma {:induction false} ConductancePositive(links: seq<Link>)
    requires links != [] && forall k | k in links :: k.r > 0.0
    ensures LinkSum(links, Conductance) > 0.0
  {
    var rest, last := links[..|links| - 1], links[|links| - 1];
    assert last in links && Conductance(last) > 0.0;
    if rest != [] {
      ConductancePositive(rest);
    } else {
      assert LinkSum(rest, Conductance) == 0.0;
    }
  }

  lemma HasLinks(m: Model, x: Node)
    requires Proper(m) && IsNode(m, x)
    ensures Links(m, x) != []
  {
    match x
    case Cell(l, i, j) =>
      assert |Above(m, l, i, j) + Below(m, l, i, j)| > 0;
    case Extra(e) =>
      assert |InnerLink(m, RingOf(e), SideOf(e)) + OuterLink(m, RingOf(e), SideOf(e))| > 0;
  }

  /** No node is cut off, so that a sweep never divides by zero. */
  lemma CSumPositive(m: Model, x: Node)
    requires Proper(m) && IsNode(m, x)
    ensures CSum(m, x) > 0.0 && Amb(m, x) >= 0.0
  {
    LinksGood(m, x);
    HasLinks(m, x);
    AmbNotNegative(m, x);
    hide Links, Amb;
    ConductancePositive(Links(m, x));
  }

  lemma AmbNotNegative(m: Model, x: Node)
    requires Proper(m) && IsNode(m, x)
    ensures Amb(m, x) >= 0.0
  {
    hide BoardResistance, AmbientResistance;
  }

  // ----- every link is seen from both ends -----

  lemma InCellLinks(m: Model, l: nat, i: int, j: int, k: Link)
    requires Proper(m) && IsNode(m, Cell(l, i, j))
    ensures k in CellLinks(m, l, i, j) <==>
            k in North(m, l, i, j) || k in South(m, l, i, j) || k in East(m, l, i, j) || k in West(m, l, i, j) ||
            k in Above(m, l, i, j) || k in Below(m, l, i, j) ||
            k in SideList(m, l, OnNorth, i, j) || k in SideList(m, l, OnSouth, i, j) ||
            k in SideList(m, l, OnEast, i, j) || k in SideList(m, l, OnWest, i, j)
  {
    hide North, South, East, West, Above, Below, SideList;
  }

  /** A node sees the other end of each of its links through the same resistance. */
  lemma LinksSymmetric(m: Model, x: Node, k: Link)
    requires Proper(m) && IsNode(m, x) && k in Links(m, x) && IsNode(m, k.to)
    ensures Link(x, k.r) in Links(m, k.to)
  {
    match x
    case Cell(l, i, j) => CellSymmetric(m, l, i, j, k);
    case Extra(e) =>
      AtRingAndSide(e);
      RingSymmetric(m, RingOf(e), SideOf(e), k);
  }

  lemma CellSymmetric(m: Model, l: nat, i: int, j: int, k: Link)
    requires Proper(m) && IsNode(m, Cell(l, i, j)) && k in CellLinks(m, l, i, j)
    ensures IsNode(m, k.to) && Link(Cell(l, i, j), k.r) in Links(m, k.to)
  {
    InCellLinks(m, l, i, j, k);
    if side: Side :| k in SideList(m, l, side, i, j) {
      SideSymmetric(m, l, side, i, j, k);
    } else {
      GridSymmetric(m, l, i, j, k);
    }
  }

  lemma GridSymmetric(m: Model, l: nat, i: int, j: int, k: Link)
    requires Proper(m) && IsNode(m, Cell(l, i, j))
    requires k in North(m, l, i, j) || k in South(m, l, i, j) || k in East(m, l, i, j) || k in West(m, l, i, j) ||
             k in Above(m, l, i, j) || k in Below(m, l, i, j)
    ensures IsNode(m, k.to) && Link(Cell(l, i, j), k.r) in Links(m, k.to)
  {
    hide CellLinks, SideList;
    var back := Link(Cell(l, i, j), k.r);
    InCellLinks(m, k.to.l, k.to.i, k.to.j, back);
    if k in North(m, l, i, j) {
      assert back in South(m, l, i - 1, j);
    } else if k in South(m, l, i, j) {
      assert back in North(m, l, i + 1, j);
    } else if k in East(m, l, i, j) {
      assert back in West(m, l, i, j + 1);
    } else if k in West(m, l, i, j) {
      assert back in East(m, l, i, j - 1);
    } else if k in Above(m, l, i, j) {
      assert back in Below(m, l - 1, i, j);
    } else {
      assert back in Above(m, l + 1, i, j);
    }
  }

  lemma SideSymmetric(m: Model, l: nat, side: Side, i: int, j: int, k: Link)
    requires Proper(m) && IsNode(m, Cell(l, i, j)) && k in SideList(m, l, side, i, j)
    ensures IsNode(m, k.to) && Link(Cell(l, i, j), k.r) in Links(m, k.to)
  {
    hide EdgeResistance, InnerLink, OuterLink;
    LayersOfRings(m, l);
    RingAndSide(RingAt(m, l), side);
    var s := SideLinks(m, l, side, EdgeResistance(m, l, side));
    var at := if side.OnNorth? || side.OnSouth? then j else i;
    assert SideCell(m, l, side, at) == Cell(l, i, j);
    assert s[at] == Link(Cell(l, i, j), k.r);
    assert s == RingCells(m, RingAt(m, l), side);
  }

  lemma RingSymmetric(m: Model, ring: Ring, side: Side, k: Link)
    requires Proper(m) && Present(m, ring) && k in RingLinks(m, ring, side)
    ensures IsNode(m, k.to) && Link(Extra(At(ring, side)), k.r) in Links(m, k.to)
  {
    hide EdgeResistance, OuterResistance;
    if k in RingCells(m, ring, side) {
      CellBack(m, ring, side, k);
    } else if k in InnerLink(m, ring, side) {
      RingAndSide(InnerOf(ring), side);
      assert Link(Extra(At(ring, side)), k.r) in OuterLink(m, InnerOf(ring), side);
    } else {
      RingAndSide(OuterOf(ring), side);
      assert HasInner(OuterOf(ring)) && InnerOf(OuterOf(ring)) == ring;
      assert Link(Extra(At(ring, side)), k.r) in InnerLink(m, OuterOf(ring), side);
    }
  }

  lemma CellBack(m: Model, ring: Ring, side: Side, k: Link)
    requires Proper(m) && Present(m, ring) && k in RingCells(m, ring, side)
    ensures IsNode(m, k.to) && Link(Extra(At(ring, side)), k.r) in Links(m, k.to)
  {
    hide EdgeResistance, CellLinks;
    RingsOfLayers(m, ring);
    var l := RingLayer(m, ring);
    var s := SideLinks(m, l, side, EdgeResistance(m, l, side));
    var n :| 0 <= n < |s| && s[n] == k;
    var c := SideCell(m, l, side, n);
    assert Link(Extra(At(ring, side)), k.r) in SideList(m, l, side, c.i, c.j);
    InCellLinks(m, l, c.i, c.j, Link(Extra(At(ring, side)), k.r));
  }
}
