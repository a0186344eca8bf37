/** How populate_R_model_block (HotSpot/temperature_block.c) comes by its conductances: from the
    floorplan and the package, part by part. That every node has a path to ambient, and that the two
    parts of a link are zero together, is proved here of the loops. */
module BlockFill {
  import opened Numbers
  import opened Geometry
  import opened Adjacency
  import opened LupFactors
  import opened ThermalNetwork
  import opened Lup
  import opened BlockModel
  import Network = GridNetwork

  /** The four layers are silicon, interface, spreader and sink. */
  datatype Material = Material(k: real, t: real)

  /** What the conductances are made from: the units, materials and thicknesses, the package, the size
      of the chip. */
  datatype Chip = Chip(units: seq<Rect>, materials: seq<Material>, pack: Network.Pack, rConvec: real, sSink: real,
                       sSpreader: real, width: real, height: real, omitLateral: bool)

  ghost predicate Proper(c: Chip) {
    |c.units| >= 1 && (forall i | 0 <= i < |c.units| :: Solid(c.units[i])) &&
    |c.materials| == NL && (forall k | 0 <= k < NL :: c.materials[k].k > 0.0 && c.materials[k].t > 0.0) &&
    Network.PrimaryPositive(c.pack) && c.rConvec > 0.0 && c.sSink > 0.0
  }

  // ----- nodes -----

  /** A unit in one of the layers, or a node around spreader and sink. */
  datatype BlockNode = Block(k: int, i: int) | Around(e: int)

  predicate IsNode(n: nat, x: BlockNode) {
    match x
    case Block(k, i) => 0 <= k < NL && 0 <= i < n
    case Around(e) => 0 <= e < EXTRA
  }

  function At(n: nat, x: BlockNode): int {
    match x
    case Block(k, i) => (if k == 0 then 0 else if k == 1 then n else if k == 2 then 2 * n else 3 * n) + i
    case Around(e) => 4 * n + e
  }

  lemma AtOnce(n: nat, x: BlockNode, y: BlockNode)
    requires IsNode(n, x) && IsNode(n, y)
    ensures 0 <= At(n, x) < NL * n + EXTRA && (At(n, x) == At(n, y) <==> x == y)
  {
  }

  lemma NodeAt(n: nat, a: int) returns (x: BlockNode)
    requires 0 <= a < NL * n + EXTRA
    ensures IsNode(n, x) && At(n, x) == a
  {
    x := if a < n then Block(0, a) else if a < 2 * n then Block(1, a - n) else if a < 3 * n then Block(2, a - 2 * n)
         else if a < 4 * n then Block(3, a - 3 * n) else Around(a - 4 * n);
  }

  // ----- conductances -----

  /** getr. */
  function GetR(conductivity: real, thickness: real, area: real): (r: real)
    requires conductivity > 0.0 && thickness > 0.0 && area > 0.0
    ensures r > 0.0
  {
    ProductPositive(conductivity, area);
    QuotientPositive(thickness, conductivity * area);
    thickness / (conductivity * area)
  }

  function UnitArea(r: Rect): (a: real)
    requires Solid(r)
    ensures a > 0.0
  {
    ProductPositive(r.height, r.width);
    r.height * r.width
  }

  /** Half a unit, from its centre to an edge, with the given depth of the edge. */
  function Half(m: Material, extent: real, depth: real): (v: real)
    requires m.k > 0.0 && m.t > 0.0 && extent > 0.0 && depth > 0.0
    ensures v > 0.0
  {
    ProductPositive(depth, m.t);
    QuotientPositive(1.0, GetR(m.k, extent / 2.0, depth * m.t));
    1.0 / GetR(m.k, extent / 2.0, depth * m.t)
  }

  /** gx and gy of a unit in a layer; in the silicon they may be left out. */
  function Gx(c: Chip, k: nat, i: nat): (v: real)
    requires Proper(c) && k < NL && i < |c.units|
    ensures v >= 0.0 && (v > 0.0 <==> k > 0 || !c.omitLateral)
  {
    if k == 0 && c.omitLateral then 0.0 else Half(c.materials[k], c.units[i].width, c.units[i].height)
  }

  function Gy(c: Chip, k: nat, i: nat): (v: real)
    requires Proper(c) && k < NL && i < |c.units|
    ensures v >= 0.0 && (v > 0.0 <==> k > 0 || !c.omitLateral)
  {
    if k == 0 && c.omitLateral then 0.0 else Half(c.materials[k], c.units[i].height, c.units[i].width)
  }

  /** The part of the conductance towards an edge that is due to a part of that edge. */
  function AlongEdge(g: real, edge: real, len: real): real
    requires edge > 0.0
  {
    g / edge * len
  }

  /** The part of unit i in the link to unit j within a layer. */
  function Lateral(c: Chip, k: nat, i: nat, j: nat): real
    requires Proper(c) && k < NL && i < |c.units| && j < |c.units|
  {
    if i == j then 0.0
    else if IsHorizAdj(c.units[i], c.units[j]) then
      AlongEdge(Gx(c, k, i), c.units[i].height, GetSharedLen(c.units[i], c.units[j]))
    else if IsVertAdj(c.units[i], c.units[j]) then
      AlongEdge(Gy(c, k, i), c.units[i].width, GetSharedLen(c.units[i], c.units[j]))
    else 0.0
  }

  /** The part of each end in the link between two layers. */
  function Vertical(c: Chip, k: nat, i: nat): (v: real)
    requires Proper(c) && k < HSINK && i < |c.units|
    ensures v > 0.0
  {
    QuotientPositive(2.0, GetR(c.materials[k].k, c.materials[k].t, UnitArea(c.units[i])));
    2.0 / GetR(c.materials[k].k, c.materials[k].t, UnitArea(c.units[i]))
  }

  /** Sides are numbered as the nodes around are: west, east, north, south. */
  predicate OnBorder(c: Chip, i: nat, d: nat)
    requires i < |c.units| && d < 4
  {
    if d == 0 then Eq(c.units[i].leftx, 0.0)
    else if d == 1 then Eq(Right(c.units[i]), c.width)
    else if d == 2 then Eq(Top(c.units[i]), c.height)
    else Eq(c.units[i].bottomy, 0.0)
  }

  function Towards(c: Chip, k: nat, d: nat, i: nat): (v: real)
    requires Proper(c) && 0 < k < NL && d < 4 && i < |c.units|
    ensures v > 0.0
  {
    if d >= 2 then Gy(c, k, i) else Gx(c, k, i)
  }

  /** The conductances of all the units along a side, short-circuited. */
  function Shorted(c: Chip, k: nat, d: nat, n: nat): (v: real)
    requires Proper(c) && 0 < k < NL && d < 4 && n <= |c.units|
    ensures v >= 0.0
  {
    if n == 0 then 0.0 else Shorted(c, k, d, n - 1) + if OnBorder(c, n - 1, d) then Towards(c, k, d, n - 1) else 0.0
  }

  ghost predicate SumsOf(c: Chip, k: nat, n: nat, sums: seq<real>)
    requires Proper(c) && 0 < k < NL && n <= |c.units|
  {
    |sums| == 4 && forall d | 0 <= d < 4 :: sums[d] == Shorted(c, k, d, n)
  }

  /** The sums gw, ge, gn and gs of a layer, in one pass over the units. */
  method ShortEdges(c: Chip, k: nat) returns (sums: seq<real>)
    requires Proper(c) && 0 < k < NL
    ensures SumsOf(c, k, |c.units|, sums)
  {
    hide Towards, OnBorder, Network.PrimaryPositive;
    sums := [0.0, 0.0, 0.0, 0.0];
    for i := 0 to |c.units|
      invariant SumsOf(c, k, i, sums)
    {
      sums := [sums[0] + (if OnBorder(c, i, 0) then Towards(c, k, 0, i) else 0.0),
               sums[1] + (if OnBorder(c, i, 1) then Towards(c, k, 1, i) else 0.0),
               sums[2] + (if OnBorder(c, i, 2) then Towards(c, k, 2, i) else 0.0),
               sums[3] + (if OnBorder(c, i, 3) then Towards(c, k, 3, i) else 0.0)];
    }
  }

  /** r_sp1 and r_hs1 for a side. */
  function SideResistance(c: Chip, k: nat, d: nat): (r: real)
    requires Proper(c) && (k == HSP || k == HSINK) && d < 4
    ensures r > 0.0
  {
    if k == HSP then (if d >= 2 then c.pack.rSp1Y else c.pack.rSp1X)
    else (if d >= 2 then c.pack.rHs1Y else c.pack.rHs1X)
  }

  function Share(g: real, r: real, all: real): (v: real)
    requires g > 0.0 && r > 0.0 && all >= 0.0
    ensures v > 0.0
  {
    SharePositive(g, r, all);
    (1.0 / g) + r * all / g
  }

  lemma SharePositive(g: real, r: real, all: real)
    requires g > 0.0 && r > 0.0 && all >= 0.0
    ensures (1.0 / g) + r * all / g > 0.0
  {
    QuotientPositive(1.0, g);
    if all > 0.0 {
      ProductPositive(r, all);
      QuotientPositive(r * all, g);
    }
  }

  /** From a unit to the node around its layer on a side, if it is on that border. */
  function Border(c: Chip, k: nat, d: nat, i: nat): real
    requires Proper(c) && (k == HSP || k == HSINK) && d < 4 && i < |c.units|
  {
    BorderWith(c, k, d, i, Shorted(c, k, d, |c.units|))
  }

  function BorderWith(c: Chip, k: nat, d: nat, i: nat, all: real): (v: real)
    requires Proper(c) && (k == HSP || k == HSINK) && d < 4 && i < |c.units| && all >= 0.0
    ensures v >= 0.0 && (v > 0.0 <==> OnBorder(c, i, d))
  {
    var share := Share(Towards(c, k, d, i), SideResistance(c, k, d), all);
    QuotientPositive(2.0, share);
    2.0 * (if OnBorder(c, i, d) then 1.0 else 0.0) / share
  }

  /** Between the nodes around, outwards. */
  function Outward(c: Chip, e: nat): (v: real)
    requires Proper(c) && e < SINK_W
    ensures v > 0.0
  {
    var r := if e < SINK_C_W then (if e >= 2 then c.pack.rSpPerY else c.pack.rSpPerX)
             else c.pack.rHs + (if e >= SINK_C_W + 2 then c.pack.rHs2Y else c.pack.rHs2X);
    QuotientPositive(2.0, r);
    2.0 / r
  }

  function BlockToAmbient(c: Chip, i: nat): (v: real)
    requires Proper(c) && i < |c.units|
    ensures v > 0.0
  {
    var area := UnitArea(c.units[i]);
    Network.SquaredPositive(c.sSink);
    ProductPositive(c.rConvec, Network.Squared(c.sSink));
    QuotientPositive(c.rConvec * Network.Squared(c.sSink), area);
    var r := GetR(c.materials[HSINK].k, c.materials[HSINK].t, area) + c.rConvec * Network.Squared(c.sSink) / area;
    QuotientPositive(1.0, r);
    1.0 / r
  }

  function AroundToAmbient(c: Chip, e: nat): (v: real)
    requires Proper(c) && e < EXTRA
    ensures v >= 0.0 && (v > 0.0 <==> e >= SINK_C_W)
  {
    if e < SINK_C_W then 0.0
    else
      var r := if e >= SINK_W then c.pack.rHsPer + c.pack.rAmbPer
               else if e >= SINK_C_W + 2 then c.pack.rHsCPerY + c.pack.rAmbCPerY
               else c.pack.rHsCPerX + c.pack.rAmbCPerX;
      QuotientPositive(1.0, r);
      1.0 / r
  }

  // ----- all the links -----

  type Parts = (BlockNode, BlockNode) -> real

  /** The part of the first node in the link to the second. */
  function PartOf(c: Chip, x: BlockNode, y: BlockNode): real
    requires Proper(c) && IsNode(|c.units|, x) && IsNode(|c.units|, y)
  {
    match (x, y)
    case (Block(k, i), Block(l, j)) =>
      if k == l then Lateral(c, k, i, j)
      else if i == j && (l == k + 1 || k == l + 1) then Vertical(c, if k < l then k else l, i) else 0.0
    case (Block(k, i), Around(e)) => RimPart(c, k, i, e)
    case (Around(e), Block(k, i)) => RimPart(c, k, i, e)
    case (Around(d), Around(e)) => if e == d + 4 then Outward(c, d) else if d == e + 4 then Outward(c, e) else 0.0
  }

  function RimPart(c: Chip, k: nat, i: nat, e: nat): real
    requires Proper(c) && k < NL && i < |c.units| && e < EXTRA
  {
    if k == HSP && e < SINK_C_W then Border(c, HSP, e, i)
    else if k == HSINK && SINK_C_W <= e < SINK_W then Border(c, HSINK, e - SINK_C_W, i)
    else 0.0
  }

  lemma {:induction false} LateralExact(c: Chip, k: nat, i: nat, j: nat)
    requires Proper(c) && k < NL && i < |c.units| && j < |c.units|
    ensures Lateral(c, k, i, j) >= 0.0
    ensures Lateral(c, k, i, j) > 0.0 <==>
            i != j && (IsHorizAdj(c.units[i], c.units[j]) || IsVertAdj(c.units[i], c.units[j])) &&
            (k > 0 || !c.omitLateral)
  {
    hide Gx, Gy, AlongEdge, IsHorizAdj, IsVertAdj, GetSharedLen, Network.PrimaryPositive;
    SharedIffAdjacent(c.units[i], c.units[j]);
    if i != j && IsHorizAdj(c.units[i], c.units[j]) {
      TimesShared(Gx(c, k, i), c.units[i].height, GetSharedLen(c.units[i], c.units[j]));
    } else if i != j && IsVertAdj(c.units[i], c.units[j]) {
      TimesShared(Gy(c, k, i), c.units[i].width, GetSharedLen(c.units[i], c.units[j]));
    }
  }

  lemma TimesShared(g: real, extent: real, len: real)
    requires g >= 0.0 && extent > 0.0 && len > 0.0
    ensures AlongEdge(g, extent, len) >= 0.0 && (AlongEdge(g, extent, len) > 0.0 <==> g > 0.0)
  {
    if g > 0.0 {
      QuotientPositive(g, extent);
      ProductPositive(g / extent, len);
    }
  }

  /** No part is negative, and those of the two ends of a link are zero together. */
  lemma BothEnds(c: Chip, x: BlockNode, y: BlockNode)
    requires Proper(c) && IsNode(|c.units|, x) && IsNode(|c.units|, y)
    ensures PartOf(c, x, y) >= 0.0 && (PartOf(c, x, y) > 0.0 <==> PartOf(c, y, x) > 0.0)
  {
    hide Lateral, Vertical, BorderWith, Shorted, Outward, Network.PrimaryPositive;
    if x.Block? && y.Block? && x.k == y.k {
      hide IsHorizAdj, IsVertAdj;
      LateralExact(c, x.k, x.i, y.i);
      LateralExact(c, x.k, y.i, x.i);
      AdjacencySymmetric(c.units[x.i], c.units[y.i]);
    }
  }

  // ----- the array g -----

  /** The array has these parts. */
  ghost predicate Holds(g: array2<real>, n: nat, f: Parts)
    reads g
  {
    IsSquareArray(g, NL * n + EXTRA) &&
    forall x, y | IsNode(n, x) && IsNode(n, y) :: AtNodes(n, x, y) && g[At(n, x), At(n, y)] == f(x, y)
  }

  ghost predicate AtNodes(n: nat, x: BlockNode, y: BlockNode) {
    0 <= At(n, x) < NL * n + EXTRA && 0 <= At(n, y) < NL * n + EXTRA
  }

  ghost predicate Same(n: nat, f: Parts, f': Parts) {
    forall x, y | IsNode(n, x) && IsNode(n, y) :: f(x, y) == f'(x, y)
  }

  lemma HoldsSame(g: array2<real>, n: nat, f: Parts, f': Parts)
    requires Holds(g, n, f) && Same(n, f, f')
    ensures Holds(g, n, f')
  {
    hide At;
  }

  function Put(f: Parts, x: BlockNode, y: BlockNode, v: real): Parts {
    (a, b) => if a == x && b == y then v else f(a, b)
  }

  function PutPair(f: Parts, x: BlockNode, y: BlockNode, v: real): Parts {
    (a, b) => if (a == x && b == y) || (a == y && b == x) then v else f(a, b)
  }

  method Set(g: array2<real>, n: nat, x: BlockNode, y: BlockNode, v: real, ghost f: Parts)
    requires IsNode(n, x) && IsNode(n, y) && Holds(g, n, f)
    modifies g
    ensures Holds(g, n, Put(f, x, y, v))
  {
    forall a, b | IsNode(n, a) && IsNode(n, b)
      ensures AtNodes(n, a, b) && (At(n, a) == At(n, x) <==> a == x) && (At(n, b) == At(n, y) <==> b == y)
    {
      AtOnce(n, a, x);
      AtOnce(n, b, y);
    }
    hide At;
    AtOnce(n, x, y);
    AtOnce(n, y, x);
    g[At(n, x), At(n, y)] := v;
  }

  /** g[i][j] = g[j][i] = ... */
  method SetPair(g: array2<real>, n: nat, x: BlockNode, y: BlockNode, v: real, ghost f: Parts)
    requires IsNode(n, x) && IsNode(n, y) && Holds(g, n, f)
    modifies g
    ensures Holds(g, n, PutPair(f, x, y, v))
  {
    Set(g, n, y, x, v, f);
    Set(g, n, x, y, v, Put(f, y, x, v));
    HoldsSame(g, n, Put(Put(f, y, x, v), x, y, v), PutPair(f, x, y, v));
  }

  /** What of unit i is written: so many of its neighbours, and then stage by stage. */
  predicate Written(i: int, j: int, stage: int, x: BlockNode, y: BlockNode) {
    match (x, y)
    case (Block(k, a), Block(l, b)) => if k == l then a < i || (a == i && b < j) else a < i || (a == i && stage >= 1)
    case (Block(k, a), Around(_)) => a < i || (a == i && stage >= (if k == HSP then 2 else 3))
    case (Around(_), Block(k, a)) => a < i || (a == i && stage >= (if k == HSP then 2 else 3))
    case (Around(_), Around(_)) => false
  }

  ghost function Partly(c: Chip, i: int, j: int, stage: int): Parts
    requires Proper(c)
  {
    (x: BlockNode, y: BlockNode) =>
      if IsNode(|c.units|, x) && IsNode(|c.units|, y) && Written(i, j, stage, x, y) then PartOf(c, x, y) else 0.0
  }

  /** Amongst the functional units. */
  method FillLateral(c: Chip, g: array2<real>, i: nat)
    requires Proper(c) && i < |c.units| && Holds(g, |c.units|, Partly(c, i, 0, 0))
    modifies g
    ensures Holds(g, |c.units|, Partly(c, i, |c.units|, 0))
  {
    hide Holds, Same, Lateral, Vertical, RimPart, Outward, At, Network.PrimaryPositive;
    var n := |c.units|;
    for j := 0 to n
      invariant Holds(g, n, Partly(c, i, j, 0))
    {
      FillOne(c, g, i, j);
    }
  }

  method FillOne(c: Chip, g: array2<real>, i: nat, j: nat)
    requires Proper(c) && i < |c.units| && j < |c.units| && Holds(g, |c.units|, Partly(c, i, j, 0))
    modifies g
    ensures Holds(g, |c.units|, Partly(c, i, j + 1, 0))
  {
    hide Holds, Same, Lateral, Partly, At, Network.PrimaryPositive;
    var n := |c.units|;
    ghost var f := Partly(c, i, j, 0);
    NothingPut(c, g, f, i, j);
    for k := 0 to NL
      invariant Holds(g, n, LayersPut(c, f, i, j, k))
    {
      Set(g, n, Block(k, i), Block(k, j), Lateral(c, k, i, j), LayersPut(c, f, i, j, k));
      LayerPut(c, g, f, i, j, k);
    }
    OnePartner(c, i, j);
    HoldsSame(g, n, LayersPut(c, f, i, j, NL), Partly(c, i, j + 1, 0));
  }

  /** The four parts that one pass of the inner loop sets, as far as layer k. */
  ghost function LayersPut(c: Chip, f: Parts, i: nat, j: nat, k: nat): Parts
    requires Proper(c) && i < |c.units| && j < |c.units| && k <= NL
  {
    (x: BlockNode, y: BlockNode) =>
      if x.Block? && y.Block? && x.k == y.k && 0 <= x.k < k && x.i == i && y.i == j then Lateral(c, x.k, i, j)
      else f(x, y)
  }

  lemma NothingPut(c: Chip, g: array2<real>, f: Parts, i: nat, j: nat)
    requires Proper(c) && i < |c.units| && j < |c.units| && Holds(g, |c.units|, f)
    ensures Holds(g, |c.units|, LayersPut(c, f, i, j, 0))
  {
    hide Holds, Lateral, Network.PrimaryPositive;
    HoldsSame(g, |c.units|, f, LayersPut(c, f, i, j, 0));
  }

  lemma LayerPut(c: Chip, g: array2<real>, f: Parts, i: nat, j: nat, k: nat)
    requires Proper(c) && i < |c.units| && j < |c.units| && k < NL
    requires Holds(g, |c.units|, Put(LayersPut(c, f, i, j, k), Block(k, i), Block(k, j), Lateral(c, k, i, j)))
    ensures Holds(g, |c.units|, LayersPut(c, f, i, j, k + 1))
  {
    hide Holds, Lateral, Network.PrimaryPositive;
    HoldsSame(g, |c.units|, Put(LayersPut(c, f, i, j, k), Block(k, i), Block(k, j), Lateral(c, k, i, j)),
              LayersPut(c, f, i, j, k + 1));
  }

  lemma OnePartner(c: Chip, i: nat, j: nat)
    requires Proper(c) && i < |c.units| && j < |c.units|
    ensures Same(|c.units|, LayersPut(c, Partly(c, i, j, 0), i, j, NL), Partly(c, i, j + 1, 0))
  {
    hide Lateral, Vertical, RimPart, Outward, Network.PrimaryPositive;
  }

  /** Between the layers. */
  method FillVertical(c: Chip, g: array2<real>, i: nat)
    requires Proper(c) && i < |c.units| && Holds(g, |c.units|, Partly(c, i, |c.units|, 0))
    modifies g
    ensures Holds(g, |c.units|, Partly(c, i, |c.units|, 1))
  {
    hide Holds, Same, Vertical, Partly, At, Network.PrimaryPositive;
    var n := |c.units|;
    ghost var f := Partly(c, i, n, 0);
    SetPair(g, n, Block(0, i), Block(IFACE, i), Vertical(c, 0, i), f);
    f := PutPair(f, Block(0, i), Block(IFACE, i), Vertical(c, 0, i));
    SetPair(g, n, Block(IFACE, i), Block(HSP, i), Vertical(c, IFACE, i), f);
    f := PutPair(f, Block(IFACE, i), Block(HSP, i), Vertical(c, IFACE, i));
    SetPair(g, n, Block(HSP, i), Block(HSINK, i), Vertical(c, HSP, i), f);
    f := PutPair(f, Block(HSP, i), Block(HSINK, i), Vertical(c, HSP, i));
    ThreeLinks(c, i);
    HoldsSame(g, n, f, Partly(c, i, n, 1));
  }

  lemma ThreeLinks(c: Chip, i: nat)
    requires Proper(c) && i < |c.units|
    ensures Same(|c.units|,
                 PutPair(PutPair(PutPair(Partly(c, i, |c.units|, 0), Block(0, i), Block(IFACE, i), Vertical(c, 0, i)),
                                            Block(IFACE, i), Block(HSP, i), Vertical(c, IFACE, i)),
                                    Block(HSP, i), Block(HSINK, i), Vertical(c, HSP, i)),
                 Partly(c, i, |c.units|, 1))
  {
    hide Lateral, Vertical, RimPart, Outward, Network.PrimaryPositive;
  }

  /** From the unit to the four nodes around its layer, in the order north, south, east, west. */
  method FillBorder(c: Chip, g: array2<real>, i: nat, k: nat, sums: seq<real>)
    requires Proper(c) && i < |c.units| && (k == HSP || k == HSINK) && SumsOf(c, k, |c.units|, sums)
    requires Holds(g, |c.units|, Partly(c, i, |c.units|, k - 1))
    modifies g
    ensures Holds(g, |c.units|, Partly(c, i, |c.units|, k))
  {
    hide Holds, Same, BorderWith, Partly, At, Shorted, Network.PrimaryPositive;
    var n := |c.units|;
    var first := if k == HSP then 0 else SINK_C_W;
    ghost var f := Partly(c, i, n, k - 1);
    SetPair(g, n, Block(k, i), Around(first + 2), BorderWith(c, k, 2, i, sums[2]), f);
    f := PutPair(f, Block(k, i), Around(first + 2), Border(c, k, 2, i));
    SetPair(g, n, Block(k, i), Around(first + 3), BorderWith(c, k, 3, i, sums[3]), f);
    f := PutPair(f, Block(k, i), Around(first + 3), Border(c, k, 3, i));
    SetPair(g, n, Block(k, i), Around(first + 1), BorderWith(c, k, 1, i, sums[1]), f);
    f := PutPair(f, Block(k, i), Around(first + 1), Border(c, k, 1, i));
    SetPair(g, n, Block(k, i), Around(first), BorderWith(c, k, 0, i, sums[0]), f);
    f := PutPair(f, Block(k, i), Around(first), Border(c, k, 0, i));
    FourSides(c, i, k, first);
    HoldsSame(g, n, f, Partly(c, i, n, k));
  }

  lemma FourSides(c: Chip, i: nat, k: nat, first: nat)
    requires Proper(c) && i < |c.units| && (k == HSP || k == HSINK) && first == (if k == HSP then 0 else SINK_C_W)
    ensures Same(|c.units|, PutPair(PutPair(PutPair(PutPair(Partly(c, i, |c.units|, k - 1),
                                                            Block(k, i), Around(first + 2), Border(c, k, 2, i)),
                                                    Block(k, i), Around(first + 3), Border(c, k, 3, i)),
                                            Block(k, i), Around(first + 1), Border(c, k, 1, i)),
                                    Block(k, i), Around(first), Border(c, k, 0, i)),
                 Partly(c, i, |c.units|, k))
  {
    hide Lateral, Vertical, Border, Outward, Network.PrimaryPositive;
  }

  ghost function All(c: Chip): Parts
    requires Proper(c)
  {
    (x: BlockNode, y: BlockNode) => if IsNode(|c.units|, x) && IsNode(|c.units|, y) then PartOf(c, x, y) else 0.0
  }

  /** The nodes around that are linked outwards: the first e. */
  ghost function Outwards(c: Chip, e: int): Parts
    requires Proper(c)
  {
    (x: BlockNode, y: BlockNode) =>
      if IsNode(|c.units|, x) && IsNode(|c.units|, y) && (x.Around? && y.Around? ==> x.e < e || y.e < e) then
        PartOf(c, x, y)
      else 0.0
  }

  /** One unit, with all that is linked to it. */
  method FillUnit(c: Chip, g: array2<real>, i: nat, sp: seq<real>, hs: seq<real>)
    requires Proper(c) && i < |c.units| && SumsOf(c, HSP, |c.units|, sp) && SumsOf(c, HSINK, |c.units|, hs)
    requires Holds(g, |c.units|, Partly(c, i, 0, 0))
    modifies g
    ensures Holds(g, |c.units|, Partly(c, i + 1, 0, 0))
  {
    hide Proper, Holds, Partly, SumsOf;
    FillLateral(c, g, i);
    FillVertical(c, g, i);
    FillBorder(c, g, i, HSP, sp);
    FillBorder(c, g, i, HSINK, hs);
    NextUnit(c, g, i);
  }

  /** The peripheral nodes. */
  method FillAround(c: Chip, g: array2<real>)
    requires Proper(c) && Holds(g, |c.units|, Outwards(c, 0))
    modifies g
    ensures Holds(g, |c.units|, All(c))
  {
    hide Proper, Holds, Outwards, All, Outward;
    for e := 0 to SINK_W
      invariant Holds(g, |c.units|, Outwards(c, e))
    {
      SetPair(g, |c.units|, Around(e), Around(e + 4), Outward(c, e), Outwards(c, e));
      OneOutward(c, g, e);
    }
    HoldsAll(c, g);
  }

  /** g, from the floorplan and the package. */
  method FillConductances(c: Chip, g: array2<real>)
    requires Proper(c) && IsSquareArray(g, NL * |c.units| + EXTRA)
    modifies g
    ensures Holds(g, |c.units|, All(c))
  {
    hide Proper, Holds, Partly, Outwards, All, SumsOf;
    var sp := ShortEdges(c, HSP);
    var hs := ShortEdges(c, HSINK);
    ZeroMatrix(g, NL * |c.units| + EXTRA);
    NothingWritten(c, g);
    for i := 0 to |c.units|
      invariant Holds(g, |c.units|, Partly(c, i, 0, 0))
    {
      FillUnit(c, g, i, sp, hs);
    }
    AllUnits(c, g);
    FillAround(c, g);
  }

  method ZeroMatrix(g: array2<real>, n: nat)
    requires IsSquareArray(g, n)
    modifies g
    ensures forall a, b | 0 <= a < n && 0 <= b < n :: g[a, b] == 0.0
  {
    for a := 0 to n
      invariant forall r, s | 0 <= r < a && 0 <= s < n :: g[r, s] == 0.0
    {
      for b := 0 to n
        invariant forall r, s | 0 <= r < a && 0 <= s < n :: g[r, s] == 0.0
        invariant forall s | 0 <= s < b :: g[a, s] == 0.0
      {
        g[a, b] := 0.0;
      }
    }
  }

  lemma NothingWritten(c: Chip, g: array2<real>)
    requires Proper(c) && IsSquareArray(g, NL * |c.units| + EXTRA)
    requires forall a, b | 0 <= a < NL * |c.units| + EXTRA && 0 <= b < NL * |c.units| + EXTRA :: g[a, b] == 0.0
    ensures Holds(g, |c.units|, Partly(c, 0, 0, 0))
  {
    var n := |c.units|;
    forall x, y | IsNode(n, x) && IsNode(n, y)
      ensures AtNodes(n, x, y)
    {
      AtOnce(n, x, y);
      AtOnce(n, y, x);
    }
    hide At, PartOf, Network.PrimaryPositive;
  }

  lemma NextUnit(c: Chip, g: array2<real>, i: nat)
    requires Proper(c) && i < |c.units| && Holds(g, |c.units|, Partly(c, i, |c.units|, 3))
    ensures Holds(g, |c.units|, Partly(c, i + 1, 0, 0))
  {
    hide Holds, PartOf, Network.PrimaryPositive;
    HoldsSame(g, |c.units|, Partly(c, i, |c.units|, 3), Partly(c, i + 1, 0, 0));
  }

  lemma AllUnits(c: Chip, g: array2<real>)
    requires Proper(c) && Holds(g, |c.units|, Partly(c, |c.units|, 0, 0))
    ensures Holds(g, |c.units|, Outwards(c, 0))
  {
    hide Holds, PartOf, Network.PrimaryPositive;
    HoldsSame(g, |c.units|, Partly(c, |c.units|, 0, 0), Outwards(c, 0));
  }

  lemma OneOutward(c: Chip, g: array2<real>, e: nat)
    requires Proper(c) && e < SINK_W
    requires Holds(g, |c.units|, PutPair(Outwards(c, e), Around(e), Around(e + 4), Outward(c, e)))
    ensures Holds(g, |c.units|, Outwards(c, e + 1))
  {
    hide Holds, Lateral, Vertical, RimPart, Outward, Network.PrimaryPositive;
    HoldsSame(g, |c.units|, PutPair(Outwards(c, e), Around(e), Around(e + 4), Outward(c, e)), Outwards(c, e + 1));
  }

  lemma HoldsAll(c: Chip, g: array2<real>)
    requires Proper(c) && Holds(g, |c.units|, Outwards(c, SINK_W))
    ensures Holds(g, |c.units|, All(c))
  {
    hide Holds, Lateral, Vertical, RimPart, Outward, Network.PrimaryPositive;
    HoldsSame(g, |c.units|, Outwards(c, SINK_W), All(c));
  }

  // ----- g_amb -----

  /** g_amb, from the sink layer and the nodes around the sink. */
  method FillAmbient(c: Chip, gAmb: array<real>)
    requires Proper(c) && gAmb.Length == |c.units| + EXTRA
    modifies gAmb
    ensures forall i: nat | i < |c.units| :: gAmb[i] == BlockToAmbient(c, i)
    ensures forall e: nat | e < EXTRA :: gAmb[|c.units| + e] == AroundToAmbient(c, e)
  {
    hide BlockToAmbient, Network.PrimaryPositive;
    var n := |c.units|;
    for k := 0 to n + EXTRA
      invariant forall a | 0 <= a < k :: gAmb[a] == 0.0
    {
      gAmb[k] := 0.0;
    }
    for i := 0 to n
      invariant forall a: nat | a < i :: gAmb[a] == BlockToAmbient(c, a)
      invariant forall a | n <= a < n + EXTRA :: gAmb[a] == 0.0
    {
      gAmb[i] := BlockToAmbient(c, i);
    }
    assert forall e: nat | e < SINK_C_W :: gAmb[n + e] == AroundToAmbient(c, e);
    hide AroundToAmbient;
    for e := SINK_C_W to EXTRA
      invariant forall a: nat | a < n :: gAmb[a] == BlockToAmbient(c, a)
      invariant forall d: nat | d < e :: gAmb[n + d] == AroundToAmbient(c, d)
    {
      gAmb[n + e] := AroundToAmbient(c, e);
    }
  }

  // ----- the whole of populate_R_model_block -----

  lemma Filled(c: Chip, model: Model)
    requires Proper(c) && model.Shaped() && model.n == |c.units| && Holds(model.g, model.n, All(c))
    requires forall i: nat | i < model.n :: model.gAmb[i] == BlockToAmbient(c, i)
    requires forall e: nat | e < EXTRA :: model.gAmb[model.n + e] == AroundToAmbient(c, e)
    ensures model.Filled()
  {
    hide PartOf, BlockToAmbient, AroundToAmbient, At, Network.PrimaryPositive;
    var n := model.n;
    forall a, b | 0 <= a < model.nodes && 0 <= b < model.nodes
      ensures model.g[a, b] >= 0.0
    {
      var x := NodeAt(n, a);
      var y := NodeAt(n, b);
      BothEnds(c, x, y);
    }
    forall i | 0 <= i < n + EXTRA
      ensures model.gAmb[i] >= 0.0 && (n <= i < n + SINK_C_W ==> model.gAmb[i] == 0.0)
    {
      if i >= n {
        assert model.gAmb[n + (i - n)] == AroundToAmbient(c, i - n);
      }
    }
  }

  lemma LinkedIf(c: Chip, g: Grid, n: nat, x: BlockNode, y: BlockNode)
    requires Proper(c) && n == |c.units| && IsNode(n, x) && IsNode(n, y) && x != y && PartOf(c, x, y) > 0.0
    requires Square(g, NL * n + EXTRA) && AtNodes(n, x, y)
    requires g[At(n, x)][At(n, y)] == PartOf(c, x, y) && g[At(n, y)][At(n, x)] == PartOf(c, y, x)
    ensures Linked(g, At(n, x), At(n, y), NL * n + EXTRA)
  {
    hide PartOf, At, Network.PrimaryPositive;
    BothEnds(c, x, y);
    AtOnce(n, x, y);
  }

  lemma PartLinked(c: Chip, model: Model, x: BlockNode, y: BlockNode)
    requires Proper(c) && model.Shaped() && model.n == |c.units| && Holds(model.g, model.n, All(c))
    requires IsNode(model.n, x) && IsNode(model.n, y) && x != y && PartOf(c, x, y) > 0.0
    ensures AtNodes(model.n, x, y) && Square(Values(model.g), model.nodes)
    ensures Linked(Values(model.g), At(model.n, x), At(model.n, y), model.nodes)
  {
    hide PartOf, At, Linked, Network.PrimaryPositive;
    LinkedIf(c, Values(model.g), model.n, x, y);
  }

  lemma BlockStacked(c: Chip, model: Model, i: nat)
    requires Proper(c) && model.Shaped() && model.n == |c.units| && Holds(model.g, model.n, All(c)) && i < model.n
    requires model.gAmb[i] == BlockToAmbient(c, i)
    ensures Square(Values(model.g), model.nodes)
    ensures BlockLinked(Values(model.g), model.gAmb[..], model.n, model.nodes, i)
  {
    hide Vertical, Outward, Lateral, RimPart, Holds, Linked, BlockToAmbient, Network.PrimaryPositive;
    PartLinked(c, model, Block(0, i), Block(IFACE, i));
    PartLinked(c, model, Block(IFACE, i), Block(HSP, i));
    PartLinked(c, model, Block(HSP, i), Block(HSINK, i));
  }

  lemma AroundStacked(c: Chip, model: Model, d: nat)
    requires Proper(c) && model.Shaped() && model.n == |c.units| && Holds(model.g, model.n, All(c)) && d < 4
    requires forall e: nat | e < EXTRA :: model.gAmb[model.n + e] == AroundToAmbient(c, e)
    ensures Square(Values(model.g), model.nodes)
    ensures AroundLinked(Values(model.g), model.gAmb[..], model.n, model.nodes, d)
  {
    hide Vertical, Outward, Lateral, RimPart, Holds, Linked, AroundToAmbient, Network.PrimaryPositive;
    PartLinked(c, model, Around(d), Around(d + 4));
    assert model.gAmb[model.n + (SINK_C_W + d)] == AroundToAmbient(c, SINK_C_W + d);
    assert model.gAmb[model.n + (SINK_W + d)] == AroundToAmbient(c, SINK_W + d);
  }

  /** The vertical links are there whatever the floorplan, so that every node has a path to ambient. */
  lemma AlwaysStacked(c: Chip, model: Model)
    requires Proper(c) && model.Shaped() && model.n == |c.units| && Holds(model.g, model.n, All(c))
    requires forall i: nat | i < model.n :: model.gAmb[i] == BlockToAmbient(c, i)
    requires forall e: nat | e < EXTRA :: model.gAmb[model.n + e] == AroundToAmbient(c, e)
    ensures Stacked(Values(model.g), model.gAmb[..], model.n, model.nodes)
  {
    hide All, Holds, BlockLinked, AroundLinked, BlockToAmbient, AroundToAmbient, Square;
    var n := model.n;
    BlockStacked(c, model, 0);
    forall i: nat | i < n
      ensures BlockLinked(Values(model.g), model.gAmb[..], n, model.nodes, i)
    {
      BlockStacked(c, model, i);
    }
    forall d: nat | d < 4
      ensures AroundLinked(Values(model.g), model.gAmb[..], n, model.nodes, d)
    {
      AroundStacked(c, model, d);
    }
  }

  /** A link has both parts or none, so that B has an entry just where g has one. */
  ghost predicate TwoWay(model: Model)
    requires model.Shaped()
    reads model.g
  {
    forall a, b | 0 <= a < model.nodes && 0 <= b < model.nodes :: model.g[a, b] > 0.0 <==> model.g[b, a] > 0.0
  }

  lemma AlwaysTwoWay(c: Chip, model: Model)
    requires Proper(c) && model.Shaped() && model.n == |c.units| && Holds(model.g, model.n, All(c))
    ensures TwoWay(model)
  {
    hide PartOf, At, Network.PrimaryPositive;
    forall a, b | 0 <= a < model.nodes && 0 <= b < model.nodes
      ensures model.g[a, b] > 0.0 <==> model.g[b, a] > 0.0
    {
      var x := NodeAt(model.n, a);
      var y := NodeAt(model.n, b);
      BothEnds(c, x, y);
    }
  }

  datatype Populated = TooLarge | Factored(outcome: LupOutcome)

  /** populate_R_model_block, from the floorplan: a chip that is larger than the sink or the spreader is
      refused; otherwise, once the model is ready, every node has a path to ambient. */
  method PopulateRModel(c: Chip, model: Model) returns (r: Populated)
    requires Proper(c) && model.Shaped() && model.n == |c.units|
    modifies model, model.g, model.gAmb, model.b, model.lu, model.p
    ensures r.TooLarge? <==> c.width > c.sSink || c.height > c.sSink || c.width > c.sSpreader || c.height > c.sSpreader
    ensures r.Factored? ==> model.Valid() && (model.ready <==> r.outcome.Decomposed?)
    ensures r.Factored? && r.outcome.Singular? ==> model.NoPivot(r.outcome.column)
    ensures r.Factored? ==> model.OffDiagonal()
    ensures r.Factored? ==> Holds(model.g, model.n, All(c)) && TwoWay(model)
    ensures r.Factored? ==> forall i: nat | i < model.n :: model.gAmb[i] == BlockToAmbient(c, i)
    ensures r.Factored? ==> forall e: nat | e < EXTRA :: model.gAmb[model.n + e] == AroundToAmbient(c, e)
    ensures r.Factored? && model.ready ==> Connected(Values(model.b), model.AmbientOf(), model.nodes)
  {
    hide Holds, All, TwoWay, BlockToAmbient, AroundToAmbient, Stacked, Connected, Network.PrimaryPositive;
    if c.width > c.sSink || c.height > c.sSink || c.width > c.sSpreader || c.height > c.sSpreader {
      return TooLarge;
    }
    FillConductances(c, model.g);
    FillAmbient(c, model.gAmb);
    Filled(c, model);
    AlwaysStacked(c, model);
    AlwaysTwoWay(c, model);
    var outcome := model.Populate();
    if model.ready {
      model.AlwaysConnected();
    }
    return Factored(outcome);
  }
}
