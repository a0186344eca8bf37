/** One iteration of the steady-state grid solver as it is written (single_iteration_steady_grid and
    single_iteration_steady_pack, HotSpot/temperature_grid.c): sums over the neighbours of a cell,
    and an update in place, for all cells and then for the nodes around them. */
module GridSweep {
  import opened GridNetwork
  import opened GaussSeidel
  import opened Numbers

  // ----- the vector of a grid -----

  function Size(m: Model): nat {
    |m.layers| * m.nr * m.nc + ExtraCount(m)
  }

  /** Where a node is in the vector: cells layer by layer and row by row, then the other nodes. */
  function Index(m: Model, x: Node): int {
    match x
    case Cell(l, i, j) => l * m.nr * m.nc + i * m.nc + j
    case Extra(e) => |m.layers| * m.nr * m.nc + e
  }

  /** A number with a remainder: both are determined. */
  lemma Digits(a: int, r: int, b: int, s: int, n: int)
    requires 0 <= r < n && 0 <= s < n && a * n + r == b * n + s
    ensures a == b && r == s
  {
    var d := a - b;
    assert d * n == s - r;
    assert d >= 1 ==> d * n >= n;
    assert d <= -1 ==> d * n <= -n;
  }

  /** A digit below a bound keeps the number below the next multiple. */
  lemma DigitBound(a: int, r: int, top: int, n: int)
    requires 0 <= a < top && 0 <= r < n
    ensures 0 <= a * n + r && a * n + r + 1 <= top * n
  {
    assert (a + 1) * n <= top * n;
    assert (a + 1) * n == a * n + n;
    assert a * n >= 0;
  }

  lemma CellIndexIs(m: Model, l: int, i: int, j: int)
    ensures Index(m, Cell(l, i, j)) == (l * m.nr + i) * m.nc + j
  {
    assert (l * m.nr + i) * m.nc == l * m.nr * m.nc + i * m.nc;
  }

  lemma IndexInRange(m: Model, x: Node)
    requires IsNode(m, x)
    ensures 0 <= Index(m, x) < Size(m)
    ensures x.Cell? <==> Index(m, x) < |m.layers| * m.nr * m.nc
  {
    match x
    case Cell(l, i, j) =>
      DigitBound(l, i, |m.layers|, m.nr);
      DigitBound(l * m.nr + i, j, |m.layers| * m.nr, m.nc);
      CellIndexIs(m, l, i, j);
    case Extra(_) =>
      assert |m.layers| * m.nr * m.nc >= 0;
  }

  lemma IndexInjective(m: Model, x: Node, y: Node)
    requires IsNode(m, x) && IsNode(m, y) && Index(m, x) == Index(m, y)
    ensures x == y
  {
    IndexInRange(m, x);
    IndexInRange(m, y);
    if x.Cell? {
      CellIndexIs(m, x.l, x.i, x.j);
      CellIndexIs(m, y.l, y.i, y.j);
      Digits(x.l * m.nr + x.i, x.j, y.l * m.nr + y.i, y.j, m.nc);
      Digits(x.l, x.i, y.l, y.i, m.nr);
    }
  }

  /** The vector as temperatures of nodes. */
  function TempOf(m: Model, v: seq<real>): Temps {
    x => if IsNode(m, x) && 0 <= Index(m, x) < |v| then v[Index(m, x)] else 0.0
  }

  lemma TempAt(m: Model, v: seq<real>, x: Node)
    requires |v| == Size(m) && IsNode(m, x)
    ensures 0 <= Index(m, x) < |v| && TempOf(m, v)(x) == v[Index(m, x)]
  {
    IndexInRange(m, x);
  }

  lemma TempPut(m: Model, v: seq<real>, x: Node, r: real)
    requires |v| == Size(m) && IsNode(m, x)
    ensures 0 <= Index(m, x) < |v| && SameTemps(TempOf(m, v[Index(m, x) := r]), Put(TempOf(m, v), x, r))
  {
    IndexInRange(m, x);
    forall y
      ensures TempOf(m, v[Index(m, x) := r])(y) == Put(TempOf(m, v), x, r)(y)
    {
      if IsNode(m, y) && Index(m, y) == Index(m, x) {
        IndexInjective(m, x, y);
      }
    }
  }

  // ----- the macros -----

  /** The conductance to a neighbour, or zero at the boundary. */
  function Conduct(there: bool, r: real): real
    requires r > 0.0
  {
    if there then 1.0 / r else 0.0
  }

  lemma OptionalSum(links: seq<Link>, there: bool, k: Link, f: Weight)
    requires links == if there then [k] else []
    ensures LinkSum(links, f) == if there then f(k) else 0.0
  {
    if there {
      LinkSumOne(k, f);
    }
  }

  function Over(t: real, r: real): real
    requires r > 0.0
  {
    t / r
  }

  lemma DivideIs(t: real, r: real)
    requires r > 0.0
    ensures Over(t, r) == Scaled(t, r)
  {
  }

  /** The temperature of a neighbour over the resistance to it, or zero at the boundary. */
  method Weighted(m: Model, v: array<real>, there: bool, x: Node, r: real, ghost links: seq<Link>) returns (w: real)
    requires v.Length == Size(m) && r > 0.0 && (there ==> IsNode(m, x)) && links == if there then [Link(x, r)] else []
    ensures w == LinkSum(links, Flow(TempOf(m, v[..])))
    ensures Conduct(there, r) == LinkSum(links, Conductance)
  {
    OptionalSum(links, there, Link(x, r), Flow(TempOf(m, v[..])));
    OptionalSum(links, there, Link(x, r), Conductance);
    if there {
      TempAt(m, v[..], x);
      DivideIs(v[Index(m, x)], r);
      w := Over(v[Index(m, x)], r);
    } else {
      w := 0.0;
    }
  }

  /** The part of the two sums that is due to the six neighbours. */
  ghost predicate GridPart(m: Model, l: nat, i: int, j: int, f: Weight, sum: real)
    requires l < |m.layers|
  {
    sum == LinkSum(North(m, l, i, j), f) + LinkSum(South(m, l, i, j), f) + LinkSum(East(m, l, i, j), f) +
           LinkSum(West(m, l, i, j), f) + LinkSum(Above(m, l, i, j), f) + LinkSum(Below(m, l, i, j), f)
  }

  method NeighbourSums(m: Model, v: array<real>, l: nat, i: nat, j: nat) returns (csum: real, wsum: real)
    requires Proper(m) && v.Length == Size(m) && IsNode(m, Cell(l, i, j))
    ensures GridPart(m, l, i, j, Conductance, csum) && GridPart(m, l, i, j, Flow(TempOf(m, v[..])), wsum)
  {
    hide LinkSum;
    var rx, ry, rz := m.layers[l].rx, m.layers[l].ry, m.layers[l].rz;
    hide Size, TempOf, LinkSum, Conduct, Flow;
    var nt := Weighted(m, v, i > 0, Cell(l, i - 1, j), ry, North(m, l, i, j));
    var st := Weighted(m, v, i < m.nr - 1, Cell(l, i + 1, j), ry, South(m, l, i, j));
    var et := Weighted(m, v, j < m.nc - 1, Cell(l, i, j + 1), rx, East(m, l, i, j));
    var wt := Weighted(m, v, j > 0, Cell(l, i, j - 1), rx, West(m, l, i, j));
    var cz, wz := VerticalSums(m, v, l, i, j);
    csum := Conduct(i > 0, ry) + Conduct(i < m.nr - 1, ry) + Conduct(j < m.nc - 1, rx) + Conduct(j > 0, rx) + cz;
    wsum := nt + st + et + wt + wz;
  }

  /** The neighbours above and below. */
  method VerticalSums(m: Model, v: array<real>, l: nat, i: nat, j: nat) returns (csum: real, wsum: real)
    requires Proper(m) && v.Length == Size(m) && IsNode(m, Cell(l, i, j))
    ensures csum == LinkSum(Above(m, l, i, j), Conductance) + LinkSum(Below(m, l, i, j), Conductance)
    ensures wsum == LinkSum(Above(m, l, i, j), Flow(TempOf(m, v[..]))) +
            LinkSum(Below(m, l, i, j), Flow(TempOf(m, v[..])))
  {
    var rz := m.layers[l].rz;
    var up := if l > 0 then m.layers[l - 1].rz else rz;
    hide Size, TempOf, LinkSum, Conduct, Flow;
    var at := Weighted(m, v, l > 0, Cell(l - 1, i, j), up, Above(m, l, i, j));
    var bt := Weighted(m, v, l < |m.layers| - 1, Cell(l + 1, i, j), rz, Below(m, l, i, j));
    csum := Conduct(l > 0, up) + Conduct(l < |m.layers| - 1, rz);
    wsum := at + bt;
  }

  /** The part that is due to the nodes around the grid. */
  ghost predicate SidePart(m: Model, l: nat, i: int, j: int, f: Weight, sum: real)
    requires l < |m.layers|
  {
    sum == LinkSum(SideList(m, l, OnNorth, i, j), f) + LinkSum(SideList(m, l, OnSouth, i, j), f) +
           LinkSum(SideList(m, l, OnEast, i, j), f) + LinkSum(SideList(m, l, OnWest, i, j), f)
  }

  lemma RingNode(m: Model, l: nat, side: Side)
    requires Proper(m) && l < |m.layers| && Ringed(m, l)
    ensures EdgeResistance(m, l, side) > 0.0 && IsNode(m, Extra(At(RingAt(m, l), side)))
  {
    EdgePositive(m, l, side);
    LayersOfRings(m, l);
  }

  /** The resistance from an edge cell to the node of its layer's ring, as it is written here. */
  method EdgeInSweep(m: Model, l: nat, side: Side, x1: real, y1: real) returns (r: real)
    requires Tall(m) && l < |m.layers| && Ringed(m, l) && RimOfLayer(m, l, x1, y1)
    ensures r == EdgeResistance(m, l, side)
  {
    EdgeWritten(m, l, side, x1, y1);
    r := Along(side, m.layers[l].rx / 2.0 + m.nr as real * x1, m.layers[l].ry / 2.0 + m.nc as real * y1);
  }

  /** One of the four boundary tests for a layer that has a ring around it. */
  method SideSums(m: Model, v: array<real>, l: nat, side: Side, i: nat, j: nat, csum: real, wsum: real)
    returns (csum': real, wsum': real)
    requires Proper(m) && v.Length == Size(m) && IsNode(m, Cell(l, i, j)) && Ringed(m, l)
    ensures csum' == csum + LinkSum(SideList(m, l, side, i, j), Conductance)
    ensures wsum' == wsum + LinkSum(SideList(m, l, side, i, j), Flow(TempOf(m, v[..])))
  {
    var x := Extra(At(RingAt(m, l), side));
    var x1, y1 := m.pack.rPcb1X, m.pack.rPcb1Y;
    if l == SpIdx(m) {
      x1, y1 := m.pack.rSp1X, m.pack.rSp1Y;
    } else if l == HsIdx(m) {
      x1, y1 := m.pack.rHs1X, m.pack.rHs1Y;
    } else if l == LAYER_SUB {
      x1, y1 := m.pack.rSub1X, m.pack.rSub1Y;
    } else if l == LAYER_SOLDER {
      x1, y1 := m.pack.rSolder1X, m.pack.rSolder1Y;
    }
    var r := EdgeInSweep(m, l, side, x1, y1);
    RingNode(m, l, side);
    hide Size, TempOf, EdgeResistance, PrimaryPositive, SecondaryPositive;
    var w := Weighted(m, v, AtEdge(m, side, i, j), x, r, SideList(m, l, side, i, j));
    csum' := csum + Conduct(AtEdge(m, side, i, j), r);
    wsum' := wsum + w;
  }

  /** The resistance from a cell of the board to ambient, as it is written. */
  function BoardToAmbient(m: Model): (r: real)
    requires Proper(m) && m.secondary
    ensures r > 0.0 && r == BoardResistance(m)
  {
    var cw, ch := m.width / m.nc as real, m.height / m.nr as real;
    QuotientPositive(m.width, m.nc as real);
    QuotientPositive(m.height, m.nr as real);
    ConvectionPositive(m.pack.rConvecSec, m.pack.sPcb);
    BoardPositive(m.pack.rConvecSec * Squared(m.pack.sPcb), cw, ch);
    m.pack.rConvecSec * Squared(m.pack.sPcb) / (cw * ch)
  }

  lemma BoardPositive(board: real, cw: real, ch: real)
    requires board > 0.0 && cw > 0.0 && ch > 0.0
    ensures cw * ch > 0.0 && board / (cw * ch) == board * Inverse(cw * ch) > 0.0
  {
    ProductPositive(cw, ch);
    DivideIs(board, cw * ch);
    QuotientPositive(board, cw * ch);
  }

  lemma ConvectionPositive(r: real, s: real)
    requires r > 0.0 && s > 0.0
    ensures r * Squared(s) > 0.0
  {
    SquaredPositive(s);
    hide Squared;
    ProductPositive(r, Squared(s));
  }

  /** The links of a cell to ambient: in the sink, and in the board. */
  method AmbientSums(m: Model, l: nat, i: nat, j: nat, csum: real, wsum: real) returns (csum': real, wsum': real)
    requires Proper(m) && IsNode(m, Cell(l, i, j))
    ensures csum' == csum + Amb(m, Cell(l, i, j)) && wsum' == wsum + AmbFlow(m, Cell(l, i, j))
  {
    hide BoardResistance, PrimaryPositive, SecondaryPositive;
    csum', wsum' := csum, wsum;
    if l == HsIdx(m) {
      csum' := csum' + 1.0 / m.layers[l].rz;
      DivideIs(m.ambient, m.layers[l].rz);
      wsum' := wsum' + Over(m.ambient, m.layers[l].rz);
    } else if m.secondary && l == LAYER_PCB {
      var r := BoardToAmbient(m);
      csum' := csum' + 1.0 / r;
      DivideIs(m.ambient, r);
      wsum' := wsum' + Over(m.ambient, r);
    }
  }

  /** The layers of the package: spreader, sink, substrate, solder and board. */
  method AroundSums(m: Model, v: array<real>, l: nat, i: nat, j: nat, csum: real, wsum: real)
    returns (csum': real, wsum': real)
    requires Proper(m) && v.Length == Size(m) && IsNode(m, Cell(l, i, j))
    ensures SidePart(m, l, i, j, Conductance, csum' - csum - Amb(m, Cell(l, i, j)))
    ensures SidePart(m, l, i, j, Flow(TempOf(m, v[..])), wsum' - wsum - AmbFlow(m, Cell(l, i, j)))
  {
    hide Size, TempOf, EdgeResistance, Amb, AmbFlow, PrimaryPositive, SecondaryPositive;
    csum', wsum' := AmbientSums(m, l, i, j, csum, wsum);
    if Ringed(m, l) {
      csum', wsum' := SideSums(m, v, l, OnNorth, i, j, csum', wsum');
      csum', wsum' := SideSums(m, v, l, OnSouth, i, j, csum', wsum');
      csum', wsum' := SideSums(m, v, l, OnEast, i, j, csum', wsum');
      csum', wsum' := SideSums(m, v, l, OnWest, i, j, csum', wsum');
    }
  }

  /** Both sums of a cell. */
  method CellSums(m: Model, v: array<real>, l: nat, i: nat, j: nat) returns (csum: real, wsum: real)
    requires Proper(m) && v.Length == Size(m) && IsNode(m, Cell(l, i, j))
    ensures csum == CSum(m, Cell(l, i, j)) && wsum == WSum(m, TempOf(m, v[..]), Cell(l, i, j))
  {
    hide Size, TempOf, CellLinks, North, South, East, West, Above, Below, SideList, Amb, AmbFlow, LinkSum,
         PrimaryPositive, SecondaryPositive;
    csum, wsum := NeighbourSums(m, v, l, i, j);
    csum, wsum := AroundSums(m, v, l, i, j, csum, wsum);
    CellSum(m, l, i, j, Conductance);
    CellSum(m, l, i, j, Flow(TempOf(m, v[..])));
  }

  /** The new temperature of a node. */
  method Balance(m: Model, power: real, csum: real, wsum: real, ghost p: Temps, ghost t: Temps, ghost x: Node)
    returns (r: real)
    requires Proper(m) && IsNode(m, x) && csum == CSum(m, x) && wsum == WSum(m, t, x) && power == p(x)
    ensures r == Update(m, p, t, x)
  {
    CSumPositive(m, x);
    r := (power + wsum) / csum;
  }

  /** A change of one entry, and the largest change so far. */
  method Store(m: Model, v: array<real>, x: Node, r: real, max: real) returns (max': real)
    requires v.Length == Size(m) && IsNode(m, x) && max >= 0.0
    modifies v
    ensures SameTemps(TempOf(m, v[..]), Put(TempOf(m, old(v[..])), x, r))
    ensures max' == Max(Distance(r, TempOf(m, old(v[..]))(x)), max)
  {
    TempPut(m, v[..], x, r);
    TempAt(m, v[..], x);
    var prev := v[Index(m, x)];
    v[Index(m, x)] := r;
    var delta := if prev >= r then prev - r else r - prev;
    max' := if delta > max then delta else max;
  }

  // ----- the nodes around the grid -----

  function Plain(t: Temps): Weight {
    (k: Link) => t(k.to)
  }

  const Each: Weight := (k: Link) => 1.0

  lemma {:induction false} CountLinks(links: seq<Link>)
    ensures LinkSum(links, Each) == |links| as real
  {
    if links != [] {
      CountLinks(links[..|links| - 1]);
    }
  }

  /** One resistance for all the links of a side: it may be divided by at the end. */
  lemma SideSum(m: Model, t: Temps, l: int, side: Side, r: real)
    requires r > 0.0
    ensures LinkSum(SideLinks(m, l, side, r), Conductance) == Over(SideLength(m, side) as real, r)
    ensures LinkSum(SideLinks(m, l, side, r), Flow(t)) == Over(LinkSum(SideLinks(m, l, side, r), Plain(t)), r)
  {
    hide LinkSum;
    var links := SideLinks(m, l, side, r);
    CountLinks(links);
    LinkSumTimes(links, Inverse(r), Each, Conductance);
    forall k | k in links
      ensures Flow(t)(k) == Inverse(r) * Plain(t)(k)
    {
      assert Plain(t)(k) == t(k.to);
    }
    LinkSumTimes(links, Inverse(r), Plain(t), Flow(t));
    DivideIs(SideLength(m, side) as real, r);
    DivideIs(LinkSum(links, Plain(t)), r);
  }

  /** The loop over the cells of a side. */
  method SideTemps(m: Model, v: array<real>, l: nat, side: Side, ghost r: real) returns (sum: real)
    requires Proper(m) && v.Length == Size(m) && l < |m.layers|
    ensures sum == LinkSum(SideLinks(m, l, side, r), Plain(TempOf(m, v[..])))
  {
    ghost var t, links := TempOf(m, v[..]), SideLinks(m, l, side, r);
    sum := 0.0;
    for k := 0 to SideLength(m, side)
      invariant sum == LinkSum(links[..k], Plain(t))
    {
      assert links[..k + 1][..k] == links[..k];
      TempAt(m, v[..], SideCell(m, l, side, k));
      sum := sum + v[Index(m, SideCell(m, l, side, k))];
    }
    assert links[..SideLength(m, side)] == links;
  }

  method ExtraTemp(m: Model, v: array<real>, e: nat) returns (t: real)
    requires v.Length == Size(m) && e < ExtraCount(m)
    ensures t == TempOf(m, v[..])(Extra(e))
  {
    TempAt(m, v[..], Extra(e));
    t := v[Index(m, Extra(e))];
  }

  /** What the sums of a node of a ring consist of. */
  ghost predicate RingSums(m: Model, ring: Ring, side: Side, t: Temps, csum: real, wsum: real)
    requires Tall(m) && Present(m, ring)
  {
    csum == LinkSum(RingCells(m, ring, side), Conductance) + LinkSum(InnerLink(m, ring, side), Conductance) +
            LinkSum(OuterLink(m, ring, side), Conductance) + Amb(m, Extra(At(ring, side))) &&
    wsum == LinkSum(RingCells(m, ring, side), Flow(t)) + LinkSum(InnerLink(m, ring, side), Flow(t)) +
            LinkSum(OuterLink(m, ring, side), Flow(t)) + AmbFlow(m, Extra(At(ring, side)))
  }

  lemma RingSumsAre(m: Model, ring: Ring, side: Side, t: Temps, csum: real, wsum: real)
    requires Proper(m) && Present(m, ring) && RingSums(m, ring, side, t, csum, wsum)
    ensures csum == CSum(m, Extra(At(ring, side))) && wsum == WSum(m, t, Extra(At(ring, side)))
  {
    RingAndSide(ring, side);
    hide RingCells, InnerLink, OuterLink, RingLinks, LinkSum, Amb, AmbFlow, PrimaryPositive, SecondaryPositive, At,
         RingOf, SideOf;
    RingSum(m, ring, side, Conductance);
    RingSum(m, ring, side, Flow(t));
  }

  /** The loop over the edge cells of a ring's layer: one resistance for all of them, divided by at
      the end. */
  method EdgeSums(m: Model, v: array<real>, ring: Ring, side: Side, r: real) returns (csum: real, wsum: real)
    requires Proper(m) && v.Length == Size(m) && Present(m, ring) && HasLayer(ring)
    requires 0 <= RingLayer(m, ring) < |m.layers| && r == EdgeResistance(m, RingLayer(m, ring), side)
    ensures csum == LinkSum(RingCells(m, ring, side), Conductance)
    ensures wsum == LinkSum(RingCells(m, ring, side), Flow(TempOf(m, v[..])))
  {
    RingsOfLayers(m, ring);
    var l := RingLayer(m, ring);
    EdgePositive(m, l, side);
    hide EdgeResistance, TempOf, Size, LinkSum, PrimaryPositive, SecondaryPositive;
    var sum := SideTemps(m, v, l, side, r);
    SideSum(m, TempOf(m, v[..]), l, side, r);
    csum := Over(SideLength(m, side) as real, r);
    wsum := Over(sum, r);
  }

  /** One more link of a node: conductance and weighted temperature. */
  method LinkTerms(t: real, r: real, ghost k: Link, ghost temps: Temps) returns (c: real, w: real)
    requires r > 0.0 && k.r == r && t == temps(k.to)
    ensures c == LinkSum([k], Conductance) && w == LinkSum([k], Flow(temps))
  {
    LinkSumOne(k, Conductance);
    LinkSumOne(k, Flow(temps));
    DivideIs(t, r);
    c := 1.0 / r;
    w := Over(t, r);
  }

  /** And the link to ambient. */
  method AmbientTerms(m: Model, r: real, ghost x: Node) returns (c: real, w: real)
    requires Tall(m) && IsNode(m, x) && r > 0.0 && Amb(m, x) == Inverse(r)
    ensures c == Amb(m, x) && w == AmbFlow(m, x)
  {
    DivideIs(m.ambient, r);
    c := 1.0 / r;
    w := Over(m.ambient, r);
  }

  /** The neighbour of a ring's node outwards. */
  method OuterTerms(m: Model, v: array<real>, ring: Ring, side: Side, r: real) returns (c: real, w: real)
    requires Proper(m) && v.Length == Size(m) && Present(m, ring) && HasOuter(ring)
    requires r == OuterResistance(m, ring, side)
    ensures c == LinkSum(OuterLink(m, ring, side), Conductance)
    ensures w == LinkSum(OuterLink(m, ring, side), Flow(TempOf(m, v[..])))
  {
    RingPositive(m, ring, side);
    hide TempOf, Size, OuterResistance, LinkSum, PrimaryPositive, SecondaryPositive;
    var e := At(OuterOf(ring), side);
    var t := ExtraTemp(m, v, e);
    c, w := LinkTerms(t, r, Link(Extra(e), r), TempOf(m, v[..]));
  }

  /** And inwards. */
  method InnerTerms(m: Model, v: array<real>, ring: Ring, side: Side, r: real) returns (c: real, w: real)
    requires Proper(m) && v.Length == Size(m) && Present(m, ring) && HasInner(ring)
    requires r == OuterResistance(m, InnerOf(ring), side)
    ensures c == LinkSum(InnerLink(m, ring, side), Conductance)
    ensures w == LinkSum(InnerLink(m, ring, side), Flow(TempOf(m, v[..])))
  {
    RingPositive(m, InnerOf(ring), side);
    hide TempOf, Size, OuterResistance, LinkSum, PrimaryPositive, SecondaryPositive;
    var e := At(InnerOf(ring), side);
    var t := ExtraTemp(m, v, e);
    c, w := LinkTerms(t, r, Link(Extra(e), r), TempOf(m, v[..]));
  }

  lemma RingAmbient(m: Model, ring: Ring, side: Side)
    requires Proper(m) && Present(m, ring)
    ensures AmbientResistance(m, ring, side) > 0.0
    ensures Amb(m, Extra(At(ring, side))) == if HasAmbient(ring) then Inverse(AmbientResistance(m, ring, side)) else 0.0
  {
    RingPositive(m, ring, side);
    RingAndSide(ring, side);
  }

  lemma NoTerms(f: Weight)
    ensures LinkSum([], f) == 0.0
  {
  }

  /** Outer sink: ambient and the inner sink. */
  method SinkOutSums(m: Model, v: array<real>, side: Side) returns (csum: real, wsum: real)
    requires Proper(m) && v.Length == Size(m)
    ensures csum == CSum(m, Extra(At(SinkOut, side))) && wsum == WSum(m, TempOf(m, v[..]), Extra(At(SinkOut, side)))
  {
    RingAmbient(m, SinkOut, side);
    var ca, wa := AmbientTerms(m, m.pack.rHsPer + m.pack.rAmbPer, Extra(At(SinkOut, side)));
    hide TempOf, Size, LinkSum, Amb, AmbFlow, At, InnerLink, PrimaryPositive, SecondaryPositive;
    var ci, wi := InnerTerms(m, v, SinkOut, side, Along(side, m.pack.rHs2X, m.pack.rHs2Y) + m.pack.rHs);
    csum, wsum := ca + ci, wa + wi;
    NoTerms(Conductance);
    NoTerms(Flow(TempOf(m, v[..])));
    RingSumsAre(m, SinkOut, side, TempOf(m, v[..]), csum, wsum);
  }

  /** Inner sink: its edge cells, ambient, the spreader, and the outer sink. */
  method SinkInSums(m: Model, v: array<real>, side: Side) returns (csum: real, wsum: real)
    requires Proper(m) && v.Length == Size(m)
    ensures csum == CSum(m, Extra(At(SinkIn, side))) && wsum == WSum(m, TempOf(m, v[..]), Extra(At(SinkIn, side)))
  {
    hide LinkSum;
    var edge := EdgeInSweep(m, HsIdx(m), side, m.pack.rHs1X, m.pack.rHs1Y);
    RingAmbient(m, SinkIn, side);
    var ca, wa := AmbientTerms(m, Along(side, m.pack.rHsCPerX, m.pack.rHsCPerY) +
                               Along(side, m.pack.rAmbCPerX, m.pack.rAmbCPerY), Extra(At(SinkIn, side)));
    hide TempOf, Size, LinkSum, Amb, AmbFlow, At, RingCells, InnerLink, OuterLink, PrimaryPositive, SecondaryPositive;
    csum, wsum := EdgeSums(m, v, SinkIn, side, edge);
    var ci, wi := InnerTerms(m, v, SinkIn, side, Along(side, m.pack.rSpPerX, m.pack.rSpPerY));
    var co, wo := OuterTerms(m, v, SinkIn, side, Along(side, m.pack.rHs2X, m.pack.rHs2Y) + m.pack.rHs);
    csum := csum + (ca + ci + co);
    wsum := wsum + (wa + wi + wo);
    RingSumsAre(m, SinkIn, side, TempOf(m, v[..]), csum, wsum);
  }

  /** Spreader: its edge cells, and the inner sink. */
  method SpreaderSums(m: Model, v: array<real>, side: Side) returns (csum: real, wsum: real)
    requires Proper(m) && v.Length == Size(m)
    ensures csum == CSum(m, Extra(At(SpRing, side))) && wsum == WSum(m, TempOf(m, v[..]), Extra(At(SpRing, side)))
  {
    hide LinkSum;
    var edge := EdgeInSweep(m, SpIdx(m), side, m.pack.rSp1X, m.pack.rSp1Y);
    RingAmbient(m, SpRing, side);
    assert AmbFlow(m, Extra(At(SpRing, side))) == 0.0;
    hide TempOf, Size, LinkSum, Amb, AmbFlow, At, RingCells, OuterLink, PrimaryPositive, SecondaryPositive;
    csum, wsum := EdgeSums(m, v, SpRing, side, edge);
    var co, wo := OuterTerms(m, v, SpRing, side, Along(side, m.pack.rSpPerX, m.pack.rSpPerY));
    csum := csum + co;
    wsum := wsum + wo;
    NoTerms(Conductance);
    NoTerms(Flow(TempOf(m, v[..])));
    RingSumsAre(m, SpRing, side, TempOf(m, v[..]), csum, wsum);
  }

  /** Outer board: ambient and the inner board. */
  method PcbOutSums(m: Model, v: array<real>, side: Side) returns (csum: real, wsum: real)
    requires Proper(m) && m.secondary && v.Length == Size(m)
    ensures csum == CSum(m, Extra(At(PcbOut, side))) && wsum == WSum(m, TempOf(m, v[..]), Extra(At(PcbOut, side)))
  {
    RingAmbient(m, PcbOut, side);
    var ca, wa := AmbientTerms(m, m.pack.rAmbSecPer, Extra(At(PcbOut, side)));
    hide TempOf, Size, LinkSum, Amb, AmbFlow, At, InnerLink, PrimaryPositive, SecondaryPositive;
    var ci, wi := InnerTerms(m, v, PcbOut, side, Along(side, m.pack.rPcb2X, m.pack.rPcb2Y) + m.pack.rPcb);
    csum, wsum := ca + ci, wa + wi;
    NoTerms(Conductance);
    NoTerms(Flow(TempOf(m, v[..])));
    RingSumsAre(m, PcbOut, side, TempOf(m, v[..]), csum, wsum);
  }

  /** Inner board: its edge cells, ambient, the solder, and the outer board. */
  method PcbInSums(m: Model, v: array<real>, side: Side) returns (csum: real, wsum: real)
    requires Proper(m) && m.secondary && v.Length == Size(m)
    ensures csum == CSum(m, Extra(At(PcbIn, side))) && wsum == WSum(m, TempOf(m, v[..]), Extra(At(PcbIn, side)))
  {
    hide LinkSum;
    var edge := EdgeInSweep(m, LAYER_PCB, side, m.pack.rPcb1X, m.pack.rPcb1Y);
    RingAmbient(m, PcbIn, side);
    var ca, wa := AmbientTerms(m, Along(side, m.pack.rAmbSecCPerX, m.pack.rAmbSecCPerY), Extra(At(PcbIn, side)));
    hide TempOf, Size, LinkSum, Amb, AmbFlow, At, RingCells, InnerLink, OuterLink, PrimaryPositive, SecondaryPositive;
    csum, wsum := EdgeSums(m, v, PcbIn, side, edge);
    var ci, wi := InnerTerms(m, v, PcbIn, side, Along(side, m.pack.rPcbCPerX, m.pack.rPcbCPerY));
    var co, wo := OuterTerms(m, v, PcbIn, side, Along(side, m.pack.rPcb2X, m.pack.rPcb2Y) + m.pack.rPcb);
    csum := csum + (ca + ci + co);
    wsum := wsum + (wa + wi + wo);
    RingSumsAre(m, PcbIn, side, TempOf(m, v[..]), csum, wsum);
  }

  /** Solder: its edge cells, the inner board, and the substrate. */
  method SolderSums(m: Model, v: array<real>, side: Side) returns (csum: real, wsum: real)
    requires Proper(m) && m.secondary && v.Length == Size(m)
    ensures csum == CSum(m, Extra(At(SolderRing, side)))
    ensures wsum == WSum(m, TempOf(m, v[..]), Extra(At(SolderRing, side)))
  {
    hide LinkSum;
    var edge := EdgeInSweep(m, LAYER_SOLDER, side, m.pack.rSolder1X, m.pack.rSolder1Y);
    RingAmbient(m, SolderRing, side);
    assert AmbFlow(m, Extra(At(SolderRing, side))) == 0.0;
    hide TempOf, Size, LinkSum, Amb, AmbFlow, At, RingCells, InnerLink, OuterLink, PrimaryPositive, SecondaryPositive;
    csum, wsum := EdgeSums(m, v, SolderRing, side, edge);
    var ci, wi := InnerTerms(m, v, SolderRing, side, Along(side, m.pack.rSolderPerX, m.pack.rSolderPerY));
    var co, wo := OuterTerms(m, v, SolderRing, side, Along(side, m.pack.rPcbCPerX, m.pack.rPcbCPerY));
    csum := csum + (ci + co);
    wsum := wsum + (wo + wi);
    RingSumsAre(m, SolderRing, side, TempOf(m, v[..]), csum, wsum);
  }

  /** Substrate: its edge cells, and the solder. */
  method SubstrateSums(m: Model, v: array<real>, side: Side) returns (csum: real, wsum: real)
    requires Proper(m) && m.secondary && v.Length == Size(m)
    ensures csum == CSum(m, Extra(At(SubRing, side))) && wsum == WSum(m, TempOf(m, v[..]), Extra(At(SubRing, side)))
  {
    hide LinkSum;
    var edge := EdgeInSweep(m, LAYER_SUB, side, m.pack.rSub1X, m.pack.rSub1Y);
    RingAmbient(m, SubRing, side);
    assert AmbFlow(m, Extra(At(SubRing, side))) == 0.0;
    hide TempOf, Size, LinkSum, Amb, AmbFlow, At, RingCells, OuterLink, PrimaryPositive, SecondaryPositive;
    csum, wsum := EdgeSums(m, v, SubRing, side, edge);
    var co, wo := OuterTerms(m, v, SubRing, side, Along(side, m.pack.rSolderPerX, m.pack.rSolderPerY));
    csum := csum + co;
    wsum := wsum + wo;
    NoTerms(Conductance);
    NoTerms(Flow(TempOf(m, v[..])));
    RingSumsAre(m, SubRing, side, TempOf(m, v[..]), csum, wsum);
  }

  // ----- the iteration -----

  /** Only cells have power of their own. */
  function PowerOf(m: Model, p: seq<real>): Temps {
    (x: Node) => if x.Cell? then TempOf(m, p)(x) else 0.0
  }

  /** The body of the loops of single_iteration_steady_grid. */
  method SweepCell(m: Model, p: array<real>, v: array<real>, l: nat, i: nat, j: nat, max: real, ghost start: Temps,
                   ghost order: seq<Node>)
    returns (max': real)
    requires Proper(m) && v.Length == p.Length == Size(m) && v != p && IsNode(m, Cell(l, i, j))
    requires Progress(m, PowerOf(m, p[..]), start, order, TempOf(m, v[..]), max) && Nodes(m, order + [Cell(l, i, j)])
    modifies v
    ensures Progress(m, PowerOf(m, p[..]), start, order + [Cell(l, i, j)], TempOf(m, v[..]), max')
  {
    hide Progress, Nodes, CSum, WSum, TempOf, Update, Proper, Size, SameTemps;
    var x := Cell(l, i, j);
    ghost var power, now := PowerOf(m, p[..]), TempOf(m, v[..]);
    var csum, wsum := CellSums(m, v, l, i, j);
    var own := PowerAt(m, p, l, i, j);
    var r := Balance(m, own, csum, wsum, power, now, x);
    max' := StoreAt(m, v, x, r, max, power, start, order);
  }

  method PowerAt(m: Model, p: array<real>, l: nat, i: nat, j: nat) returns (r: real)
    requires p.Length == Size(m) && IsNode(m, Cell(l, i, j))
    ensures r == PowerOf(m, p[..])(Cell(l, i, j))
  {
    TempAt(m, p[..], Cell(l, i, j));
    r := p[Index(m, Cell(l, i, j))];
  }

  method StoreAt(m: Model, v: array<real>, x: Node, r: real, max: real, ghost power: Temps, ghost start: Temps,
                 ghost order: seq<Node>)
    returns (max': real)
    requires Proper(m) && v.Length == Size(m) && IsNode(m, x) && r == Update(m, power, TempOf(m, v[..]), x)
    requires Progress(m, power, start, order, TempOf(m, v[..]), max) && Nodes(m, order + [x])
    modifies v
    ensures Progress(m, power, start, order + [x], TempOf(m, v[..]), max')
  {
    hide Update, TempOf, Swept, Nodes;
    ghost var now := TempOf(m, v[..]);
    max' := Store(m, v, x, r, max);
    ProgressStep(m, power, start, order, now, max, x, TempOf(m, v[..]), max');
  }

  /** The cells in the order of the vector, so many of them. */
  ghost predicate CellsInOrder(m: Model, order: seq<Node>) {
    forall k | 0 <= k < |order| :: order[k].Cell? && IsNode(m, order[k]) && Index(m, order[k]) == k
  }

  lemma NoCells(m: Model)
    ensures CellsInOrder(m, [])
  {
  }

  lemma CellsDistinct(m: Model, order: seq<Node>)
    requires CellsInOrder(m, order)
    ensures Nodes(m, order)
  {
  }

  lemma OneMoreCell(m: Model, order: seq<Node>, l: nat, i: nat, j: nat)
    requires CellsInOrder(m, order) && IsNode(m, Cell(l, i, j)) && |order| == CellsBefore(m, l, i) + j
    ensures CellsInOrder(m, order + [Cell(l, i, j)]) && Nodes(m, order + [Cell(l, i, j)])
  {
    CellIndexIs(m, l, i, j);
    CellsDistinct(m, order + [Cell(l, i, j)]);
  }

  /** One row of cells. */
  method SweepRow(m: Model, p: array<real>, v: array<real>, l: nat, i: nat, max: real, ghost start: Temps,
                  ghost order: seq<Node>)
    returns (max': real, ghost order': seq<Node>)
    requires Proper(m) && v.Length == p.Length == Size(m) && v != p && l < |m.layers| && i < m.nr
    requires CellsInOrder(m, order) && |order| == CellsBefore(m, l, i)
    requires Progress(m, PowerOf(m, p[..]), start, order, TempOf(m, v[..]), max)
    modifies v
    ensures CellsInOrder(m, order') && |order'| == CellsBefore(m, l, i) + m.nc
    ensures Progress(m, PowerOf(m, p[..]), start, order', TempOf(m, v[..]), max')
  {
    hide Progress, Nodes, CellsInOrder, TempOf;
    max', order' := max, order;
    for j := 0 to m.nc
      invariant CellsInOrder(m, order') && |order'| == CellsBefore(m, l, i) + j
      invariant Progress(m, PowerOf(m, p[..]), start, order', TempOf(m, v[..]), max')
    {
      OneMoreCell(m, order', l, i, j);
      max' := SweepCell(m, p, v, l, i, j, max', start, order');
      order' := order' + [Cell(l, i, j)];
    }
  }

  /** How many cells come before a row. */
  function CellsBefore(m: Model, l: nat, i: nat): int {
    (l * m.nr + i) * m.nc
  }

  lemma CellsBeforeSteps(m: Model, l: nat, i: nat)
    ensures CellsBefore(m, l, i + 1) == CellsBefore(m, l, i) + m.nc
    ensures CellsBefore(m, l + 1, 0) == CellsBefore(m, l, m.nr)
    ensures CellsBefore(m, 0, 0) == 0 && CellsBefore(m, |m.layers|, 0) == |m.layers| * m.nr * m.nc
  {
    assert (l * m.nr + (i + 1)) * m.nc == (l * m.nr + i) * m.nc + m.nc;
    assert (l + 1) * m.nr == l * m.nr + m.nr;
  }

  /** The rows of one layer. */
  method SweepLayer(m: Model, p: array<real>, v: array<real>, l: nat, max: real, ghost start: Temps,
                    ghost order: seq<Node>)
    returns (max': real, ghost order': seq<Node>)
    requires Proper(m) && v.Length == p.Length == Size(m) && v != p && l < |m.layers|
    requires CellsInOrder(m, order) && |order| == CellsBefore(m, l, 0)
    requires Progress(m, PowerOf(m, p[..]), start, order, TempOf(m, v[..]), max)
    modifies v
    ensures CellsInOrder(m, order') && |order'| == CellsBefore(m, l + 1, 0)
    ensures Progress(m, PowerOf(m, p[..]), start, order', TempOf(m, v[..]), max')
  {
    hide Progress, Nodes, TempOf, CellsInOrder, CellsBefore, Proper, Size;
    max', order' := max, order;
    for i := 0 to m.nr
      invariant CellsInOrder(m, order') && |order'| == CellsBefore(m, l, i)
      invariant Progress(m, PowerOf(m, p[..]), start, order', TempOf(m, v[..]), max')
    {
      max', order' := SweepRow(m, p, v, l, i, max', start, order');
      CellsBeforeSteps(m, l, i);
    }
    CellsBeforeSteps(m, l, m.nr);
  }

  /** The loops of single_iteration_steady_grid. */
  method SweepCells(m: Model, p: array<real>, v: array<real>, ghost start: Temps)
    returns (max: real, ghost order: seq<Node>)
    requires Proper(m) && v.Length == p.Length == Size(m) && v != p && start == TempOf(m, v[..])
    modifies v
    ensures CellsInOrder(m, order) && |order| == |m.layers| * m.nr * m.nc
    ensures Progress(m, PowerOf(m, p[..]), start, order, TempOf(m, v[..]), max)
  {
    hide Progress, Nodes, TempOf, PowerOf, CellsBefore, CellsInOrder, Proper, Size;
    max, order := 0.0, [];
    ProgressStarts(m, PowerOf(m, p[..]), start);
    CellsBeforeSteps(m, 0, 0);
    NoCells(m);
    for l := 0 to |m.layers|
      invariant CellsInOrder(m, order) && |order| == CellsBefore(m, l, 0)
      invariant Progress(m, PowerOf(m, p[..]), start, order, TempOf(m, v[..]), max)
    {
      max, order := SweepLayer(m, p, v, l, max, start, order);
    }
  }

  // ----- the package part -----

  /** The k-th node that single_iteration_steady_pack visits: the rings of the sink and the spreader
      from outside in, then those of the board, the solder and the substrate; in each ring the sides in
      the order north, south, west, east. */
  function PackNode(k: nat): (e: nat)
    requires k < EXTRA + EXTRA_SEC
    ensures e < EXTRA + EXTRA_SEC && (e < EXTRA <==> k < EXTRA)
  {
    At(PackRing(k / 4), PackSide(k % 4))
  }

  function PackRing(n: nat): Ring {
    if n == 0 then SinkOut else if n == 1 then SinkIn else if n == 2 then SpRing else if n == 3 then PcbOut
    else if n == 4 then PcbIn else if n == 5 then SolderRing else SubRing
  }

  function PackSide(n: nat): Side {
    if n == 0 then OnNorth else if n == 1 then OnSouth else if n == 2 then OnWest else OnEast
  }

  function Extras(k: nat): (s: seq<Node>)
    requires k <= EXTRA + EXTRA_SEC
    ensures |s| == k && forall n | 0 <= n < k :: s[n] == Extra(PackNode(n))
  {
    seq(k, n requires 0 <= n < k => Extra(PackNode(n)))
  }

  lemma PackNodesDiffer(a: nat, b: nat)
    requires a < b < EXTRA + EXTRA_SEC
    ensures PackNode(a) != PackNode(b)
  {
  }

  lemma OneMoreExtra(m: Model, cells: seq<Node>, k: nat)
    requires CellsInOrder(m, cells) && k < ExtraCount(m)
    ensures Extras(k + 1) == Extras(k) + [Extra(PackNode(k))] && Nodes(m, cells + Extras(k + 1))
  {
    hide PackNode;
    CellsDistinct(m, cells);
    forall a: nat, b: nat | a < b < k + 1
      ensures PackNode(a) != PackNode(b)
    {
      PackNodesDiffer(a, b);
    }
    assert forall n | 0 <= n < k + 1 :: PackNode(n) < ExtraCount(m);
  }

  method ExtraSums(m: Model, v: array<real>, e: nat) returns (csum: real, wsum: real)
    requires Proper(m) && v.Length == Size(m) && e < ExtraCount(m)
    ensures csum == CSum(m, Extra(e)) && wsum == WSum(m, TempOf(m, v[..]), Extra(e))
  {
    AtRingAndSide(e);
    hide CSum, WSum, TempOf, Size, At, PrimaryPositive, SecondaryPositive;
    var side := SideOf(e);
    match RingOf(e) {
      case SinkOut => csum, wsum := SinkOutSums(m, v, side);
      case SinkIn => csum, wsum := SinkInSums(m, v, side);
      case SpRing => csum, wsum := SpreaderSums(m, v, side);
      case PcbOut => csum, wsum := PcbOutSums(m, v, side);
      case PcbIn => csum, wsum := PcbInSums(m, v, side);
      case SolderRing => csum, wsum := SolderSums(m, v, side);
      case SubRing => csum, wsum := SubstrateSums(m, v, side);
    }
  }

  /** single_iteration_steady_pack. */
  method SweepPack(m: Model, p: array<real>, v: array<real>, max: real, ghost start: Temps, ghost cells: seq<Node>)
    returns (max': real)
    requires Proper(m) && v.Length == p.Length == Size(m) && v != p && CellsInOrder(m, cells)
    requires Progress(m, PowerOf(m, p[..]), start, cells, TempOf(m, v[..]), max)
    modifies v
    ensures Progress(m, PowerOf(m, p[..]), start, cells + Extras(ExtraCount(m)), TempOf(m, v[..]), max')
  {
    hide Progress, Nodes, TempOf, CSum, WSum, Update, CellsInOrder, PackNode, PrimaryPositive, SecondaryPositive;
    max' := max;
    assert cells + Extras(0) == cells;
    ghost var power := PowerOf(m, p[..]);
    for k := 0 to ExtraCount(m)
      invariant Progress(m, power, start, cells + Extras(k), TempOf(m, v[..]), max')
    {
      var e := PackNode(k);
      OneMoreExtra(m, cells, k);
      assert cells + Extras(k + 1) == cells + Extras(k) + [Extra(e)];
      var csum, wsum := ExtraSums(m, v, e);
      var r := Balance(m, 0.0, csum, wsum, power, TempOf(m, v[..]), Extra(e));
      max' := StoreAt(m, v, Extra(e), r, max', power, start, cells + Extras(k));
    }
  }

  /** All nodes are visited. */
  lemma AllVisited(m: Model, cells: seq<Node>)
    requires CellsInOrder(m, cells) && |cells| == |m.layers| * m.nr * m.nc
    ensures forall x | IsNode(m, x) :: x in cells + Extras(ExtraCount(m))
  {
    forall x | IsNode(m, x)
      ensures x in cells + Extras(ExtraCount(m))
    {
      IndexInRange(m, x);
      if x.Cell? {
        IndexInjective(m, x, cells[Index(m, x)]);
      } else {
        var n := PlaceOf(x.e);
        assert Extras(ExtraCount(m))[n] == x;
      }
    }
  }

  lemma PlaceOf(e: int) returns (n: nat)
    requires 0 <= e < EXTRA + EXTRA_SEC
    ensures n < EXTRA + EXTRA_SEC && PackNode(n) == e
  {
    AtRingAndSide(e);
    var g := match RingOf(e)
             case SinkOut => 0 case SinkIn => 1 case SpRing => 2
             case PcbOut => 3 case PcbIn => 4 case SolderRing => 5 case SubRing => 6;
    var s := match SideOf(e) case OnNorth => 0 case OnSouth => 1 case OnWest => 2 case OnEast => 3;
    n := 4 * g + s;
  }

  /** All cells in the order of their numbers, and then the nodes around. */
  ghost predicate InSweepOrder(m: Model, order: seq<Node>) {
    var n := |m.layers| * m.nr * m.nc;
    |order| == n + ExtraCount(m) && CellsInOrder(m, order[..n]) && order[n..] == Extras(ExtraCount(m))
  }

  lemma OneSweepOrder(m: Model, a: seq<Node>, b: seq<Node>)
    requires InSweepOrder(m, a) && InSweepOrder(m, b)
    ensures a == b
  {
    hide Index, PackNode;
    var n := |m.layers| * m.nr * m.nc;
    forall k | 0 <= k < n
      ensures a[k] == b[k]
    {
      assert a[..n][k] == a[k] && b[..n][k] == b[k];
      IndexInjective(m, a[k], b[k]);
    }
    assert a[..n] == b[..n];
    assert a == a[..n] + a[n..] && b == b[..n] + b[n..];
  }

  /** One iteration: it is a sweep over all nodes, each once. The change it reports is the largest one;
      it is zero exactly if every node was in balance, in which case nothing is changed; and otherwise it
      bounds what each node is left to lack. */
  method SingleIteration(m: Model, p: array<real>, v: array<real>) returns (delta: real, ghost order: seq<Node>)
    requires Proper(m) && v.Length == p.Length == Size(m) && v != p
    modifies v
    ensures InSweepOrder(m, order) && Nodes(m, order) && forall x | IsNode(m, x) :: x in order
    ensures SameTemps(TempOf(m, v[..]), Swept(m, PowerOf(m, p[..]), TempOf(m, old(v[..])), order, |order|))
    ensures LargestChange(TempOf(m, v[..]), TempOf(m, old(v[..])), delta)
    ensures delta == 0.0 <==> forall x | IsNode(m, x) :: Balanced(m, PowerOf(m, p[..]), TempOf(m, old(v[..])), x)
    ensures forall x | IsNode(m, x) ::
              Distance(Residual(m, PowerOf(m, p[..]), TempOf(m, v[..]), x), 0.0) <= Allow(delta, CSum(m, x) - Amb(m, x))
  {
    hide TempOf, Balanced, Swept, CellsInOrder, Residual, Distance, Allow, CSum, Amb, LargestChange, PrimaryPositive,
         SecondaryPositive;
    ghost var start := TempOf(m, v[..]);
    delta, order := SweepCells(m, p, v, start);
    delta := SweepPack(m, p, v, delta, start, order);
    AllVisited(m, order);
    assert (order + Extras(ExtraCount(m)))[..|order|] == order;
    order := order + Extras(ExtraCount(m));
    WholeSweep(m, PowerOf(m, p[..]), start, order, TempOf(m, v[..]), delta);
  }
}
