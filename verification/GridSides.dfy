/** What the package sees of the grid (HotSpot/temperature_grid.c): the cells along a side of a layer act
    like one resistance to the node on that side, and the cells of the board like one to ambient. The
    package's part of it does not depend on how fine the grid is. */
module GridSides {
  import opened Numbers
  import opened GridNetwork
  import opened GridSweep

  /** The package beyond a side of a layer, and before it half a row of cells in parallel. */
  function SideSeries(m: Model, ring: Ring, side: Side): real
    requires Tall(m) && m.nr > 0 && m.nc > 0 && Present(m, ring) && HasLayer(ring)
  {
    var sp, sink := |m.layers| - 2, |m.layers| - 1;
    match ring
    case SpRing => SideOfLayer(m, sp, side, m.pack.rSp1X, m.pack.rSp1Y)
    case SinkIn => SideOfLayer(m, sink, side, m.pack.rHs1X, m.pack.rHs1Y)
    case SubRing => SideOfLayer(m, 2, side, m.pack.rSub1X, m.pack.rSub1Y)
    case SolderRing => SideOfLayer(m, 1, side, m.pack.rSolder1X, m.pack.rSolder1Y)
    case PcbIn => SideOfLayer(m, 0, side, m.pack.rPcb1X, m.pack.rPcb1Y)
  }

  function SideOfLayer(m: Model, l: nat, side: Side, x: real, y: real): real
    requires l < |m.layers| && m.nr > 0 && m.nc > 0
  {
    match side
    case OnNorth => y + m.layers[l].ry / 2.0 / m.nc as real
    case OnSouth => y + m.layers[l].ry / 2.0 / m.nc as real
    case OnEast => x + m.layers[l].rx / 2.0 / m.nr as real
    case OnWest => x + m.layers[l].rx / 2.0 / m.nr as real
  }

  /** All cells of a side together reach the node of the ring through that resistance. */
  lemma SideTogether(m: Model, ring: Ring, side: Side)
    requires Proper(m) && Present(m, ring) && HasLayer(ring)
    ensures SideSeries(m, ring, side) > 0.0
    ensures LinkSum(RingCells(m, ring, side), Conductance) == 1.0 / SideSeries(m, ring, side)
  {
    hide LinkSum, EdgeResistance, RingCells, SideSeries, Over, PrimaryPositive, SecondaryPositive;
    SideConductance(m, ring, side);
    var (half, r) := EdgeParts(m, ring, side);
    OverIs(SideLength(m, side), half, r, EdgeResistance(m, RingLayer(m, ring), side), SideSeries(m, ring, side));
  }

  lemma SideConductance(m: Model, ring: Ring, side: Side)
    requires Proper(m) && Present(m, ring) && HasLayer(ring)
    ensures 0 <= RingLayer(m, ring) < |m.layers| && EdgeResistance(m, RingLayer(m, ring), side) > 0.0
    ensures LinkSum(RingCells(m, ring, side), Conductance) ==
            Over(SideLength(m, side) as real, EdgeResistance(m, RingLayer(m, ring), side))
  {
    hide LinkSum, EdgeResistance, Over, PrimaryPositive, SecondaryPositive;
    RingsOfLayers(m, ring);
    EdgePositive(m, RingLayer(m, ring), side);
    SideSum(m, (x: Node) => 0.0, RingLayer(m, ring), side, EdgeResistance(m, RingLayer(m, ring), side));
  }

  lemma OverIs(n: nat, half: real, r: real, edge: real, series: real)
    requires n > 0 && half > 0.0 && r > 0.0 && edge == half / 2.0 + n as real * r > 0.0
    requires series == r + half / 2.0 / n as real
    ensures series > 0.0 && Over(n as real, edge) == 1.0 / series
  {
    InParallel(n, half, r);
  }

  function EdgeParts(m: Model, ring: Ring, side: Side): (p: (real, real))
    requires Proper(m) && Present(m, ring) && HasLayer(ring)
    ensures p.0 > 0.0 && p.1 > 0.0
    ensures 0 <= RingLayer(m, ring) < |m.layers|
    ensures EdgeResistance(m, RingLayer(m, ring), side) == p.0 / 2.0 + SideLength(m, side) as real * p.1
    ensures SideSeries(m, ring, side) == p.1 + p.0 / 2.0 / SideLength(m, side) as real
  {
    RingsOfLayers(m, ring);
    RingPositive(m, ring, side);
    var l := RingLayer(m, ring);
    (Along(side, m.layers[l].rx, m.layers[l].ry), RingResistance(m, ring, side))
  }

  lemma InParallel(n: nat, half: real, r: real)
    requires n > 0 && half > 0.0 && r > 0.0
    ensures half / 2.0 + n as real * r > 0.0 && r + half / 2.0 / n as real > 0.0
    ensures n as real / (half / 2.0 + n as real * r) == 1.0 / (r + half / 2.0 / n as real)
  {
    var c, h := n as real, half / 2.0;
    ProductPositive(c, r);
    QuotientPositive(h, c);
    var x, y := h + c * r, r + h / c;
    assert (h / c) * c == h;
    assert y * c == x;
    var q, s := c / x, 1.0 / y;
    assert q * x == c && s * y == 1.0;
    assert (q - s) * (x * y) == 0.0;
  }

  /** All cells of the board together give heat to ambient like a board of the size of the chip. */
  lemma BoardTogether(m: Model, i: nat, j: nat)
    requires Proper(m) && m.secondary && i < m.nr && j < m.nc
    ensures m.pack.rConvecSec * (m.pack.sPcb * m.pack.sPcb) > 0.0
    ensures (m.nr * m.nc) as real * Amb(m, Cell(0, i, j)) ==
            m.width * m.height / (m.pack.rConvecSec * (m.pack.sPcb * m.pack.sPcb))
  {
    ConvectionPositive(m.pack.rConvecSec, m.pack.sPcb);
    var conv := m.pack.rConvecSec * Squared(m.pack.sPcb);
    assert conv == m.pack.rConvecSec * (m.pack.sPcb * m.pack.sPcb);
    var cw, ch := m.width / m.nc as real, m.height / m.nr as real;
    QuotientPositive(m.width, m.nc as real);
    QuotientPositive(m.height, m.nr as real);
    BoardPositive(conv, cw, ch);
    assert BoardToAmbient(m) == conv / (cw * ch);
    assert Amb(m, Cell(0, i, j)) == 1.0 / (conv / (cw * ch));
    CellsTogether(m.nr, m.nc, m.width, m.height, conv);
  }

  lemma CellsTogether(nr: nat, nc: nat, w: real, h: real, conv: real)
    requires nr > 0 && nc > 0 && w > 0.0 && h > 0.0 && conv > 0.0
    ensures w / nc as real * (h / nr as real) > 0.0 && conv / (w / nc as real * (h / nr as real)) > 0.0
    ensures (nr * nc) as real * (1.0 / (conv / (w / nc as real * (h / nr as real)))) == w * h / conv
  {
    var a, b := w / nc as real, h / nr as real;
    QuotientPositive(w, nc as real);
    QuotientPositive(h, nr as real);
    ProductPositive(a, b);
    QuotientPositive(conv, a * b);
    assert a * nc as real == w && b * nr as real == h;
    var cells := (nr * nc) as real;
    assert cells == nr as real * nc as real;
    assert cells * (a * b) == w * h;
    var q := conv / (a * b);
    assert q * (a * b) == conv;
    var s := 1.0 / q;
    assert s * q == 1.0;
    Same(cells * s, w * h / conv, conv, q, a * b, cells, s, w * h);
  }

  lemma Same(x: real, y: real, conv: real, q: real, area: real, cells: real, s: real, all: real)
    requires conv > 0.0 && conv == q * area && s * q == 1.0 && cells * area == all && x == cells * s && y == all / conv
    ensures x == y
  {
    assert y * conv == all;
    assert x * conv == (cells * area) * (s * q);
    assert (x - y) * conv == 0.0;
  }
}
