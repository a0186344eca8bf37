/** What the conductances of the block model (HotSpot/temperature_block.c) mean: the entries of B are the
    conductances of bars of material between the centres of neighbours, the units along a side of the
    spreader or the sink act like one bar, and so do the units of the sink towards ambient. */
module BlockLaws {
  import opened Numbers
  import opened Geometry
  import opened Adjacency
  import opened LupFactors
  import opened BlockModel
  import opened BlockFill

  // ----- bars -----

  /** A bar of material: its conductance along its length. */
  function Bar(k: real, area: real, length: real): real
    requires length > 0.0
  {
    k * area / length
  }

  /** A bar in a layer, as deep as the layer is thick. */
  function Strip(m: Material, width: real, length: real): real
    requires length > 0.0
  {
    Section(m, width) / length
  }

  function Section(m: Material, width: real): real {
    m.k * (m.t * width)
  }

  /** The edge that two units share. */
  function Edge(a: Rect, b: Rect): real {
    if IsHorizAdj(a, b) then Overlap(a.bottomy, a.bottomy + a.height, b.bottomy, b.bottomy + b.height)
    else Overlap(a.leftx, a.leftx + a.width, b.leftx, b.leftx + b.width)
  }

  /** Between neighbours within a layer, from centre to centre, as deep as the layer is thick and as wide as the
      edge that they share. */
  function LateralBond(c: Chip, k: nat, i: nat, j: nat): real
    requires Proper(c) && k < NL && i < |c.units| && j < |c.units|
  {
    var a, b, m := c.units[i], c.units[j], c.materials[k];
    if i == j || (k == 0 && c.omitLateral) then 0.0
    else if IsHorizAdj(a, b) then Strip(m, Edge(a, b), a.width / 2.0 + b.width / 2.0)
    else if IsVertAdj(a, b) then Strip(m, Edge(a, b), a.height / 2.0 + b.height / 2.0)
    else 0.0
  }

  lemma EdgeIsShared(a: Rect, b: Rect)
    requires Solid(a) && Solid(b) && (IsHorizAdj(a, b) || IsVertAdj(a, b))
    ensures GetSharedLen(a, b) == GetSharedLen(b, a) == Edge(a, b) > 0.0
  {
    SharedIffAdjacent(a, b);
  }

  /** The part of one end, from the centre of the unit to the edge. */
  lemma HalfIsBar(m: Material, extent: real, depth: real, len: real)
    requires m.k > 0.0 && m.t > 0.0 && extent > 0.0 && depth > 0.0
    ensures AlongEdge(Half(m, extent, depth), depth, len) == Strip(m, len, extent / 2.0)
  {
    ProductPositive(depth, m.t);
    HalfBar(m.k, extent / 2.0, depth, m.t, len);
  }

  lemma HalfBar(k: real, half: real, depth: real, t: real, len: real)
    requires k > 0.0 && half > 0.0 && depth > 0.0 && t > 0.0 && depth * t > 0.0
    ensures GetR(k, half, depth * t) > 0.0
    ensures 1.0 / GetR(k, half, depth * t) / depth * len == k * (t * len) / half
  {
    ProductPositive(k, depth * t);
    var all := k * (depth * t);
    InverseOf(half, all);
    var v := all / half;
    assert v * half == all;
    var w := v / depth;
    assert w * depth == v;
    assert (w * half) * depth == k * t * depth;
    Cancel(w * half, k * t, depth);
    assert w * half * len == k * (t * len);
    Undivide(w * len, half, k * (t * len));
  }

  lemma InverseOf(a: real, b: real)
    requires a > 0.0 && b > 0.0
    ensures a / b > 0.0 && 1.0 / (a / b) == b / a
  {
    var q := a / b;
    assert q * b == a;
    var r := b / a;
    assert r * a == b;
    assert (q * r) * b == q * (r * b);
    assert q * r * a == q * b;
    Cancel(q * r, 1.0, a);
    Undivide(r, q, 1.0);
  }

  lemma Cancel(a: real, b: real, c: real)
    requires c != 0.0 && a * c == b * c
    ensures a == b
  {
    assert (a - b) * c == 0.0;
  }

  lemma Undivide(a: real, b: real, c: real)
    requires b != 0.0 && a * b == c
    ensures c / b == a
  {
    assert (c / b) * b == c;
    Cancel(c / b, a, b);
  }

  lemma SeriesOf(a: real, l1: real, l2: real)
    requires a > 0.0 && l1 > 0.0 && l2 > 0.0 && a / l1 > 0.0 && a / l2 > 0.0
    ensures Series(a / l1, a / l2) == -(a / (l1 + l2))
  {
    InverseOf(a, l1);
    InverseOf(a, l2);
    QuotientSum(l1, l2, a);
    InverseOf(l1 + l2, a);
    Negated((l1 + l2) / a);
  }

  lemma QuotientSum(x: real, y: real, a: real)
    requires a > 0.0
    ensures x / a + y / a == (x + y) / a
  {
  }

  lemma Negated(x: real)
    requires x > 0.0
    ensures -1.0 / x == -(1.0 / x)
  {
  }

  /** Two bars of the same material and cross section, end to end, are one bar. */
  lemma StripsInSeries(m: Material, width: real, l1: real, l2: real)
    requires m.k > 0.0 && m.t > 0.0 && width > 0.0 && l1 > 0.0 && l2 > 0.0
    ensures Strip(m, width, l1) > 0.0 && Strip(m, width, l2) > 0.0
    ensures Series(Strip(m, width, l1), Strip(m, width, l2)) == -Strip(m, width, l1 + l2)
  {
    hide Series, Section;
    SectionPositive(m, width);
    QuotientPositive(Section(m, width), l1);
    QuotientPositive(Section(m, width), l2);
    SeriesOf(Section(m, width), l1, l2);
  }

  lemma SectionPositive(m: Material, width: real)
    requires m.k > 0.0 && m.t > 0.0 && width > 0.0
    ensures Section(m, width) > 0.0
  {
    ProductPositive(m.t, width);
    ProductPositive(m.k, m.t * width);
  }

  /** The part that is put into g for one end of a link within a layer. */
  lemma EndMeans(c: Chip, k: nat, i: nat, j: nat)
    requires Proper(c) && k < NL && i < |c.units| && j < |c.units| && i != j && (k > 0 || !c.omitLateral)
    ensures var a, b, m := c.units[i], c.units[j], c.materials[k];
            IsHorizAdj(a, b) ==> Lateral(c, k, i, j) == Strip(m, GetSharedLen(a, b), a.width / 2.0)
    ensures var a, b, m := c.units[i], c.units[j], c.materials[k];
            IsVertAdj(a, b) ==> Lateral(c, k, i, j) == Strip(m, GetSharedLen(a, b), a.height / 2.0)
  {
    hide Half, AlongEdge, IsHorizAdj, IsVertAdj, GetSharedLen, Strip, Network.PrimaryPositive;
    var a, b, m := c.units[i], c.units[j], c.materials[k];
    AdjacencySymmetric(a, b);
    HalfIsBar(m, a.width, a.height, GetSharedLen(a, b));
    HalfIsBar(m, a.height, a.width, GetSharedLen(a, b));
  }

  /** Neighbours in a layer: the two parts that are put into g make up the bar between the centres. */
  lemma LateralMeans(c: Chip, k: nat, i: nat, j: nat)
    requires Proper(c) && k < NL && i < |c.units| && j < |c.units|
    ensures Lateral(c, k, i, j) >= 0.0 && Lateral(c, k, j, i) >= 0.0
    ensures Series(Lateral(c, k, i, j), Lateral(c, k, j, i)) == -LateralBond(c, k, i, j)
  {
    hide Lateral, IsHorizAdj, IsVertAdj, GetSharedLen, Edge, Strip, Series, Network.PrimaryPositive;
    LateralExact(c, k, i, j);
    LateralExact(c, k, j, i);
    var a, b, m := c.units[i], c.units[j], c.materials[k];
    AdjacencySymmetric(a, b);
    if i == j || (k == 0 && c.omitLateral) || !(IsHorizAdj(a, b) || IsVertAdj(a, b)) {
      SeriesOfNothing(Lateral(c, k, i, j), Lateral(c, k, j, i));
    } else {
      EdgeIsShared(a, b);
      EndMeans(c, k, i, j);
      EndMeans(c, k, j, i);
      if IsHorizAdj(a, b) {
        StripsInSeries(m, Edge(a, b), a.width / 2.0, b.width / 2.0);
      } else {
        StripsInSeries(m, Edge(a, b), a.height / 2.0, b.height / 2.0);
      }
    }
  }

  lemma SeriesOfNothing(x: real, y: real)
    requires x >= 0.0 && y >= 0.0 && (x == 0.0 || y == 0.0)
    ensures Series(x, y) == 0.0
  {
  }

  // ----- between layers -----

  /** Between two layers, a bar as long as the upper layer is thick, with the area of the unit. */
  function VerticalBond(c: Chip, k: nat, i: nat): real
    requires Proper(c) && k < HSINK && i < |c.units|
  {
    Bar(c.materials[k].k, c.units[i].width * c.units[i].height, c.materials[k].t)
  }

  lemma VerticalMeans(c: Chip, k: nat, i: nat)
    requires Proper(c) && k < HSINK && i < |c.units|
    ensures Series(Vertical(c, k, i), Vertical(c, k, i)) == -VerticalBond(c, k, i)
  {
    hide Series, GetR, Network.PrimaryPositive;
    var m, area := c.materials[k], UnitArea(c.units[i]);
    TwiceInSeries(GetR(m.k, m.t, area));
    ResistanceOfBar(m.k, m.t, area);
  }

  lemma ResistanceOfBar(k: real, t: real, area: real)
    requires k > 0.0 && t > 0.0 && area > 0.0
    ensures GetR(k, t, area) > 0.0 && 1.0 / GetR(k, t, area) == Bar(k, area, t)
  {
    ProductPositive(k, area);
    InverseOf(t, k * area);
  }

  /** Each end has twice the conductance, so that both make up the whole. */
  lemma TwiceInSeries(r: real)
    requires r > 0.0
    ensures 2.0 / r > 0.0 && Series(2.0 / r, 2.0 / r) == -(1.0 / r)
  {
    QuotientPositive(2.0, r);
    InverseOf(2.0, r);
    assert r / 2.0 + r / 2.0 == r;
    Negated(r);
  }

  // ----- along a side -----

  predicate Touches(c: Chip, i: nat, d: nat)
    requires i < |c.units| && d < 4
  {
    var r := c.units[i];
    Abs(match d
        case 0 => r.leftx
        case 1 => c.width - (r.leftx + r.width)
        case 2 => c.height - (r.bottomy + r.height)
        case _ => r.bottomy) < DELTA
  }

  /** From the centre of a unit to its edge on a side, over the whole of that edge. */
  function HalfUnit(c: Chip, k: nat, d: nat, i: nat): real
    requires Proper(c) && k < NL && d < 4 && i < |c.units|
  {
    var r := c.units[i];
    if d < 2 then Strip(c.materials[k], r.height, r.width / 2.0) else Strip(c.materials[k], r.width, r.height / 2.0)
  }

  /** All of the first n units that touch the side, in parallel. */
  function HalfUnits(c: Chip, k: nat, d: nat, n: nat): real
    requires Proper(c) && k < NL && d < 4 && n <= |c.units|
  {
    if n == 0 then 0.0
    else HalfUnits(c, k, d, n - 1) + (if Touches(c, n - 1, d) then HalfUnit(c, k, d, n - 1) else 0.0)
  }

  /** The package beyond the side of the spreader or the sink: r_sp1 and r_hs1. */
  function Beyond(c: Chip, k: nat, d: nat): real {
    match (k == HSP, d < 2)
    case (true, true) => c.pack.rSp1X
    case (true, false) => c.pack.rSp1Y
    case (false, true) => c.pack.rHs1X
    case (false, false) => c.pack.rHs1Y
  }

  /** All units of a side in parallel, in series with the package: the conductance from a side that is
      short-circuited. */
  function SideBond(all: real, r: real): real
    requires all > 0.0 && r > 0.0
  {
    1.0 / (1.0 / all + r)
  }

  lemma BeyondPositive(c: Chip, k: nat, d: nat)
    requires Proper(c)
    ensures Beyond(c, k, d) > 0.0
  {
  }

  /** And each unit has its share of that. */
  function RimBond(c: Chip, k: nat, d: nat, i: nat): real
    requires Proper(c) && (k == HSP || k == HSINK) && d < 4 && i < |c.units|
  {
    var all := HalfUnits(c, k, d, |c.units|);
    if Touches(c, i, d) then
      TouchingPositive(c, k, d, i, |c.units|);
      HalfUnit(c, k, d, i) / all * SideBond(all, Beyond(c, k, d))
    else 0.0
  }

  lemma HalfUnitIs(c: Chip, k: nat, d: nat, i: nat)
    requires Proper(c) && 0 < k < NL && d < 4 && i < |c.units|
    ensures Touches(c, i, d) <==> OnBorder(c, i, d)
    ensures HalfUnit(c, k, d, i) == Towards(c, k, d, i) > 0.0
  {
    hide HalfUnit, Towards, Network.PrimaryPositive;
    HalfUnitTowards(c, k, d, i);
  }

  lemma HalfUnitTowards(c: Chip, k: nat, d: nat, i: nat)
    requires Proper(c) && 0 < k < NL && d < 4 && i < |c.units|
    ensures HalfUnit(c, k, d, i) == Towards(c, k, d, i)
  {
    var r, m := c.units[i], c.materials[k];
    hide Half, Strip, Network.PrimaryPositive;
    if d < 2 {
      HalfWhole(m, r.width, r.height);
    } else {
      HalfWhole(m, r.height, r.width);
    }
  }

  lemma HalfWhole(m: Material, extent: real, depth: real)
    requires m.k > 0.0 && m.t > 0.0 && extent > 0.0 && depth > 0.0
    ensures Half(m, extent, depth) == Strip(m, depth, extent / 2.0)
  {
    hide Half, Strip;
    HalfIsBar(m, extent, depth, depth);
  }

  lemma {:induction false} TouchingPositive(c: Chip, k: nat, d: nat, i: nat, n: nat)
    requires Proper(c) && (k == HSP || k == HSINK) && d < 4 && i < n <= |c.units| && Touches(c, i, d)
    ensures HalfUnits(c, k, d, n) > 0.0 && Beyond(c, k, d) > 0.0
  {
    hide HalfUnit, Touches;
    HalfUnitIs(c, k, d, n - 1);
    HalfUnitsNotNegative(c, k, d, n - 1);
    if i < n - 1 {
      TouchingPositive(c, k, d, i, n - 1);
    }
  }

  lemma {:induction false} HalfUnitsNotNegative(c: Chip, k: nat, d: nat, n: nat)
    requires Proper(c) && 0 < k < NL && d < 4 && n <= |c.units|
    ensures HalfUnits(c, k, d, n) >= 0.0
  {
    hide HalfUnit, Touches, Network.PrimaryPositive;
    if n > 0 {
      HalfUnitIs(c, k, d, n - 1);
      HalfUnitsNotNegative(c, k, d, n - 1);
    }
  }

  lemma {:induction false} HalfUnitsAre(c: Chip, k: nat, d: nat, n: nat)
    requires Proper(c) && 0 < k < NL && d < 4 && n <= |c.units|
    ensures HalfUnits(c, k, d, n) == Shorted(c, k, d, n)
  {
    hide HalfUnit, Touches, Towards, OnBorder, Network.PrimaryPositive;
    if n > 0 {
      HalfUnitIs(c, k, d, n - 1);
      HalfUnitsAre(c, k, d, n - 1);
    }
  }

  lemma RimMeans(c: Chip, k: nat, d: nat, i: nat)
    requires Proper(c) && (k == HSP || k == HSINK) && d < 4 && i < |c.units|
    ensures Border(c, k, d, i) >= 0.0 && Series(Border(c, k, d, i), Border(c, k, d, i)) == -RimBond(c, k, d, i)
  {
    hide HalfUnit, HalfUnits, Touches, Towards, OnBorder, Shorted, Share, SideBond, Series, Network.PrimaryPositive;
    HalfUnitIs(c, k, d, i);
    HalfUnitsAre(c, k, d, |c.units|);
    var g, all, r := Towards(c, k, d, i), Shorted(c, k, d, |c.units|), SideResistance(c, k, d);
    if Touches(c, i, d) {
      TouchingPositive(c, k, d, i, |c.units|);
      TwiceInSeries(Share(g, r, all));
      ShareOfSide(g, r, all);
      assert Beyond(c, k, d) == r;
    } else {
      SeriesOfNothing(0.0, 0.0);
      NothingOver(Share(g, r, all));
    }
  }

  lemma NothingOver(x: real)
    requires x > 0.0
    ensures 2.0 * 0.0 / x == 0.0 && 2.0 * 1.0 / x == 2.0 / x
  {
  }

  lemma ShareOfSide(g: real, r: real, all: real)
    requires g > 0.0 && r > 0.0 && all > 0.0
    ensures 1.0 / Share(g, r, all) == g / all * SideBond(all, r)
  {
    ProductPositive(r, all);
    QuotientPositive(1.0, all);
    QuotientSum(1.0, r * all, g);
    InverseOf(1.0 + r * all, g);
    var x, y := g / all, 1.0 / all + r;
    assert x * all == g;
    assert (1.0 / all) * all == 1.0;
    assert y * all == 1.0 + r * all;
    var z := 1.0 / y;
    assert z * y == 1.0;
    assert (x * z) * (y * all) == (x * all) * (z * y);
    Undivide(x * z, y * all, g);
  }

  /** What the first n units have of a side. */
  function RimBonds(c: Chip, k: nat, d: nat, n: nat): real
    requires Proper(c) && (k == HSP || k == HSINK) && d < 4 && n <= |c.units|
  {
    if n == 0 then 0.0 else RimBonds(c, k, d, n - 1) + RimBond(c, k, d, n - 1)
  }

  /** The units of a side of the spreader or the sink, taken together, are one bar in series with the package,
      however the side is divided. */
  lemma SideTogether(c: Chip, k: nat, d: nat)
    requires Proper(c) && (k == HSP || k == HSINK) && d < 4
    ensures var all := HalfUnits(c, k, d, |c.units|);
            if all > 0.0 then
              Beyond(c, k, d) > 0.0 && RimBonds(c, k, d, |c.units|) == SideBond(all, Beyond(c, k, d))
            else RimBonds(c, k, d, |c.units|) == 0.0
  {
    hide RimBonds, HalfUnits, SideBond, Beyond;
    BeyondPositive(c, k, d);
    var all := HalfUnits(c, k, d, |c.units|);
    if all > 0.0 {
      RimShares(c, k, d, |c.units|);
      Whole(all, SideBond(all, Beyond(c, k, d)));
    } else {
      NoRim(c, k, d, |c.units|);
    }
  }

  lemma Whole(all: real, bond: real)
    requires all > 0.0
    ensures all / all * bond == bond
  {
  }

  lemma {:induction false} RimShares(c: Chip, k: nat, d: nat, n: nat)
    requires Proper(c) && (k == HSP || k == HSINK) && d < 4 && n <= |c.units|
    requires HalfUnits(c, k, d, |c.units|) > 0.0
    ensures var all := HalfUnits(c, k, d, |c.units|);
            Beyond(c, k, d) > 0.0 &&
            RimBonds(c, k, d, n) == HalfUnits(c, k, d, n) / all * SideBond(all, Beyond(c, k, d))
  {
    hide HalfUnit, Touches, SideBond, Beyond, Network.PrimaryPositive;
    BeyondPositive(c, k, d);
    var all := HalfUnits(c, k, d, |c.units|);
    var bond := SideBond(all, Beyond(c, k, d));
    AddShare(0.0, 0.0, all, bond);
    if n > 0 {
      RimShares(c, k, d, n - 1);
      AddShare(HalfUnits(c, k, d, n - 1), HalfUnit(c, k, d, n - 1), all, bond);
    }
  }

  lemma AddShare(x: real, y: real, all: real, bond: real)
    requires all > 0.0
    ensures x / all * bond + y / all * bond == (x + y) / all * bond
    ensures 0.0 / all * bond == 0.0
  {
    QuotientSum(x, y, all);
  }

  lemma {:induction false} NoRim(c: Chip, k: nat, d: nat, n: nat)
    requires Proper(c) && (k == HSP || k == HSINK) && d < 4 && n <= |c.units|
    requires HalfUnits(c, k, d, |c.units|) <= 0.0
    ensures RimBonds(c, k, d, n) == 0.0
  {
    hide HalfUnit, Touches, SideBond, Network.PrimaryPositive;
    if n > 0 {
      NoRim(c, k, d, n - 1);
      if Touches(c, n - 1, d) {
        TouchingPositive(c, k, d, n - 1, |c.units|);
      }
    }
  }

  // ----- the entries of B -----

  /** From a node around the spreader to the one around the inner sink, and from there to the outer one. */
  function OutwardBond(c: Chip, e: nat): real
    requires Proper(c) && e < SINK_W
  {
    match e
    case 0 => 1.0 / c.pack.rSpPerX
    case 1 => 1.0 / c.pack.rSpPerX
    case 2 => 1.0 / c.pack.rSpPerY
    case 3 => 1.0 / c.pack.rSpPerY
    case 4 => 1.0 / (c.pack.rHs + c.pack.rHs2X)
    case 5 => 1.0 / (c.pack.rHs + c.pack.rHs2X)
    case _ => 1.0 / (c.pack.rHs + c.pack.rHs2Y)
  }

  lemma OutwardMeans(c: Chip, e: nat)
    requires Proper(c) && e < SINK_W
    ensures Series(Outward(c, e), Outward(c, e)) == -OutwardBond(c, e)
  {
    hide Series;
    var r := if e < 2 then c.pack.rSpPerX else if e < 4 then c.pack.rSpPerY
             else if e < 6 then c.pack.rHs + c.pack.rHs2X else c.pack.rHs + c.pack.rHs2Y;
    TwiceInSeries(r);
    assert Outward(c, e) == 2.0 / r;
  }

  /** The conductance between two nodes. */
  function Bond(c: Chip, x: BlockNode, y: BlockNode): real
    requires Proper(c) && IsNode(|c.units|, x) && IsNode(|c.units|, y)
  {
    match (x, y)
    case (Block(k, i), Block(l, j)) =>
      if k == l then LateralBond(c, k, i, j)
      else if i == j && l == k + 1 then VerticalBond(c, k, i)
      else if i == j && k == l + 1 then VerticalBond(c, l, i) else 0.0
    case (Block(k, i), Around(e)) => RimBondAt(c, k, i, e)
    case (Around(e), Block(k, i)) => RimBondAt(c, k, i, e)
    case (Around(d), Around(e)) =>
      if e == d + 4 then OutwardBond(c, d) else if d == e + 4 then OutwardBond(c, e) else 0.0
  }

  /** Units of the spreader are next to the nodes 0 to 3, those of the sink to the nodes 4 to 7. */
  function RimBondAt(c: Chip, k: nat, i: nat, e: nat): real
    requires Proper(c) && k < NL && i < |c.units| && e < EXTRA
  {
    if k == HSP && e < 4 then RimBond(c, HSP, e, i)
    else if k == HSINK && 4 <= e < 8 then RimBond(c, HSINK, e - 4, i)
    else 0.0
  }

  /** The parts of the two ends of a link make up its conductance. */
  lemma PartsMean(c: Chip, x: BlockNode, y: BlockNode)
    requires Proper(c) && IsNode(|c.units|, x) && IsNode(|c.units|, y)
    ensures PartOf(c, x, y) >= 0.0 && PartOf(c, y, x) >= 0.0
    ensures Series(PartOf(c, x, y), PartOf(c, y, x)) == -Bond(c, x, y)
  {
    hide Lateral, LateralBond, Vertical, VerticalBond, Border, RimBond, Outward, OutwardBond, Series,
         Network.PrimaryPositive;
    BothEnds(c, x, y);
    BothEnds(c, y, x);
    match (x, y)
    case (Block(k, i), Block(l, j)) =>
      if k == l {
        LateralMeans(c, k, i, j);
      } else if i == j && l == k + 1 {
        VerticalMeans(c, k, i);
      } else if i == j && k == l + 1 {
        VerticalMeans(c, l, i);
      } else {
        SeriesOfNothing(0.0, 0.0);
      }
    case (Block(k, i), Around(e)) => RimPartMeans(c, k, i, e);
    case (Around(e), Block(k, i)) => RimPartMeans(c, k, i, e);
    case (Around(d), Around(e)) =>
      if e == d + 4 {
        OutwardMeans(c, d);
      } else if d == e + 4 {
        OutwardMeans(c, e);
      } else {
        SeriesOfNothing(0.0, 0.0);
      }
  }

  lemma RimPartMeans(c: Chip, k: nat, i: nat, e: nat)
    requires Proper(c) && k < NL && i < |c.units| && e < EXTRA
    ensures RimPart(c, k, i, e) >= 0.0
    ensures Series(RimPart(c, k, i, e), RimPart(c, k, i, e)) == -RimBondAt(c, k, i, e)
  {
    hide Border, RimBond, Series, Network.PrimaryPositive;
    if k == HSP && e < 4 {
      RimMeans(c, HSP, e, i);
    } else if k == HSINK && 4 <= e < 8 {
      RimMeans(c, HSINK, e - 4, i);
    } else {
      SeriesOfNothing(0.0, 0.0);
    }
  }

  /** What populate_R_model_block leaves in B off the diagonal: for any two nodes, the conductance between
      them. The diagonal follows from the sums of the rows. */
  lemma BondsInB(c: Chip, model: Model)
    requires Proper(c) && model.Valid() && model.ready && model.n == |c.units| && Holds(model.g, model.n, All(c))
    ensures forall x, y | IsNode(model.n, x) && IsNode(model.n, y) && x != y ::
              AtNodes(model.n, x, y) && model.b[At(model.n, x), At(model.n, y)] == -Bond(c, x, y)
  {
    hide PartOf, Bond, At, Series, Network.PrimaryPositive, Factors;
    forall x, y | IsNode(model.n, x) && IsNode(model.n, y) && x != y
      ensures AtNodes(model.n, x, y) && model.b[At(model.n, x), At(model.n, y)] == -Bond(c, x, y)
    {
      AtOnce(model.n, x, y);
      AtOnce(model.n, y, x);
      PartsMean(c, x, y);
      assert AtNodes(model.n, x, y) && AtNodes(model.n, y, x);
    }
  }

  // ----- to ambient -----

  /** From a sink layer of some area to ambient: through the material, and by convection. */
  function SinkBond(c: Chip, area: real): real
    requires Proper(c) && area > 0.0
  {
    SinkDefined(c, area);
    1.0 / (c.materials[HSINK].t / (c.materials[HSINK].k * area) + c.rConvec * Square(c.sSink) / area)
  }

  function Square(x: real): real {
    x * x
  }

  lemma SinkDefined(c: Chip, area: real)
    requires Proper(c) && area > 0.0
    ensures c.materials[HSINK].k * area > 0.0
    ensures c.materials[HSINK].t / (c.materials[HSINK].k * area) + c.rConvec * Square(c.sSink) / area > 0.0
  {
    ProductPositive(c.materials[HSINK].k, area);
    QuotientPositive(c.materials[HSINK].t, c.materials[HSINK].k * area);
    Network.SquaredPositive(c.sSink);
    assert Square(c.sSink) == Network.Squared(c.sSink);
    ProductPositive(c.rConvec, Square(c.sSink));
    QuotientPositive(c.rConvec * Square(c.sSink), area);
  }

  function AreaTo(c: Chip, n: nat): real
    requires n <= |c.units|
  {
    if n == 0 then 0.0 else AreaTo(c, n - 1) + c.units[n - 1].width * c.units[n - 1].height
  }

  function AmbientTo(c: Chip, n: nat): real
    requires Proper(c) && n <= |c.units|
  {
    if n == 0 then 0.0 else AmbientTo(c, n - 1) + BlockToAmbient(c, n - 1)
  }

  lemma BlockToAmbientMeans(c: Chip, i: nat)
    requires Proper(c) && i < |c.units|
    ensures BlockToAmbient(c, i) == SinkBond(c, UnitArea(c.units[i]))
  {
    hide UnitArea;
    SinkDefined(c, UnitArea(c.units[i]));
    assert Square(c.sSink) == Network.Squared(c.sSink);
  }

  /** From the nodes around the inner sink and the outer sink; the spreader has no contact with ambient. */
  function AroundBond(c: Chip, e: nat): real
    requires Proper(c) && e < EXTRA
  {
    if e < 4 then 0.0
    else if e < 6 then 1.0 / (c.pack.rHsCPerX + c.pack.rAmbCPerX)
    else if e < 8 then 1.0 / (c.pack.rHsCPerY + c.pack.rAmbCPerY)
    else 1.0 / (c.pack.rHsPer + c.pack.rAmbPer)
  }

  /** What populate_R_model_block leaves in g_amb. */
  lemma BondsToAmbient(c: Chip, model: Model)
    requires Proper(c) && model.Shaped() && model.n == |c.units|
    requires forall i: nat | i < model.n :: model.gAmb[i] == BlockToAmbient(c, i)
    requires forall e: nat | e < EXTRA :: model.gAmb[model.n + e] == AroundToAmbient(c, e)
    ensures forall i: nat | i < model.n ::
              UnitArea(c.units[i]) == c.units[i].width * c.units[i].height &&
              model.gAmb[i] == SinkBond(c, UnitArea(c.units[i]))
    ensures forall e: nat | e < EXTRA :: model.gAmb[model.n + e] == AroundBond(c, e)
  {
    hide BlockToAmbient, SinkBond, UnitArea;
    forall i: nat | i < model.n
      ensures UnitArea(c.units[i]) == c.units[i].width * c.units[i].height
      ensures model.gAmb[i] == SinkBond(c, UnitArea(c.units[i]))
    {
      AreaOfUnit(c.units[i]);
      BlockToAmbientMeans(c, i);
    }
    forall e: nat | e < EXTRA
      ensures model.gAmb[model.n + e] == AroundBond(c, e)
    {
      assert AroundToAmbient(c, e) == AroundBond(c, e);
    }
  }

  lemma AreaOfUnit(r: Rect)
    requires Solid(r)
    ensures UnitArea(r) == r.width * r.height
  {
  }

  /** That is proportional to the area. */
  lemma SinkPerArea(c: Chip, area: real)
    requires Proper(c) && area > 0.0
    ensures SinkBond(c, 1.0) > 0.0 && SinkBond(c, area) == area * SinkBond(c, 1.0)
  {
    var t, k, r := c.materials[HSINK].t, c.materials[HSINK].k, c.rConvec * Square(c.sSink);
    SinkDefined(c, area);
    SinkDefined(c, 1.0);
    var x, y := t / (k * area) + r / area, t / (k * 1.0) + r / 1.0;
    PerArea(t, k, r, area);
    assert y > 0.0 && x * area == y;
    QuotientPositive(1.0, y);
    var z := 1.0 / y;
    assert z * y == 1.0;
    assert (area * z) * x == z * (x * area);
    Undivide(area * z, x, 1.0);
  }

  lemma PerArea(t: real, k: real, r: real, area: real)
    requires k > 0.0 && area > 0.0 && k * area > 0.0
    ensures (t / (k * area) + r / area) * area == t / (k * 1.0) + r / 1.0
  {
    var q := t / (k * area);
    assert q * (k * area) == t;
    assert (q * area) * k == t;
    Undivide(q * area, k, t);
    assert (r / area) * area == r;
  }

  /** All units of the sink together are a sink of the area of the chip, however the chip is divided. */
  lemma SinkTogether(c: Chip)
    requires Proper(c)
    ensures AreaTo(c, |c.units|) > 0.0 && AmbientTo(c, |c.units|) == SinkBond(c, AreaTo(c, |c.units|))
  {
    hide SinkBond;
    SinkOf(c, |c.units|);
    SinkPerArea(c, AreaTo(c, |c.units|));
  }

  lemma {:induction false} SinkOf(c: Chip, n: nat)
    requires Proper(c) && n <= |c.units|
    ensures AreaTo(c, n) >= 0.0 && (n > 0 ==> AreaTo(c, n) > 0.0)
    ensures AmbientTo(c, n) == Times(AreaTo(c, n), SinkBond(c, 1.0))
  {
    hide SinkBond, BlockToAmbient, Times, Network.PrimaryPositive;
    AddTimes(0.0, 0.0, SinkBond(c, 1.0));
    if n > 0 {
      SinkOf(c, n - 1);
      UnitSink(c, n - 1);
      var area := UnitArea(c.units[n - 1]);
      var sum := AreaTo(c, n - 1) + area;
      AddTimes(AreaTo(c, n - 1), area, SinkBond(c, 1.0));
      assert AreaTo(c, n) == sum;
      assert AmbientTo(c, n) == Times(sum, SinkBond(c, 1.0));
    }
  }

  lemma UnitSink(c: Chip, i: nat)
    requires Proper(c) && i < |c.units|
    ensures BlockToAmbient(c, i) == Times(UnitArea(c.units[i]), SinkBond(c, 1.0))
    ensures UnitArea(c.units[i]) == c.units[i].width * c.units[i].height
  {
    hide SinkBond, BlockToAmbient, UnitArea;
    var area := UnitArea(c.units[i]);
    AreaOfUnit(c.units[i]);
    BlockToAmbientMeans(c, i);
    SinkPerArea(c, area);
  }

  function Times(a: real, b: real): real {
    a * b
  }

  lemma AddTimes(a: real, b: real, c: real)
    ensures Times(a, c) + Times(b, c) == Times(a + b, c) && Times(0.0, c) == 0.0
  {
  }
}
