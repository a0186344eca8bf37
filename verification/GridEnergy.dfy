/** Heat in the grid model (HotSpot/temperature_grid.c): what flows over a link leaves the node at one end
    and reaches the one at the other. So all power goes to ambient in a steady state; and in the transient
    model, power and heat from ambient are what the capacitances store, but for a flow that
    slope_fn_pack leaves out. */
module GridEnergy {
  import opened GridNetwork
  import opened GaussSeidel
  import opened GridSweep
  import opened GridMatrix
  import opened GridSlope
  import opened GridCounts

  // ----- sums over nodes -----

  function NodeSum(order: seq<Node>, f: Temps): real {
    if order == [] then 0.0 else NodeSum(order[..|order| - 1], f) + f(order[|order| - 1])
  }

  lemma {:induction false} NodeSumSame(order: seq<Node>, f: Temps, g: Temps)
    requires forall x | x in order :: f(x) == g(x)
    ensures NodeSum(order, f) == NodeSum(order, g)
  {
    if order != [] {
      NodeSumSame(order[..|order| - 1], f, g);
    }
  }

  lemma {:induction false} NodeSumPlus(order: seq<Node>, f: Temps, g: Temps, h: Temps)
    requires forall x | x in order :: h(x) == f(x) + g(x)
    ensures NodeSum(order, h) == NodeSum(order, f) + NodeSum(order, g)
  {
    if order != [] {
      NodeSumPlus(order[..|order| - 1], f, g, h);
    }
  }

  lemma {:induction false} NodeSumZero(order: seq<Node>, f: Temps)
    requires forall x | x in order :: f(x) == 0.0
    ensures NodeSum(order, f) == 0.0
  {
    if order != [] {
      NodeSumZero(order[..|order| - 1], f);
    }
  }

  function Only(z: Node, v: real): Temps {
    (x: Node) => if x == z then v else 0.0
  }

  lemma {:induction false} NodeSumOnly(order: seq<Node>, z: Node, v: real)
    requires z in order && forall a, b | 0 <= a < b < |order| :: order[a] != order[b]
    ensures NodeSum(order, Only(z, v)) == v
  {
    var n := |order| - 1;
    if order[n] == z {
      NodeSumZero(order[..n], Only(z, v));
    } else {
      assert z in order[..n];
      NodeSumOnly(order[..n], z, v);
    }
  }

  /** What nodes exchange adds up to nothing. */
  type Exchange = (Node, Node) -> real

  function Row(a: Exchange, x: Node): Temps {
    (y: Node) => a(x, y)
  }

  function Received(order: seq<Node>, a: Exchange): Temps {
    (x: Node) => NodeSum(order, Row(a, x))
  }

  lemma {:induction false} ExchangeZero(order: seq<Node>, a: Exchange)
    requires forall x, y | x in order && y in order :: a(x, y) == -a(y, x)
    ensures NodeSum(order, Received(order, a)) == 0.0
  {
    if order != [] {
      var n := |order| - 1;
      var less, z := order[..n], order[n];
      ExchangeZero(less, a);
      var from, to := Row(a, z), (x: Node) => a(x, z);
      NodeSumPlus(less, Received(less, a), to, Received(order, a));
      NodeSumNegated(less, from, to);
      assert Received(order, a)(z) == NodeSum(less, from) + a(z, z);
    }
  }

  lemma {:induction false} NodeSumNegated(order: seq<Node>, f: Temps, g: Temps)
    requires forall x | x in order :: f(x) == -g(x)
    ensures NodeSum(order, f) == -NodeSum(order, g)
  {
    if order != [] {
      NodeSumNegated(order[..|order| - 1], f, g);
    }
  }

  // ----- a link has two ends -----

  /** The conductance of the links to y. */
  function To(y: Node): Weight {
    (k: Link) => if k.to == y then Inverse(k.r) else 0.0
  }

  function Between(m: Model, x: Node, y: Node): real
    requires Tall(m) && IsNode(m, x)
  {
    LinkSum(Links(m, x), To(y))
  }

  lemma LinksDistinct(m: Model, x: Node)
    requires Proper(m) && IsNode(m, x)
    ensures DistinctTargets(Links(m, x))
  {
    match x
    case Cell(l, i, j) =>
      forall y
        ensures LinkSum(Links(m, x), Hits(y)) <= 1.0
      {
        CellHits(m, l, i, j, y);
      }
      HitOnce(Links(m, x));
    case Extra(e) =>
      AtRingAndSide(e);
      RingTargets(m, RingOf(e), SideOf(e));
  }

  lemma {:induction false} OneTo(links: seq<Link>, k: Link)
    requires DistinctTargets(links) && k in links
    ensures LinkSum(links, To(k.to)) == Inverse(k.r)
  {
    var n := |links| - 1;
    if links[n] == k {
      NoneTo(links[..n], k.to);
    } else {
      assert k in links[..n];
      assert links[n].to != k.to;
      OneTo(links[..n], k);
    }
  }

  lemma {:induction false} NoneTo(links: seq<Link>, y: Node)
    requires forall k | k in links :: k.to != y
    ensures LinkSum(links, To(y)) == 0.0
  {
    if links != [] {
      NoneTo(links[..|links| - 1], y);
    }
  }

  lemma BetweenSymmetric(m: Model, x: Node, y: Node)
    requires Proper(m) && IsNode(m, x) && IsNode(m, y)
    ensures Between(m, x, y) == Between(m, y, x)
  {
    hide LinkSum, Links;
    LinksDistinct(m, x);
    LinksDistinct(m, y);
    if k :| k in Links(m, x) && k.to == y {
      LinksSymmetric(m, x, k);
      OneTo(Links(m, x), k);
      OneTo(Links(m, y), Link(x, k.r));
    } else {
      NoneTo(Links(m, x), y);
      forall k | k in Links(m, y)
        ensures k.to != x
      {
        if k.to == x {
          LinksSymmetric(m, y, k);
        }
      }
      NoneTo(Links(m, y), x);
    }
  }

  /** What x receives from y. */
  function Flowing(m: Model, t: Temps): Exchange
    requires Tall(m)
  {
    (x: Node, y: Node) => if IsNode(m, x) && IsNode(m, y) then Product(Between(m, x, y), t(y) - t(x)) else 0.0
  }

  function Coming(links: seq<Link>, t: Temps, here: real): Temps {
    (y: Node) => Product(LinkSum(links, To(y)), t(y) - here)
  }

  /** The sum over the links of a node, node by node. */
  lemma {:induction false} Regrouped(order: seq<Node>, links: seq<Link>, t: Temps, here: real)
    requires forall k | k in links :: k.to in order
    requires forall a, b | 0 <= a < b < |order| :: order[a] != order[b]
    ensures LinkSum(links, Drop(t, here)) == NodeSum(order, Coming(links, t, here))
  {
    hide Product, Drop;
    if links == [] {
      NothingTimes();
      forall y | y in order
        ensures Coming(links, t, here)(y) == 0.0
      {
        assert LinkSum(links, To(y)) == 0.0;
      }
      NodeSumZero(order, Coming(links, t, here));
    } else {
      var n := |links| - 1;
      var k, rest := links[n], links[..n];
      Regrouped(order, rest, t, here);
      var v := Drop(t, here)(k);
      NodeSumOnly(order, k.to, v);
      forall y | y in order
        ensures Coming(links, t, here)(y) == Coming(rest, t, here)(y) + Only(k.to, v)(y)
      {
        Distribute(LinkSum(rest, To(y)), To(y)(k), t(y) - here);
        DropIs(t, here, k);
        NothingTimes();
      }
      NodeSumPlus(order, Coming(rest, t, here), Only(k.to, v), Coming(links, t, here));
    }
  }

  lemma NothingTimes()
    ensures forall c :: Product(0.0, c) == 0.0
  {
  }

  lemma Distribute(a: real, b: real, c: real)
    ensures Product(a + b, c) == Product(a, c) + Product(b, c)
  {
  }

  lemma DropIs(t: Temps, here: real, k: Link)
    ensures Drop(t, here)(k) == Product(Inverse(k.r), t(k.to) - here)
  {
  }

  /** All that flows in from other nodes. */
  function FromNodes(m: Model, t: Temps): Temps
    requires Tall(m)
  {
    (x: Node) => if IsNode(m, x) then LinkSum(Links(m, x), Drop(t, t(x))) else 0.0
  }

  ghost predicate AllNodes(m: Model, order: seq<Node>) {
    Nodes(m, order) && forall x | IsNode(m, x) :: x in order
  }

  /** What flows between the nodes of a network is neither made nor lost. */
  lemma NothingLost(m: Model, t: Temps, order: seq<Node>)
    requires Proper(m) && AllNodes(m, order)
    ensures NodeSum(order, FromNodes(m, t)) == 0.0
  {
    hide LinkSum, Links, Between, Product, NodeSum, PrimaryPositive, SecondaryPositive;
    var a := Flowing(m, t);
    forall x, y | x in order && y in order
      ensures a(x, y) == -a(y, x)
    {
      BetweenSymmetric(m, x, y);
      Opposite(Between(m, x, y), t(x), t(y));
    }
    ExchangeZero(order, a);
    forall x | x in order
      ensures FromNodes(m, t)(x) == Received(order, a)(x)
    {
      ReceivedIs(m, t, order, x);
    }
    NodeSumSame(order, FromNodes(m, t), Received(order, a));
  }

  lemma Opposite(g: real, a: real, b: real)
    ensures Product(g, b - a) == -Product(g, a - b)
  {
  }

  lemma ReceivedIs(m: Model, t: Temps, order: seq<Node>, x: Node)
    requires Proper(m) && AllNodes(m, order) && x in order
    ensures FromNodes(m, t)(x) == Received(order, Flowing(m, t))(x)
  {
    hide LinkSum, Links, Product, NodeSum;
    LinksGood(m, x);
    Regrouped(order, Links(m, x), t, t(x));
    forall y | y in order
      ensures Coming(Links(m, x), t, t(x))(y) == Row(Flowing(m, t), x)(y)
    {
      assert Between(m, x, y) == LinkSum(Links(m, x), To(y));
    }
    NodeSumSame(order, Coming(Links(m, x), t, t(x)), Row(Flowing(m, t), x));
  }

  // ----- steady states -----

  /** What a node gives to ambient. */
  function ToAmbient(m: Model, t: Temps): Temps
    requires Tall(m)
  {
    (x: Node) => if IsNode(m, x) then (t(x) - m.ambient) * Amb(m, x) else 0.0
  }

  /** In a steady state of the grid all the power goes to ambient, in both modes, on every grid. */
  lemma GridEnergyConserved(m: Model, p: Temps, t: Temps, order: seq<Node>)
    requires Proper(m) && AllNodes(m, order) && forall x | IsNode(m, x) :: Balanced(m, p, t, x)
    ensures NodeSum(order, p) == NodeSum(order, ToAmbient(m, t))
  {
    hide LinkSum, Links, Amb, NodeSum, PrimaryPositive, SecondaryPositive;
    forall x | x in order
      ensures ToAmbient(m, t)(x) == p(x) + FromNodes(m, t)(x)
    {
      InflowBalances(m, p, t, x);
    }
    NodeSumPlus(order, p, FromNodes(m, t), ToAmbient(m, t));
    NothingLost(m, t, order);
  }

  lemma InflowBalances(m: Model, p: Temps, t: Temps, x: Node)
    requires Tall(m) && IsNode(m, x)
    ensures Balanced(m, p, t, x) <==> p(x) + FromNodes(m, t)(x) == ToAmbient(m, t)(x)
  {
    hide Links, Amb, Drop, Flow, LinkSum;
    DropSum(Links(m, x), t, t(x));
    InflowIs(m.ambient, t(x), Amb(m, x), LinkSum(Links(m, x), Conductance), LinkSum(Links(m, x), Flow(t)));
    Opposite(Amb(m, x), m.ambient, t(x));
  }

  // ----- the transient model -----

  /** The heat that the cells store, and the nodes around the grid, when temperatures change at rate w. */
  function CellStores(m: Model, w: Temps): Temps {
    (x: Node) => if x.Cell? && IsNode(m, x) then m.layers[x.l].c * w(x) else 0.0
  }

  /** Nodes of one capacitance. */
  function Pair(c: real, x: real, y: real): real {
    c * (x + y)
  }

  function Four(c: real, x: real, y: real, z: real, u: real): real {
    c * (x + y + z + u)
  }

  function PrimaryStores(c: Caps, w: Temps): real {
    Pair(c.cSpPerX, w(Extra(0)), w(Extra(1))) + Pair(c.cSpPerY, w(Extra(2)), w(Extra(3))) +
    Pair(c.cHsCPerX + c.cAmbCPerX, w(Extra(4)), w(Extra(5))) +
    Pair(c.cHsCPerY + c.cAmbCPerY, w(Extra(6)), w(Extra(7))) +
    Four(c.cHsPer + c.cAmbPer, w(Extra(8)), w(Extra(9)), w(Extra(10)), w(Extra(11)))
  }

  function SecondaryStores(c: Caps, w: Temps): real {
    Pair(c.cSubPerX, w(Extra(12)), w(Extra(13))) + Pair(c.cSubPerY, w(Extra(14)), w(Extra(15))) +
    Pair(c.cSolderPerX, w(Extra(16)), w(Extra(17))) + Pair(c.cSolderPerY, w(Extra(18)), w(Extra(19))) +
    Pair(c.cPcbCPerX + c.cAmbSecCPerX, w(Extra(20)), w(Extra(21))) +
    Pair(c.cPcbCPerY + c.cAmbSecCPerY, w(Extra(22)), w(Extra(23))) +
    Four(c.cPcbPer + c.cAmbSecPer, w(Extra(24)), w(Extra(25)), w(Extra(26)), w(Extra(27)))
  }

  function Stores(m: Model, c: Caps, w: Temps): Temps {
    (x: Node) => if IsNode(m, x) then Product(Capacitance(m, c, x), w(x)) else 0.0
  }

  /** The same, restricted to the first n nodes around the grid. */
  function RimStores(m: Model, c: Caps, w: Temps, n: nat): Temps {
    (x: Node) => if x.Extra? && x.e < n then Stores(m, c, w)(x) else 0.0
  }

  function RimTotal(m: Model, c: Caps, w: Temps, n: nat): real {
    if n == 0 then 0.0 else RimTotal(m, c, w, n - 1) + Stores(m, c, w)(Extra(n - 1))
  }

  lemma {:induction false} RimSum(m: Model, c: Caps, w: Temps, order: seq<Node>, n: nat)
    requires AllNodes(m, order) && n <= ExtraCount(m)
    ensures NodeSum(order, RimStores(m, c, w, n)) == RimTotal(m, c, w, n)
  {
    hide NodeSum, Stores;
    if n == 0 {
      forall x | x in order
        ensures RimStores(m, c, w, 0)(x) == 0.0
      {
        assert IsNode(m, x);
      }
      NodeSumZero(order, RimStores(m, c, w, 0));
    } else {
      RimSum(m, c, w, order, n - 1);
      var v := Stores(m, c, w)(Extra(n - 1));
      NodeSumOnly(order, Extra(n - 1), v);
      NodeSumPlus(order, RimStores(m, c, w, n - 1), Only(Extra(n - 1), v), RimStores(m, c, w, n));
    }
  }

  lemma RingTotal(m: Model, c: Caps, w: Temps, n: nat)
    requires n + 4 <= ExtraCount(m)
    ensures RimTotal(m, c, w, n + 4) ==
            RimTotal(m, c, w, n) + Stores(m, c, w)(Extra(n)) + Stores(m, c, w)(Extra(n + 1)) +
            Stores(m, c, w)(Extra(n + 2)) + Stores(m, c, w)(Extra(n + 3))
  {
    hide Stores;
    assert RimTotal(m, c, w, n + 2) == RimTotal(m, c, w, n) + Stores(m, c, w)(Extra(n)) + Stores(m, c, w)(Extra(n + 1));
  }

  lemma Factored(a: real, x: real, y: real)
    ensures Product(a, x) + Product(a, y) == Pair(a, x, y)
  {
  }

  lemma FactoredTwice(a: real, x: real, y: real, z: real, u: real)
    ensures Product(a, x) + Product(a, y) + Product(a, z) + Product(a, u) == Four(a, x, y, z, u)
  {
  }

  lemma PrimaryTotal(m: Model, c: Caps, w: Temps)
    ensures RimTotal(m, c, w, 12) == PrimaryStores(c, w)
  {
    hide Product, Pair, Four, Stores;
    SpreaderTotal(m, c, w);
    SinkTotal(m, c, w);
  }

  lemma SpreaderTotal(m: Model, c: Caps, w: Temps)
    ensures RimTotal(m, c, w, 4) ==
            Pair(c.cSpPerX, w(Extra(0)), w(Extra(1))) + Pair(c.cSpPerY, w(Extra(2)), w(Extra(3)))
  {
    hide Product, Pair, Four;
    RingTotal(m, c, w, 0);
    Factored(c.cSpPerX, w(Extra(0)), w(Extra(1)));
    Factored(c.cSpPerY, w(Extra(2)), w(Extra(3)));
  }

  lemma SinkTotal(m: Model, c: Caps, w: Temps)
    ensures RimTotal(m, c, w, 12) == RimTotal(m, c, w, 4) +
            Pair(c.cHsCPerX + c.cAmbCPerX, w(Extra(4)), w(Extra(5))) +
            Pair(c.cHsCPerY + c.cAmbCPerY, w(Extra(6)), w(Extra(7))) +
            Four(c.cHsPer + c.cAmbPer, w(Extra(8)), w(Extra(9)), w(Extra(10)), w(Extra(11)))
  {
    hide Product, Pair, Four;
    RingTotal(m, c, w, 4);
    RingTotal(m, c, w, 8);
    Factored(c.cHsCPerX + c.cAmbCPerX, w(Extra(4)), w(Extra(5)));
    Factored(c.cHsCPerY + c.cAmbCPerY, w(Extra(6)), w(Extra(7)));
    FactoredTwice(c.cHsPer + c.cAmbPer, w(Extra(8)), w(Extra(9)), w(Extra(10)), w(Extra(11)));
  }

  lemma SecondaryTotal(m: Model, c: Caps, w: Temps)
    requires m.secondary
    ensures RimTotal(m, c, w, 28) == RimTotal(m, c, w, 12) + SecondaryStores(c, w)
  {
    hide RimTotal;
    SolderTotal(m, c, w);
    BoardTotal(m, c, w);
  }

  lemma SolderTotal(m: Model, c: Caps, w: Temps)
    requires m.secondary
    ensures RimTotal(m, c, w, 20) == RimTotal(m, c, w, 12) +
            Pair(c.cSubPerX, w(Extra(12)), w(Extra(13))) + Pair(c.cSubPerY, w(Extra(14)), w(Extra(15))) +
            Pair(c.cSolderPerX, w(Extra(16)), w(Extra(17))) + Pair(c.cSolderPerY, w(Extra(18)), w(Extra(19)))
  {
    hide Product, Pair, Four;
    RingTotal(m, c, w, 12);
    RingTotal(m, c, w, 16);
    Factored(c.cSubPerX, w(Extra(12)), w(Extra(13)));
    Factored(c.cSubPerY, w(Extra(14)), w(Extra(15)));
    Factored(c.cSolderPerX, w(Extra(16)), w(Extra(17)));
    Factored(c.cSolderPerY, w(Extra(18)), w(Extra(19)));
  }

  lemma BoardTotal(m: Model, c: Caps, w: Temps)
    requires m.secondary
    ensures RimTotal(m, c, w, 28) == RimTotal(m, c, w, 20) +
            Pair(c.cPcbCPerX + c.cAmbSecCPerX, w(Extra(20)), w(Extra(21))) +
            Pair(c.cPcbCPerY + c.cAmbSecCPerY, w(Extra(22)), w(Extra(23))) +
            Four(c.cPcbPer + c.cAmbSecPer, w(Extra(24)), w(Extra(25)), w(Extra(26)), w(Extra(27)))
  {
    hide Product, Pair, Four;
    RingTotal(m, c, w, 20);
    RingTotal(m, c, w, 24);
    Factored(c.cPcbCPerX + c.cAmbSecCPerX, w(Extra(20)), w(Extra(21)));
    Factored(c.cPcbCPerY + c.cAmbSecCPerY, w(Extra(22)), w(Extra(23)));
    FactoredTwice(c.cPcbPer + c.cAmbSecPer, w(Extra(24)), w(Extra(25)), w(Extra(26)), w(Extra(27)));
  }

  /** All that is stored: in the cells, and in the nodes around them with their own capacitances. */
  lemma StoredIs(m: Model, c: Caps, w: Temps, order: seq<Node>)
    requires AllNodes(m, order)
    ensures NodeSum(order, Stores(m, c, w)) ==
            NodeSum(order, CellStores(m, w)) + PrimaryStores(c, w) +
            (if m.secondary then SecondaryStores(c, w) else 0.0)
  {
    hide NodeSum, PrimaryStores, SecondaryStores, RimTotal, RingCapacitance;
    RimSum(m, c, w, order, ExtraCount(m));
    PrimaryTotal(m, c, w);
    if m.secondary {
      SecondaryTotal(m, c, w);
    }
    NodeSumPlus(order, CellStores(m, w), RimStores(m, c, w, ExtraCount(m)), Stores(m, c, w));
  }

  /** What slope_fn_pack leaves out: the flow from the substrate to the solder, which the substrate loses. */
  function LostFlow(m: Model, t: Temps): real {
    Scaled(t(Extra(12)) - t(Extra(16)), m.pack.rSolderPerX) + Scaled(t(Extra(13)) - t(Extra(17)), m.pack.rSolderPerX) +
    Scaled(t(Extra(14)) - t(Extra(18)), m.pack.rSolderPerY) + Scaled(t(Extra(15)) - t(Extra(19)), m.pack.rSolderPerY)
  }

  /** The part of it that is missing at a node. */
  function Missing(m: Model, t: Temps): Temps
    requires Tall(m)
  {
    (x: Node) => if IsNode(m, x) then FromNodes(m, t)(x) - LinkSum(SlopeLinks(m, x), Drop(t, t(x))) else 0.0
  }

  lemma MissingAt(m: Model, t: Temps, x: Node)
    requires Proper(m) && IsNode(m, x)
    ensures Missing(m, t)(x) ==
            if x == Extra(16) then Scaled(t(Extra(12)) - t(x), m.pack.rSolderPerX)
            else if x == Extra(17) then Scaled(t(Extra(13)) - t(x), m.pack.rSolderPerX)
            else if x == Extra(18) then Scaled(t(Extra(14)) - t(x), m.pack.rSolderPerY)
            else if x == Extra(19) then Scaled(t(Extra(15)) - t(x), m.pack.rSolderPerY)
            else 0.0
  {
    hide Missing, Scaled, PrimaryPositive, SecondaryPositive;
    match x
    case Cell(_, _, _) => assert Missing(m, t)(x) == 0.0 by { NotMissing(m, t, x); }
    case Extra(e) =>
      AtRingAndSide(e);
      MissingInRing(m, t, RingOf(e), SideOf(e));
  }

  lemma NotMissing(m: Model, t: Temps, x: Node)
    requires Proper(m) && IsNode(m, x) && x.Cell?
    ensures Missing(m, t)(x) == 0.0
  {
    hide LinkSum, CellLinks, Drop;
    assert Links(m, x) == SlopeLinks(m, x);
  }

  lemma MissingInRing(m: Model, t: Temps, ring: Ring, side: Side)
    requires Proper(m) && Present(m, ring)
    ensures var here := t(Extra(At(ring, side)));
            Missing(m, t)(Extra(At(ring, side))) ==
            if ring.SolderRing? then
              Scaled(t(Extra(At(SubRing, side))) - here, Along(side, m.pack.rSolderPerX, m.pack.rSolderPerY))
            else 0.0
  {
    hide RingCells, OuterLink, LinkSum, Drop, At, RingOf, SideOf, PrimaryPositive, SecondaryPositive;
    RingAndSide(ring, side);
    var f := Drop(t, t(Extra(At(ring, side))));
    RingSum(m, ring, side, f);
    LinkSumConcat(RingCells(m, ring, side), SlopeInner(m, ring, side), f);
    LinkSumConcat(RingCells(m, ring, side) + SlopeInner(m, ring, side), OuterLink(m, ring, side), f);
    if ring.SolderRing? {
      NoTerms(f);
      LinkSumOne(InnerLink(m, ring, side)[0], f);
      DropAt(t, t(Extra(At(ring, side))), InnerLink(m, ring, side)[0]);
    }
  }

  lemma DropAt(t: Temps, here: real, k: Link)
    ensures Drop(t, here)(k) == Scaled(t(k.to) - here, k.r)
  {
  }

  lemma MissingSum(m: Model, t: Temps, order: seq<Node>)
    requires Proper(m) && AllNodes(m, order)
    ensures NodeSum(order, Missing(m, t)) == if m.secondary then LostFlow(m, t) else 0.0
  {
    hide NodeSum, Missing, Scaled, PrimaryPositive, SecondaryPositive;
    forall x | x in order
      ensures IsNode(m, x) && (m.secondary || x !in [Extra(16), Extra(17), Extra(18), Extra(19)])
    {
    }
    if !m.secondary {
      forall x | x in order
        ensures Missing(m, t)(x) == 0.0
      {
        MissingAt(m, t, x);
      }
      NodeSumZero(order, Missing(m, t));
    } else {
      var a := Only(Extra(16), Scaled(t(Extra(12)) - t(Extra(16)), m.pack.rSolderPerX));
      var b := Only(Extra(17), Scaled(t(Extra(13)) - t(Extra(17)), m.pack.rSolderPerX));
      var c := Only(Extra(18), Scaled(t(Extra(14)) - t(Extra(18)), m.pack.rSolderPerY));
      var d := Only(Extra(19), Scaled(t(Extra(15)) - t(Extra(19)), m.pack.rSolderPerY));
      NodeSumOnly(order, Extra(16), Scaled(t(Extra(12)) - t(Extra(16)), m.pack.rSolderPerX));
      NodeSumOnly(order, Extra(17), Scaled(t(Extra(13)) - t(Extra(17)), m.pack.rSolderPerX));
      NodeSumOnly(order, Extra(18), Scaled(t(Extra(14)) - t(Extra(18)), m.pack.rSolderPerY));
      NodeSumOnly(order, Extra(19), Scaled(t(Extra(15)) - t(Extra(19)), m.pack.rSolderPerY));
      var ab, abc := Plus(a, b), Plus(Plus(a, b), c);
      NodeSumPlus(order, a, b, ab);
      NodeSumPlus(order, ab, c, abc);
      forall x | x in order
        ensures Missing(m, t)(x) == abc(x) + d(x)
      {
        MissingAt(m, t, x);
      }
      NodeSumPlus(order, abc, d, Missing(m, t));
    }
  }

  function Plus(f: Temps, g: Temps): Temps {
    (x: Node) => f(x) + g(x)
  }

  function Minus(f: Temps, g: Temps): Temps {
    (x: Node) => f(x) - g(x)
  }

  /** At one node: what its capacitance stores is what slope_fn_grid counts. */
  lemma StoredAt(m: Model, c: Caps, p: Temps, t: Temps, x: Node)
    requires Proper(m) && Capacious(m, c) && IsNode(m, x)
    ensures Stores(m, c, Slopes(m, c, p, t))(x) == p(x) - ToAmbient(m, t)(x) + FromNodes(m, t)(x) - Missing(m, t)(x)
  {
    hide LinkSum, Links, SlopeLinks, Drop, Amb, Capacitance;
    assert Capacitance(m, c, x) > 0.0;
    var all := p(x) + (FromAmbient(m, x, t(x)) + LinkSum(SlopeLinks(m, x), Drop(t, t(x))));
    TimesQuotient(Capacitance(m, c, x), all);
    Opposite(Amb(m, x), m.ambient, t(x));
  }

  lemma TimesQuotient(c: real, a: real)
    requires c > 0.0
    ensures Product(c, a / c) == a
  {
  }

  /** The balance of heat of the transient grid model: what the capacitances of cells, spreader, sink,
      substrate, solder and board store is the power, less what goes to ambient, and with the secondary path
      less the flow that is left out. */
  lemma HeatStored(m: Model, c: Caps, p: Temps, t: Temps, order: seq<Node>)
    requires Proper(m) && Capacious(m, c) && AllNodes(m, order)
    ensures var w := Slopes(m, c, p, t);
            NodeSum(order, CellStores(m, w)) + PrimaryStores(c, w) +
            (if m.secondary then SecondaryStores(c, w) else 0.0) ==
            NodeSum(order, p) - NodeSum(order, ToAmbient(m, t)) - (if m.secondary then LostFlow(m, t) else 0.0)
  {
    hide NodeSum, Stores, Missing, FromNodes, ToAmbient, Slopes, CellStores, PrimaryStores, SecondaryStores, LostFlow;
    var w := Slopes(m, c, p, t);
    StoredIs(m, c, w, order);
    NothingLost(m, t, order);
    MissingSum(m, t, order);
    var net := Minus(p, ToAmbient(m, t));
    var gross := Plus(net, FromNodes(m, t));
    NodeSumPlus(order, net, ToAmbient(m, t), p);
    NodeSumPlus(order, net, FromNodes(m, t), gross);
    forall x | x in order
      ensures gross(x) == Stores(m, c, w)(x) + Missing(m, t)(x)
    {
      StoredAt(m, c, p, t, x);
    }
    NodeSumPlus(order, Stores(m, c, w), Missing(m, t), gross);
  }
}
