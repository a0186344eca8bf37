/** Sweeps over the nodes of the grid network, one node after the other, each set to what balances
    it against its neighbours as they are then (HotSpot/temperature_grid.c). */
module GaussSeidel {
  import opened Numbers
  import opened GridNetwork

  function Put(t: Temps, x: Node, v: real): Temps {
    y => if y == x then v else t(y)
  }

  /** The temperature that balances a node. */
  ghost function Update(m: Model, p: Temps, t: Temps, x: Node): real
    requires Proper(m) && IsNode(m, x)
  {
    CSumPositive(m, x);
    (p(x) + WSum(m, t, x)) / CSum(m, x)
  }

  ghost predicate Nodes(m: Model, order: seq<Node>) {
    (forall k | 0 <= k < |order| :: IsNode(m, order[k])) && forall a, b | 0 <= a < b < |order| :: order[a] != order[b]
  }

  /** The temperatures after the first k nodes of a sweep. */
  ghost function Swept(m: Model, p: Temps, t: Temps, order: seq<Node>, k: nat): Temps
    requires Proper(m) && Nodes(m, order) && k <= |order|
  {
    if k == 0 then t
    else
      var before := Swept(m, p, t, order, k - 1);
      Put(before, order[k - 1], Update(m, p, before, order[k - 1]))
  }

  ghost predicate SameTemps(t: Temps, u: Temps) {
    forall y :: t(y) == u(y)
  }

  lemma UpdateSame(m: Model, p: Temps, t: Temps, u: Temps, x: Node)
    requires Proper(m) && IsNode(m, x) && SameTemps(t, u)
    ensures Update(m, p, t, x) == Update(m, p, u, x)
  {
    hide Links, Amb, CSum;
    forall k | k in Links(m, x)
      ensures Flow(t)(k) == Flow(u)(k)
    {
      assert t(k.to) == u(k.to);
    }
    LinkSumSame(Links(m, x), Flow(t), Flow(u));
  }

  // ----- fixed points -----

  /** An update leaves a node as it is exactly if the node is balanced. */
  lemma UpdateKeeps(m: Model, p: Temps, t: Temps, x: Node)
    requires Proper(m) && IsNode(m, x)
    ensures Update(m, p, t, x) == t(x) <==> Balanced(m, p, t, x)
  {
    hide CSum, WSum, PrimaryPositive, SecondaryPositive;
    CSumPositive(m, x);
    QuotientBalance(p(x), WSum(m, t, x), CSum(m, x), t(x));
  }

  lemma QuotientBalance(p: real, w: real, c: real, v: real)
    requires c > 0.0
    ensures (p + w) / c == v <==> c * v - w == p
  {
    Quotient(p + w, c, v);
  }

  lemma Quotient(a: real, c: real, v: real)
    requires c > 0.0
    ensures a / c == v <==> c * v == a
  {
    assert a / c * c == a;
    assert v != a / c ==> (v - a / c) * c != 0.0;
  }

  ghost predicate AllBalanced(m: Model, p: Temps, t: Temps, order: seq<Node>, k: nat)
    requires Proper(m) && Nodes(m, order) && k <= |order|
  {
    forall n | 0 <= n < k :: Balanced(m, p, t, order[n])
  }

  /** A sweep passes a node once: later updates do not touch it again. */
  lemma {:induction false} SettledEarly(m: Model, p: Temps, t: Temps, order: seq<Node>, k: nat, n: nat)
    requires Proper(m) && Nodes(m, order) && n < k <= |order|
    ensures Swept(m, p, t, order, k)(order[n]) == Update(m, p, Swept(m, p, t, order, n), order[n])
    decreases k
  {
    hide Update;
    if n < k - 1 {
      SettledEarly(m, p, t, order, k - 1, n);
    }
  }

  /** A sweep leaves the temperatures as they are exactly if every node that it visits is balanced. */
  lemma {:induction false} FixedIffBalanced(m: Model, p: Temps, t: Temps, order: seq<Node>, k: nat)
    requires Proper(m) && Nodes(m, order) && k <= |order|
    ensures SameTemps(Swept(m, p, t, order, k), t) <==> AllBalanced(m, p, t, order, k)
  {
    hide Update, Balanced;
    if k > 0 {
      var n := k - 1;
      var before, x := Swept(m, p, t, order, n), order[n];
      FixedIffBalanced(m, p, t, order, n);
      UpdateKeeps(m, p, t, x);
      if SameTemps(before, t) {
        UpdateSame(m, p, before, t, x);
      } else if SameTemps(Swept(m, p, t, order, k), t) {
        FixedBefore(m, p, t, order, n);
      }
    }
  }

  /** If the sweep as a whole changes nothing, nor does any part of it. */
  lemma FixedBefore(m: Model, p: Temps, t: Temps, order: seq<Node>, n: nat)
    requires Proper(m) && Nodes(m, order) && n < |order| && SameTemps(Swept(m, p, t, order, n + 1), t)
    ensures SameTemps(Swept(m, p, t, order, n), t)
  {
    hide Update;
    var before, x := Swept(m, p, t, order, n), order[n];
    NotYetVisited(m, p, t, order, n, n);
    forall y
      ensures before(y) == t(y)
    {
      if y != x {
        assert Swept(m, p, t, order, n + 1)(y) == before(y);
      }
    }
  }

  lemma {:induction false} NotYetVisited(m: Model, p: Temps, t: Temps, order: seq<Node>, k: nat, n: nat)
    requires Proper(m) && Nodes(m, order) && k <= n < |order|
    ensures Swept(m, p, t, order, k)(order[n]) == t(order[n])
  {
    hide Update;
    if k > 0 {
      NotYetVisited(m, p, t, order, k - 1, n);
    }
  }

  // ----- order -----

  ghost predicate NoWarmer(m: Model, t: Temps, u: Temps) {
    forall y | IsNode(m, y) :: t(y) <= u(y)
  }

  lemma UpdateMonotone(m: Model, p: Temps, t: Temps, u: Temps, x: Node)
    requires Proper(m) && IsNode(m, x) && NoWarmer(m, t, u)
    ensures Update(m, p, t, x) <= Update(m, p, u, x)
  {
    hide Links, Amb, CSum;
    CSumPositive(m, x);
    LinksGood(m, x);
    forall k | k in Links(m, x)
      ensures Flow(t)(k) <= Flow(u)(k)
    {
      assert t(k.to) <= u(k.to) && Inverse(k.r) > 0.0;
    }
    LinkSumOrdered(Links(m, x), Flow(t), Flow(u));
    QuotientOrdered(p(x) + WSum(m, t, x), p(x) + WSum(m, u, x), CSum(m, x));
  }

  lemma QuotientOrdered(a: real, b: real, c: real)
    requires c > 0.0 && a <= b
    ensures a / c <= b / c
  {
  }

  /** A sweep keeps the order of two temperature vectors. */
  lemma {:induction false} SweepMonotone(m: Model, p: Temps, t: Temps, u: Temps, order: seq<Node>, k: nat)
    requires Proper(m) && Nodes(m, order) && k <= |order| && NoWarmer(m, t, u)
    ensures NoWarmer(m, Swept(m, p, t, order, k), Swept(m, p, u, order, k))
  {
    hide Update;
    if k > 0 {
      SweepMonotone(m, p, t, u, order, k - 1);
      UpdateMonotone(m, p, Swept(m, p, t, order, k - 1), Swept(m, p, u, order, k - 1), order[k - 1]);
    }
  }

  function AllAt(v: real): Temps {
    _ => v
  }

  const NoPower: Temps := _ => 0.0

  /** With nothing but ambient around it, and no power, a node is at ambient. */
  lemma AmbientBalanced(m: Model, x: Node)
    requires Proper(m) && IsNode(m, x)
    ensures Balanced(m, NoPower, AllAt(m.ambient), x)
  {
    hide Links, Amb;
    forall k | k in Links(m, x)
      ensures Flow(AllAt(m.ambient))(k) == m.ambient * Conductance(k)
    {
      assert AllAt(m.ambient)(k.to) == m.ambient;
    }
    LinkSumTimes(Links(m, x), m.ambient, Conductance, Flow(AllAt(m.ambient)));
    Distribute(m.ambient, Amb(m, x), LinkSum(Links(m, x), Conductance));
  }

  lemma Distribute(v: real, a: real, b: real)
    ensures (a + b) * v == v * a + v * b
  {
  }

  lemma UpdateAboveAmbient(m: Model, p: Temps, t: Temps, x: Node)
    requires Proper(m) && IsNode(m, x) && p(x) >= 0.0 && NoWarmer(m, AllAt(m.ambient), t)
    ensures Update(m, p, t, x) >= m.ambient
  {
    hide PrimaryPositive, SecondaryPositive, Links, Amb;
    AmbientBalanced(m, x);
    UpdateKeeps(m, NoPower, AllAt(m.ambient), x);
    UpdateMonotone(m, NoPower, AllAt(m.ambient), t, x);
    CSumPositive(m, x);
    hide CSum, WSum, Balanced;
    QuotientOrdered(WSum(m, t, x), p(x) + WSum(m, t, x), CSum(m, x));
  }

  lemma {:induction false} SweepAboveAmbient(m: Model, p: Temps, t: Temps, order: seq<Node>, k: nat)
    requires Proper(m) && Nodes(m, order) && k <= |order| && NoWarmer(m, AllAt(m.ambient), t)
    requires forall x | IsNode(m, x) :: p(x) >= 0.0
    ensures NoWarmer(m, AllAt(m.ambient), Swept(m, p, t, order, k))
  {
    hide Update;
    if k > 0 {
      SweepAboveAmbient(m, p, t, order, k - 1);
      UpdateAboveAmbient(m, p, Swept(m, p, t, order, k - 1), order[k - 1]);
    }
  }

  /** So many sweeps, one after the other. */
  ghost function Sweeps(m: Model, p: Temps, t: Temps, order: seq<Node>, times: nat): Temps
    requires Proper(m) && Nodes(m, order)
  {
    if times == 0 then t else Swept(m, p, Sweeps(m, p, t, order, times - 1), order, |order|)
  }

  /** Starting nowhere below ambient, and with no node cooled, no number of sweeps goes below. */
  lemma {:induction false} NeverBelowAmbient(m: Model, p: Temps, t: Temps, order: seq<Node>, times: nat)
    requires Proper(m) && Nodes(m, order) && NoWarmer(m, AllAt(m.ambient), t)
    requires forall x | IsNode(m, x) :: p(x) >= 0.0
    ensures NoWarmer(m, AllAt(m.ambient), Sweeps(m, p, t, order, times))
  {
    if times > 0 {
      NeverBelowAmbient(m, p, t, order, times - 1);
      SweepAboveAmbient(m, p, Sweeps(m, p, t, order, times - 1), order, |order|);
    }
  }

  // ----- how far from the steady state a sweep can leave a node -----

  function Distance(a: real, b: real): real {
    Abs(a - b)
  }

  function Leaving(c: real, v: real): real {
    c * v
  }

  /** What is missing to the balance of a node. */
  ghost function Residual(m: Model, p: Temps, t: Temps, x: Node): real
    requires Tall(m) && IsNode(m, x)
  {
    Leaving(CSum(m, x), t(x)) - WSum(m, t, x) - p(x)
  }

  /** No temperature differs by more. */
  ghost predicate Near(t: Temps, u: Temps, max: real) {
    forall y :: Distance(t(y), u(y)) <= max
  }

  lemma {:induction false} Unvisited(m: Model, p: Temps, t: Temps, order: seq<Node>, k: nat, y: Node)
    requires Proper(m) && Nodes(m, order) && k <= |order| && y !in order
    ensures Swept(m, p, t, order, k)(y) == t(y)
  {
    hide Update;
    if k > 0 {
      Unvisited(m, p, t, order, k - 1, y);
    }
  }

  /** When a node is updated, its neighbours have their final temperatures or still the initial ones. */
  lemma BeforeOrAfter(m: Model, p: Temps, t: Temps, order: seq<Node>, n: nat, y: Node, max: real)
    requires Proper(m) && Nodes(m, order) && n < |order| && Near(Swept(m, p, t, order, |order|), t, max) && max >= 0.0
    ensures Distance(Swept(m, p, t, order, n)(y), Swept(m, p, t, order, |order|)(y)) <= max
  {
    hide Update;
    if y !in order {
      Unvisited(m, p, t, order, n, y);
    } else {
      var q :| 0 <= q < |order| && order[q] == y;
      if q < n {
        SettledEarly(m, p, t, order, n, q);
        SettledEarly(m, p, t, order, |order|, q);
      } else {
        NotYetVisited(m, p, t, order, n, q);
      }
    }
  }

  /** A tolerance for each conductance. */
  function Allow(max: real, c: real): real {
    max * c
  }

  lemma {:induction false} FlowsClose(links: seq<Link>, t: Temps, u: Temps, max: real)
    requires forall k | k in links :: Distance(t(k.to), u(k.to)) <= max
    ensures Distance(LinkSum(links, Flow(t)), LinkSum(links, Flow(u))) <= Allow(max, LinkSum(links, Conductance))
  {
    hide Inverse, Scaled, Distance, Allow;
    if links == [] {
      NothingApart(max);
    } else {
      var k, rest := links[|links| - 1], links[..|links| - 1];
      FlowsClose(rest, t, u, max);
      assert Distance(t(k.to), u(k.to)) <= max;
      TermClose(t(k.to), u(k.to), k.r, max);
      SumsClose(LinkSum(rest, Flow(t)), LinkSum(rest, Flow(u)), Flow(t)(k), Flow(u)(k), max, LinkSum(rest, Conductance),
                Conductance(k));
    }
  }

  lemma NothingApart(max: real)
    ensures Distance(0.0, 0.0) <= Allow(max, 0.0)
  {
  }

  lemma SumsClose(a: real, b: real, c: real, d: real, max: real, g: real, h: real)
    requires Distance(a, b) <= Allow(max, g) && Distance(c, d) <= Allow(max, h)
    ensures Distance(a + c, b + d) <= Allow(max, g + h)
  {
    assert max * (g + h) == max * g + max * h;
  }

  lemma TermClose(a: real, b: real, r: real, max: real)
    requires Distance(a, b) <= max
    ensures Distance(Scaled(a, r), Scaled(b, r)) <= Allow(max, Inverse(r))
  {
    var g := Inverse(r);
    assert g >= 0.0;
    hide Inverse;
    assert a * g - b * g == (a - b) * g;
    TimesOrdered(a - b, max, g);
    TimesOrdered(b - a, max, g);
  }

  lemma TimesOrdered(a: real, b: real, g: real)
    requires a <= b && g >= 0.0
    ensures a * g <= b * g
  {
  }

  lemma NeighboursClose(m: Model, p: Temps, t: Temps, order: seq<Node>, n: nat, x: Node, max: real)
    requires Proper(m) && Nodes(m, order) && n < |order| && max >= 0.0 && Near(Swept(m, p, t, order, |order|), t, max)
    requires IsNode(m, x)
    ensures var u, before := Swept(m, p, t, order, |order|), Swept(m, p, t, order, n);
            Distance(LinkSum(Links(m, x), Flow(before)), LinkSum(Links(m, x), Flow(u))) <=
            Allow(max, LinkSum(Links(m, x), Conductance))
  {
    hide Links, Swept, Near, LinkSum, Nodes, Proper, Distance, Allow, Flow;
    var u, before := Swept(m, p, t, order, |order|), Swept(m, p, t, order, n);
    forall y
      ensures Distance(before(y), u(y)) <= max
    {
      BeforeOrAfter(m, p, t, order, n, y, max);
    }
    LinksTall(m);
    FlowsClose(Links(m, x), before, u, max);
  }

  lemma LinksTall(m: Model)
    requires Proper(m)
    ensures Tall(m)
  {
  }

  /** After a sweep that changes no temperature by more than max, every node that was visited is in
      balance up to max for each of its links: only the neighbours updated after it have moved. */
  lemma SweepResidual(m: Model, p: Temps, t: Temps, order: seq<Node>, n: nat, max: real)
    requires Proper(m) && Nodes(m, order) && n < |order| && max >= 0.0 && Near(Swept(m, p, t, order, |order|), t, max)
    ensures var x, u := order[n], Swept(m, p, t, order, |order|);
            Distance(Residual(m, p, u, x), 0.0) <= Allow(max, CSum(m, x) - Amb(m, x))
  {
    var x, u, before := order[n], Swept(m, p, t, order, |order|), Swept(m, p, t, order, n);
    hide Links, Amb, Swept, Update, Near, LinkSum, Residual, PrimaryPositive, SecondaryPositive, Distance, Allow, Flow;
    SettledEarly(m, p, t, order, |order|, n);
    NeighboursClose(m, p, t, order, n, x, max);
    UpdateLeaves(m, p, before, u, x);
    OtherWay(LinkSum(Links(m, x), Flow(before)), LinkSum(Links(m, x), Flow(u)));
  }

  lemma OtherWay(a: real, b: real)
    ensures Distance(a - b, 0.0) == Distance(a, b)
  {
  }

  /** What an update made at other temperatures leaves to the balance. */
  lemma UpdateLeaves(m: Model, p: Temps, before: Temps, u: Temps, x: Node)
    requires Proper(m) && IsNode(m, x) && u(x) == Update(m, p, before, x)
    ensures Residual(m, p, u, x) == LinkSum(Links(m, x), Flow(before)) - LinkSum(Links(m, x), Flow(u))
  {
    hide Links;
    CSumPositive(m, x);
    hide Links, Amb, LinkSum, PrimaryPositive, SecondaryPositive, Scaled, AmbFlow, CSum, Flow, Leaving;
    var c, v, a, f, g := CSum(m, x), u(x), AmbFlow(m, x), LinkSum(Links(m, x), Flow(before)),
      LinkSum(Links(m, x), Flow(u));
    assert v == (p(x) + (a + f)) / c;
    QuotientLeaves(p(x), a, f, g, c, v);
  }

  lemma QuotientLeaves(p: real, a: real, f: real, g: real, c: real, v: real)
    requires c > 0.0 && v == (p + (a + f)) / c
    ensures Leaving(c, v) - (a + g) - p == f - g
  {
    Quotient(p + (a + f), c, v);
  }

  // ----- sweeping in place -----

  /** max is the largest change of a temperature. */
  ghost predicate LargestChange(now: Temps, start: Temps, max: real) {
    max >= 0.0 && Near(now, start, max) && (max == 0.0 || exists y :: Distance(now(y), start(y)) == max)
  }

  /** The vector is that of the sweep over these nodes, and max is the largest change in it. */
  ghost predicate Progress(m: Model, p: Temps, start: Temps, order: seq<Node>, now: Temps, max: real)
    requires Proper(m)
  {
    Nodes(m, order) && SameTemps(now, Swept(m, p, start, order, |order|)) && LargestChange(now, start, max)
  }

  lemma NoChange(now: Temps, start: Temps, max: real)
    requires LargestChange(now, start, max)
    ensures max == 0.0 <==> SameTemps(now, start)
  {
    if max == 0.0 {
      forall y
        ensures now(y) == start(y)
      {
        assert Distance(now(y), start(y)) <= max;
      }
    }
  }

  lemma ProgressStarts(m: Model, p: Temps, start: Temps)
    requires Proper(m)
    ensures Progress(m, p, start, [], start, 0.0)
  {
  }

  lemma {:induction false} SweptPrefix(m: Model, p: Temps, t: Temps, order: seq<Node>, more: seq<Node>, k: nat)
    requires Proper(m) && Nodes(m, order) && Nodes(m, order + more) && k <= |order|
    ensures Swept(m, p, t, order + more, k) == Swept(m, p, t, order, k)
  {
    hide Update;
    if k > 0 {
      SweptPrefix(m, p, t, order, more, k - 1);
      assert (order + more)[k - 1] == order[k - 1];
    }
  }

  lemma LargerChange(start: Temps, now: Temps, max: real, x: Node, v: real, next: Temps)
    requires LargestChange(now, start, max) && now(x) == start(x) && SameTemps(next, Put(now, x, v))
    ensures LargestChange(next, start, Max(Distance(v, now(x)), max))
  {
    assert next(x) == v;
    if Distance(v, now(x)) <= max && max != 0.0 {
      var y :| Distance(now(y), start(y)) == max;
      assert y != x && next(y) == now(y);
    }
  }

  /** One more node of the sweep. */
  lemma ProgressStep(m: Model, p: Temps, start: Temps, order: seq<Node>, now: Temps, max: real, x: Node, next: Temps,
                     max': real)
    requires Proper(m) && IsNode(m, x) && Progress(m, p, start, order, now, max) && Nodes(m, order + [x])
    requires SameTemps(next, Put(now, x, Update(m, p, now, x)))
    requires max' == Max(Distance(Update(m, p, now, x), now(x)), max)
    ensures Progress(m, p, start, order + [x], next, max')
  {
    hide Update, LargestChange;
    var k := |order|;
    var all := order + [x];
    SweptPrefix(m, p, start, order, [x], k);
    var before := Swept(m, p, start, all, k);
    UpdateSame(m, p, now, before, x);
    assert Swept(m, p, start, all, k + 1) == Put(before, x, Update(m, p, before, x));
    NotYetVisited(m, p, start, all, k, k);
    LargerChange(start, now, max, x, Update(m, p, now, x), next);
  }

  /** A whole sweep, over all the nodes, changes nothing exactly in the steady state; and if it changes
      little, it leaves every node close to balance. */
  lemma WholeSweep(m: Model, p: Temps, start: Temps, order: seq<Node>, now: Temps, max: real)
    requires Proper(m) && Progress(m, p, start, order, now, max) && forall x | IsNode(m, x) :: x in order
    ensures max == 0.0 <==> SameTemps(now, start)
    ensures max == 0.0 <==> forall x | IsNode(m, x) :: Balanced(m, p, start, x)
    ensures forall x | IsNode(m, x) :: Distance(Residual(m, p, now, x), 0.0) <= Allow(max, CSum(m, x) - Amb(m, x))
  {
    hide Update, Balanced, Residual, CSum, Amb, Allow, Distance, PrimaryPositive, SecondaryPositive;
    NoChange(now, start, max);
    FixedIffBalanced(m, p, start, order, |order|);
    if AllBalanced(m, p, start, order, |order|) {
      forall x | IsNode(m, x)
        ensures Balanced(m, p, start, x)
      {
        var n :| 0 <= n < |order| && order[n] == x;
      }
    }
    forall x | IsNode(m, x)
      ensures Distance(Residual(m, p, now, x), 0.0) <= Allow(max, CSum(m, x) - Amb(m, x))
    {
      var n :| 0 <= n < |order| && order[n] == x;
      SweepResidual(m, p, start, order, n, max);
      ResidualSame(m, p, now, Swept(m, p, start, order, |order|), x);
    }
  }

  lemma ResidualSame(m: Model, p: Temps, t: Temps, u: Temps, x: Node)
    requires Proper(m) && IsNode(m, x) && SameTemps(t, u)
    ensures Residual(m, p, t, x) == Residual(m, p, u, x)
  {
    hide Links, Amb, CSum, PrimaryPositive, SecondaryPositive;
    forall k | k in Links(m, x)
      ensures Flow(t)(k) == Flow(u)(k)
    {
      assert t(k.to) == u(k.to);
    }
    LinkSumSame(Links(m, x), Flow(t), Flow(u));
  }
}
