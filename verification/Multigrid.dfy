/** The nested iteration of the steady-state grid solver (recursive_multigrid,
    HotSpot/temperature_grid.c): solve on half the rows and columns first, and start from that. */
module Multigrid {
  import opened Numbers
  import opened GridNetwork
  import opened GaussSeidel
  import opened GridSweep
  import opened GridTransfer
  import opened GridGuess
  import opened GridSides

  predicate PowerOfTwo(n: nat) {
    n == 1 || (n > 1 && n % 2 == 0 && PowerOfTwo(n / 2))
  }

  // ----- a coarser grid -----

  /** The resistance between layers and the capacitance of a cell of four times the area. */
  function Larger(k: Layer, cReady: bool): Layer {
    k.(rz := k.rz / 4.0, c := if cReady then k.c * 4.0 else k.c)
  }

  function Smaller(k: Layer, cReady: bool): Layer {
    k.(rz := k.rz * 4.0, c := if cReady then k.c / 4.0 else k.c)
  }

  function LargerLayers(s: seq<Layer>, cReady: bool): (r: seq<Layer>)
    ensures |r| == |s| && forall n | 0 <= n < |s| :: r[n] == Larger(s[n], cReady)
  {
    seq(|s|, n requires 0 <= n < |s| => Larger(s[n], cReady))
  }

  function Halved(m: Model, cReady: bool): Model {
    m.(layers := LargerLayers(m.layers, cReady), nr := m.nr / 2, nc := m.nc / 2)
  }

  /** A sum over the four fine cells of a coarse cell. */
  function FourSum(f: (int, int) -> real, i: int, j: int): real {
    f(2 * i, 2 * j) + f(2 * i + 1, 2 * j) + f(2 * i, 2 * j + 1) + f(2 * i + 1, 2 * j + 1)
  }

  /** A coarse cell has to the layer below, and to ambient, the conductances of its four fine cells together, and
      it stores as much heat. */
  lemma CoarseCell(m: Model, cReady: bool, l: nat, i: nat, j: nat)
    requires Proper(m) && m.nr % 2 == 0 && m.nc % 2 == 0 && IsNode(Halved(m, cReady), Cell(l, i, j))
    ensures var h := Halved(m, cReady);
            LinkSum(Below(h, l, i, j), Conductance) == FourSum((p, q) => LinkSum(Below(m, l, p, q), Conductance), i, j)
    ensures var h := Halved(m, cReady);
            Amb(h, Cell(l, i, j)) == 4.0 * Amb(m, Cell(l, 2 * i, 2 * j))
    ensures cReady ==> Halved(m, cReady).layers[l].c == 4.0 * m.layers[l].c
  {
    HalvedProper(m, cReady);
    CoarseBelow(m, cReady, l, i, j);
    hide LinkSum, Below;
    if m.secondary && l == LAYER_PCB {
      CoarseBoard(m, cReady, i, j);
    }
  }

  lemma CoarseBelow(m: Model, cReady: bool, l: nat, i: nat, j: nat)
    requires Proper(m) && m.nr % 2 == 0 && m.nc % 2 == 0 && IsNode(Halved(m, cReady), Cell(l, i, j))
    ensures var h := Halved(m, cReady);
            LinkSum(Below(h, l, i, j), Conductance) == FourSum((p, q) => LinkSum(Below(m, l, p, q), Conductance), i, j)
  {
    hide PrimaryPositive, SecondaryPositive, LinkSum;
    var h, there := Halved(m, cReady), l < |m.layers| - 1;
    OptionalSum(Below(h, l, i, j), there, Link(Cell(l + 1, i, j), h.layers[l].rz), Conductance);
    forall p: int, q: int
      ensures LinkSum(Below(m, l, p, q), Conductance) == if there then Inverse(m.layers[l].rz) else 0.0
    {
      OptionalSum(Below(m, l, p, q), there, Link(Cell(l + 1, p, q), m.layers[l].rz), Conductance);
    }
  }

  lemma CoarseBoard(m: Model, cReady: bool, i: nat, j: nat)
    requires Proper(m) && m.nr % 2 == 0 && m.nc % 2 == 0 && m.secondary && 2 * i + 1 < m.nr && 2 * j + 1 < m.nc
    ensures Proper(Halved(m, cReady))
    ensures Amb(Halved(m, cReady), Cell(LAYER_PCB, i, j)) == 4.0 * Amb(m, Cell(LAYER_PCB, 2 * i, 2 * j))
  {
    hide Amb, PrimaryPositive, SecondaryPositive;
    HalvedProper(m, cReady);
    var h := Halved(m, cReady);
    BoardTogether(m, 2 * i, 2 * j);
    BoardTogether(h, i, j);
    var a, b := Amb(m, Cell(LAYER_PCB, 2 * i, 2 * j)), Amb(h, Cell(LAYER_PCB, i, j));
    var cells := h.nr * h.nc;
    assert m.nr * m.nc == 4 * cells;
    assert cells > 0;
    assert cells as real * b == (4 * cells) as real * a;
    assert cells as real * (b - 4.0 * a) == 0.0;
  }

  lemma HalvedProper(m: Model, cReady: bool)
    requires Proper(m) && m.nr >= 2 && m.nc >= 2
    ensures Proper(Halved(m, cReady))
  {
  }

  ghost predicate SameShape(f: Model, g: Model) {
    |f.layers| == |g.layers| && f.nr == g.nr && f.nc == g.nc && f.secondary == g.secondary
  }

  lemma HalvedShape(m: Model, cReady: bool)
    requires m.nr % 2 == 0 && m.nc % 2 == 0
    ensures SameShape(Doubled(Halved(m, cReady)), m)
  {
  }

  /** The vector of a grid depends on nothing else of the model. */
  lemma ShapeIsAll(f: Model, g: Model, v: seq<real>, x: Node)
    requires SameShape(f, g)
    ensures Size(f) == Size(g) && IsNode(f, x) == IsNode(g, x) && TempOf(f, v)(x) == TempOf(g, v)(x)
  {
  }

  // ----- nothing cooled, nothing below ambient -----

  ghost predicate Heated(m: Model, p: seq<real>) {
    forall x | IsNode(m, x) :: TempOf(m, p)(x) >= 0.0
  }

  ghost predicate Warm(m: Model, v: seq<real>) {
    NoWarmer(m, AllAt(m.ambient), TempOf(m, v))
  }

  lemma RestrictedHeated(m: Model, cReady: bool, p: seq<real>, coarse: seq<real>)
    requires Proper(m) && m.nr % 2 == 0 && m.nc % 2 == 0 && Heated(m, p)
    requires var h := Halved(m, cReady);
             forall x | IsNode(h, x) :: TempOf(h, coarse)(x) == Restricted(TempOf(Doubled(h), p))(x)
    ensures Heated(Halved(m, cReady), coarse)
  {
    hide TempOf, Restricted;
    var h := Halved(m, cReady);
    forall x | IsNode(h, x)
      ensures TempOf(h, coarse)(x) >= 0.0
    {
      RestrictedIs(TempOf(Doubled(h), p), x);
      match x
      case Cell(l, i, j) =>
        FineWarm(m, cReady, p, Cell(l, 2 * i, 2 * j));
        FineWarm(m, cReady, p, Cell(l, 2 * i + 1, 2 * j));
        FineWarm(m, cReady, p, Cell(l, 2 * i, 2 * j + 1));
        FineWarm(m, cReady, p, Cell(l, 2 * i + 1, 2 * j + 1));
      case Extra(_) =>
        FineWarm(m, cReady, p, x);
    }
  }

  lemma RestrictedIs(t: Temps, x: Node)
    ensures Restricted(t)(x) == if x.Cell? then FourOf(t, x.l, x.i, x.j) else t(x)
  {
  }

  lemma FineWarm(m: Model, cReady: bool, p: seq<real>, x: Node)
    requires Proper(m) && m.nr % 2 == 0 && m.nc % 2 == 0 && Heated(m, p) && IsNode(m, x)
    ensures TempOf(Doubled(Halved(m, cReady)), p)(x) >= 0.0
  {
    hide TempOf;
    HalvedShape(m, cReady);
    ShapeIsAll(Doubled(Halved(m, cReady)), m, p, x);
  }

  lemma ProlongedWarm(m: Model, cReady: bool, v: seq<real>, coarse: seq<real>)
    requires Proper(m) && m.nr % 2 == 0 && m.nc % 2 == 0 && Warm(Halved(m, cReady), coarse)
    requires var h := Halved(m, cReady);
             forall x | IsNode(Doubled(h), x) :: TempOf(Doubled(h), v)(x) == Prolonged(h, TempOf(h, coarse))(x)
    ensures Warm(m, v)
  {
    hide TempOf, Prolonged;
    var h := Halved(m, cReady);
    HalvedShape(m, cReady);
    forall x | IsNode(m, x)
      ensures m.ambient <= TempOf(m, v)(x)
    {
      ShapeIsAll(Doubled(h), m, v, x);
      forall y | IsNode(h, y)
        ensures h.ambient <= TempOf(h, coarse)(y)
      {
        assert AllAt(h.ambient)(y) <= TempOf(h, coarse)(y);
      }
      ProlongedBetween(h, TempOf(h, coarse), h.ambient, h.ambient, x);
    }
  }

  // ----- the loop until hardly anything changes -----

  ghost predicate Steady(m: Model, p: seq<real>, v: seq<real>)
    requires Tall(m)
  {
    forall x | IsNode(m, x) :: Balanced(m, PowerOf(m, p), TempOf(m, v), x)
  }

  /** Every node is in balance up to delta for each of its links. */
  ghost predicate NearlySteady(m: Model, p: seq<real>, v: seq<real>, delta: real)
    requires Tall(m)
  {
    forall x | IsNode(m, x) ::
      Distance(Residual(m, PowerOf(m, p), TempOf(m, v), x), 0.0) <= Allow(delta, CSum(m, x) - Amb(m, x))
  }

  /** With no change at all the balance is exact. */
  lemma NearlyIsSteady(m: Model, p: seq<real>, v: seq<real>)
    requires Proper(m) && NearlySteady(m, p, v, 0.0)
    ensures Steady(m, p, v)
  {
    hide PowerOf, TempOf, CSum, Amb, Residual, Balanced, Distance, Allow, PrimaryPositive, SecondaryPositive;
    forall x | IsNode(m, x)
      ensures Balanced(m, PowerOf(m, p), TempOf(m, v), x)
    {
      NothingMissing(m, PowerOf(m, p), TempOf(m, v), x, CSum(m, x) - Amb(m, x));
    }
  }

  lemma NothingMissing(m: Model, p: Temps, t: Temps, x: Node, c: real)
    requires Tall(m) && IsNode(m, x) && Distance(Residual(m, p, t, x), 0.0) <= Allow(0.0, c)
    ensures Balanced(m, p, t, x)
  {
    hide CSum, WSum;
    assert Allow(0.0, c) == 0.0;
  }

  /** What the k-th of some sweeps changes at most is below DELTA. */
  ghost predicate Settles(m: Model, p: Temps, t: Temps, order: seq<Node>, k: nat)
    requires Proper(m) && Nodes(m, order) && k > 0
  {
    SmallChange(Sweeps(m, p, t, order, k), Sweeps(m, p, t, order, k - 1))
  }

  ghost predicate SmallChange(now: Temps, before: Temps) {
    exists d :: LargestChange(now, before, d) && d < DELTA
  }

  /** The sweeps that make v of start: as many as it takes until one settles, but no more than patience. */
  ghost predicate Relaxed(m: Model, p: seq<real>, start: seq<real>, v: seq<real>, patience: nat, settled: bool)
    requires Proper(m) && |p| == |start| == |v| == Size(m)
  {
    exists order, k: nat ::
      InSweepOrder(m, order) && Nodes(m, order) && k <= patience &&
      RelaxedBy(m, PowerOf(m, p), TempOf(m, start), TempOf(m, v), order, k, settled) && (!settled ==> k == patience)
  }

  ghost predicate RelaxedBy(m: Model, p: Temps, t: Temps, u: Temps, order: seq<Node>, k: nat, settled: bool)
    requires Proper(m) && Nodes(m, order)
  {
    SameTemps(u, Sweeps(m, p, t, order, k)) &&
    (forall j: nat | 0 < j < k :: !Settles(m, p, t, order, j)) &&
    (settled <==> k > 0 && Settles(m, p, t, order, k))
  }

  /** recursive_multigrid ends its sweeps when the largest change of one is below DELTA. Here there are
      at most so many; whether that was enough is reported, and what the last change was. */
  method Refine(m: Model, p: array<real>, v: array<real>, patience: nat) returns (settled: bool, delta: real)
    requires Proper(m) && v.Length == p.Length == Size(m) && v != p
    modifies v
    ensures Relaxed(m, p[..], old(v[..]), v[..], patience, settled)
    ensures settled ==> 0.0 <= delta < DELTA && NearlySteady(m, p[..], v[..], delta)
    ensures Heated(m, p[..]) && Warm(m, old(v[..])) ==> Warm(m, v[..])
  {
    hide TempOf, Size, Balanced, NearlySteady, Heated, Warm, Swept, Nodes, Proper, Index, Settles, InSweepOrder, Sweeps;
    settled, delta := false, 0.0;
    ghost var kept := Heated(m, p[..]) && Warm(m, v[..]);
    ghost var start, power := TempOf(m, v[..]), PowerOf(m, p[..]);
    ghost var order := SomeSweepOrder(m);
    NoSweep(m, power, start, order);
    for k := 0 to patience
      invariant !settled
      invariant RelaxedBy(m, power, start, TempOf(m, v[..]), order, k, false)
      invariant kept ==> Heated(m, p[..]) && Warm(m, v[..])
    {
      ghost var before := v[..];
      ghost var now;
      delta, now := SingleIteration(m, p, v);
      OneSweepOrder(m, now, order);
      if kept {
        SweepKeepsWarm(m, p[..], before, v[..], order);
      }
      AfterSweep(m, power, start, TempOf(m, before), TempOf(m, v[..]), order, k, delta);
      if delta < DELTA {
        NearlyThere(m, p[..], before, v[..], delta);
        settled := true;
        assert RelaxedBy(m, power, start, TempOf(m, v[..]), order, k + 1, true);
        break;
      }
    }
  }

  /** There is such an order. */
  lemma SomeSweepOrder(m: Model) returns (order: seq<Node>)
    requires Proper(m)
    ensures InSweepOrder(m, order) && Nodes(m, order)
  {
    hide Index, PackNode, PrimaryPositive, SecondaryPositive;
    var n := |m.layers| * m.nr * m.nc;
    var cells := NumberedCells(m, |m.layers|, 0, 0);
    order := cells + Extras(ExtraCount(m));
    assert order[..n] == cells && order[n..] == Extras(ExtraCount(m));
    forall a, b | 0 <= a < b < |order|
      ensures order[a] != order[b]
    {
      if a >= n {
        PackNodesDiffer(a - n, b - n);
      }
    }
  }

  /** The cells before cell (l, i, j). */
  lemma {:induction false} NumberedCells(m: Model, l: nat, i: nat, j: nat) returns (cells: seq<Node>)
    requires Proper(m) && l <= |m.layers| && i <= m.nr && j <= m.nc && (l == |m.layers| ==> i == 0)
    requires i == m.nr || l == |m.layers| ==> j == 0
    ensures |cells| == l * m.nr * m.nc + i * m.nc + j && CellsInOrder(m, cells)
    decreases l, i, j
  {
    hide PrimaryPositive, SecondaryPositive;
    if j > 0 {
      cells := NumberedCells(m, l, i, j - 1);
      cells := cells + [Cell(l, i, j - 1)];
    } else if i > 0 {
      cells := NumberedCells(m, l, i - 1, m.nc - 1);
      cells := cells + [Cell(l, i - 1, m.nc - 1)];
      OneRowLess(i, m.nc);
    } else if l > 0 {
      cells := NumberedCells(m, l - 1, m.nr, 0);
      OneRowLess(l, m.nr * m.nc);
      Grouped(l, m.nr, m.nc);
      Grouped(l - 1, m.nr, m.nc);
    } else {
      cells := [];
    }
  }

  lemma OneRowLess(i: nat, n: nat)
    requires i > 0
    ensures (i - 1) * n + n == i * n
  {
  }

  lemma Grouped(a: nat, b: nat, c: nat)
    ensures a * (b * c) == a * b * c
  {
  }

  lemma PackNodesDiffer(a: nat, b: nat)
    requires a < b < EXTRA + EXTRA_SEC
    ensures PackNode(a) != PackNode(b)
  {
  }

  lemma NoSweep(m: Model, p: Temps, t: Temps, order: seq<Node>)
    requires Proper(m) && Nodes(m, order)
    ensures RelaxedBy(m, p, t, t, order, 0, false)
  {
  }

  /** One more sweep, after which the sweeps end or go on. */
  lemma AfterSweep(m: Model, p: Temps, t: Temps, u: Temps, w: Temps, order: seq<Node>, k: nat, delta: real)
    requires Proper(m) && Nodes(m, order) && RelaxedBy(m, p, t, u, order, k, false)
    requires SameTemps(w, Swept(m, p, u, order, |order|)) && LargestChange(w, u, delta)
    ensures RelaxedBy(m, p, t, w, order, k + 1, delta < DELTA)
  {
    hide Swept, Nodes, Proper, Distance;
    var before, after := Sweeps(m, p, t, order, k), Sweeps(m, p, t, order, k + 1);
    SweptSame(m, p, u, before, order, |order|);
    SameChange(w, u, after, before, delta);
    if SmallChange(after, before) {
      var d :| LargestChange(after, before, d) && d < DELTA;
      OneChange(after, before, d, delta);
    }
  }

  lemma SameChange(w: Temps, u: Temps, w': Temps, u': Temps, delta: real)
    requires SameTemps(w, w') && SameTemps(u, u') && LargestChange(w, u, delta)
    ensures LargestChange(w', u', delta)
  {
    hide Distance;
    if delta != 0.0 {
      var y :| Distance(w(y), u(y)) == delta;
      assert Distance(w'(y), u'(y)) == delta;
    }
  }

  lemma OneChange(w: Temps, u: Temps, a: real, b: real)
    requires LargestChange(w, u, a) && LargestChange(w, u, b)
    ensures a == b
  {
  }

  lemma {:induction false} SweptSame(m: Model, p: Temps, t: Temps, u: Temps, order: seq<Node>, k: nat)
    requires Proper(m) && Nodes(m, order) && k <= |order| && SameTemps(t, u)
    ensures SameTemps(Swept(m, p, t, order, k), Swept(m, p, u, order, k))
  {
    hide Proper, Update;
    if k > 0 {
      SweptSame(m, p, t, u, order, k - 1);
      UpdateSame(m, p, Swept(m, p, t, order, k - 1), Swept(m, p, u, order, k - 1), order[k - 1]);
    }
  }

  lemma NearlyThere(m: Model, p: seq<real>, before: seq<real>, after: seq<real>, delta: real)
    requires Proper(m) && LargestChange(TempOf(m, after), TempOf(m, before), delta)
    requires forall x | IsNode(m, x) ::
               Distance(Residual(m, PowerOf(m, p), TempOf(m, after), x), 0.0) <= Allow(delta, CSum(m, x) - Amb(m, x))
    ensures delta >= 0.0 && NearlySteady(m, p, after, delta)
  {
  }

  lemma SweepKeepsWarm(m: Model, p: seq<real>, before: seq<real>, after: seq<real>, order: seq<Node>)
    requires Proper(m) && Nodes(m, order) && Heated(m, p) && Warm(m, before)
    requires SameTemps(TempOf(m, after), Swept(m, PowerOf(m, p), TempOf(m, before), order, |order|))
    ensures Warm(m, after)
  {
    hide TempOf, Swept, Nodes, Proper;
    forall x | IsNode(m, x)
      ensures PowerOf(m, p)(x) >= 0.0
    {
      assert TempOf(m, p)(x) >= 0.0;
    }
    SweepAboveAmbient(m, PowerOf(m, p), TempOf(m, before), order, |order|);
  }

  lemma GuessIsWarm(m: Model, p: seq<real>, v: seq<real>)
    requires Proper(m) && Heated(m, p) && forall x | IsNode(m, x) :: TempOf(m, v)(x) == Guessed(m, TempOf(m, p))(x)
    ensures Warm(m, v)
  {
    hide Guess;
    forall x: Node
      ensures TempOf(m, p)(x) >= 0.0
    {
      if !IsNode(m, x) {
        NoNode(m, p, x);
      }
    }
    hide TempOf;
    forall x | IsNode(m, x)
      ensures m.ambient <= TempOf(m, v)(x)
    {
      if x.Cell? {
        GuessWarm(m, TempOf(m, p), x.l, x.i, x.j);
      }
    }
  }

  lemma NoNode(m: Model, p: seq<real>, x: Node)
    requires !IsNode(m, x)
    ensures TempOf(m, p)(x) == 0.0
  {
  }

  // ----- the recursion -----

  // ----- the recursion -----

  /** Powers of the fine grid, as the coarse one gets them. */
  ghost predicate RestrictedTo(h: Model, fine: seq<real>, coarse: seq<real>) {
    forall x | IsNode(h, x) :: TempOf(h, coarse)(x) == Restricted(TempOf(Doubled(h), fine))(x)
  }

  /** Temperatures of the coarse grid, as the fine one gets them. */
  ghost predicate ProlongedTo(h: Model, coarse: seq<real>, fine: seq<real>) {
    forall x | IsNode(Doubled(h), x) :: TempOf(Doubled(h), fine)(x) == Prolonged(h, TempOf(h, coarse))(x)
  }

  ghost predicate GuessedFrom(m: Model, p: seq<real>, start: seq<real>) {
    forall x | IsNode(m, x) :: TempOf(m, start)(x) == Guessed(m, TempOf(m, p))(x)
  }

  method RestrictInto(h: Model, dst: array<real>, src: array<real>)
    requires dst.Length == Size(h) && src.Length == Size(Doubled(h)) && dst != src
    modifies dst
    ensures RestrictedTo(h, src[..], dst[..])
  {
    MultigridRestrictPower(h, dst, src);
  }

  method ProlongInto(h: Model, dst: array<real>, src: array<real>)
    requires h.nr >= 1 && h.nc >= 1 && dst.Length == Size(Doubled(h)) && src.Length == Size(h) && dst != src
    modifies dst
    ensures ProlongedTo(h, src[..], dst[..])
  {
    MultigridProlongTemp(h, dst, src);
  }

  lemma CoarseHeated(m: Model, cReady: bool, p: seq<real>, q: seq<real>)
    requires Proper(m) && m.nr % 2 == 0 && m.nc % 2 == 0 && RestrictedTo(Halved(m, cReady), p, q)
    ensures Heated(m, p) ==> Heated(Halved(m, cReady), q)
  {
    hide Heated, Proper, Halved;
    if Heated(m, p) {
      RestrictedHeated(m, cReady, p, q);
    }
  }

  lemma FineWarmAgain(m: Model, cReady: bool, v: seq<real>, c: seq<real>)
    requires Proper(m) && m.nr % 2 == 0 && m.nc % 2 == 0 && ProlongedTo(Halved(m, cReady), c, v)
    ensures Warm(Halved(m, cReady), c) ==> Warm(m, v)
  {
    hide Warm, Proper, Halved;
    if Warm(Halved(m, cReady), c) {
      ProlongedWarm(m, cReady, v, c);
    }
  }

  lemma StartsAbove(m: Model, cReady: bool, p: seq<real>, start: seq<real>, patience: nat, q: seq<real>, c: seq<real>,
                    settled: bool)
    requires Proper(m) && |p| == Size(m) && m.nr > 1 && m.nc > 1
    requires Proper(Halved(m, cReady)) && |q| == |c| == Size(Halved(m, cReady))
    requires RestrictedTo(Halved(m, cReady), p, q) && Nested(Halved(m, cReady), cReady, q, c, patience, settled)
    requires ProlongedTo(Halved(m, cReady), c, start)
    ensures Starts(m, cReady, p, start, patience)
  {
    hide RestrictedTo, ProlongedTo, Nested, Halved;
  }

  /** What recursive_multigrid makes of the powers: the guess, or the prolonged result of the coarser grid, and
      then sweeps. */
  ghost predicate Nested(m: Model, cReady: bool, p: seq<real>, v: seq<real>, patience: nat, settled: bool)
    requires Proper(m) && |p| == |v| == Size(m)
    decreases m.nr, 1
  {
    exists start :: |start| == Size(m) && Starts(m, cReady, p, start, patience) &&
                    Relaxed(m, p, start, v, patience, settled)
  }

  ghost predicate Starts(m: Model, cReady: bool, p: seq<real>, start: seq<real>, patience: nat)
    requires Proper(m) && |p| == Size(m)
    decreases m.nr, 0
  {
    if m.nr <= 1 || m.nc <= 1 then GuessedFrom(m, p, start)
    else
      HalvedProper(m, cReady);
      var h := Halved(m, cReady);
      exists q, c, settled ::
        |q| == |c| == Size(h) && RestrictedTo(h, p, q) && Nested(h, cReady, q, c, patience, settled) &&
        ProlongedTo(h, c, start)
  }

  /** grid_model_t, as far as the solver changes it. */
  class GridModel {
    var layers: seq<Layer>
    var rows: nat
    var cols: nat
    const width: real
    const height: real
    const pack: Pack
    const ambient: real
    const secondary: bool
    const cReady: bool

    constructor (m: Model, cReady: bool)
      ensures AsModel() == m && this.cReady == cReady
    {
      this.layers, this.rows, this.cols := m.layers, m.nr, m.nc;
      this.width, this.height, this.pack, this.ambient, this.secondary := m.width, m.height, m.pack, m.ambient,
        m.secondary;
      this.cReady := cReady;
    }

    function AsModel(): Model
      reads this
    {
      Model(layers, rows, cols, width, height, pack, ambient, secondary)
    }

    /** Make the grid coarser. */
    method Coarsen()
      modifies this
      ensures AsModel() == Halved(old(AsModel()), cReady)
    {
      rows, cols := rows / 2, cols / 2;
      for n := 0 to |layers|
        invariant rows == old(rows) / 2 && cols == old(cols) / 2 && |layers| == |old(layers)|
        invariant forall k | 0 <= k < |layers| :: layers[k] == if k < n then Larger(old(layers)[k], cReady)
                                                               else old(layers)[k]
      {
        layers := layers[n := Larger(layers[n], cReady)];
      }
    }

    /** Restore the grid: this undoes Coarsen exactly if the rows and columns were even. */
    method Restore(ghost was: Model)
      requires AsModel() == Halved(was, cReady)
      modifies this
      ensures layers == was.layers && rows == was.nr / 2 * 2 && cols == was.nc / 2 * 2
    {
      rows, cols := rows * 2, cols * 2;
      for n := 0 to |layers|
        invariant rows == was.nr / 2 * 2 && cols == was.nc / 2 * 2 && |layers| == |was.layers|
        invariant forall k | 0 <= k < |layers| :: layers[k] == if k < n then was.layers[k]
                                                               else Larger(was.layers[k], cReady)
      {
        layers := layers[n := Smaller(layers[n], cReady)];
      }
    }

    /** recursive_multigrid: the model is as before; if the sweeps of this level ended, every node is
        in balance up to the last change, which is below DELTA; and heating never leads below ambient. */
    method RecursiveMultigrid(power: array<real>, temp: array<real>, patience: nat) returns (settled: bool, delta: real)
      requires Proper(AsModel()) && PowerOfTwo(rows) && PowerOfTwo(cols)
      requires power.Length == temp.Length == Size(AsModel()) && power != temp
      modifies this, temp
      ensures AsModel() == old(AsModel())
      ensures Nested(AsModel(), cReady, power[..], temp[..], patience, settled)
      ensures settled ==> 0.0 <= delta < DELTA && NearlySteady(AsModel(), power[..], temp[..], delta)
      ensures Heated(AsModel(), power[..]) ==> Warm(AsModel(), temp[..])
      decreases rows
    {
      hide Proper, Size, TempOf, NearlySteady, Heated, Warm, Halved, Relaxed;
      ghost var m := AsModel();
      if rows <= 1 || cols <= 1 {
        SetHeuristicTemp(AsModel(), power, temp);
        if Heated(m, power[..]) {
          GuessIsWarm(m, power[..], temp[..]);
        }
      } else {
        StartFromCoarser(power, temp, patience);
      }
      assert Starts(m, cReady, power[..], temp[..], patience);
      ghost var start := temp[..];
      settled, delta := Refine(AsModel(), power, temp, patience);
      assert Relaxed(m, power[..], start, temp[..], patience, settled);
    }

    /** The steps of recursive_multigrid that start from a coarser grid. */
    method StartFromCoarser(power: array<real>, temp: array<real>, patience: nat)
      requires Proper(AsModel()) && PowerOfTwo(rows) && PowerOfTwo(cols) && rows > 1 && cols > 1
      requires power.Length == temp.Length == Size(AsModel()) && power != temp
      modifies this, temp
      ensures AsModel() == old(AsModel())
      ensures Starts(AsModel(), cReady, power[..], temp[..], patience)
      ensures Heated(AsModel(), power[..]) ==> Warm(AsModel(), temp[..])
      decreases rows, 0
    {
      hide Proper, Size, TempOf, Heated, Warm, Nested, Starts, RestrictedTo, ProlongedTo;
      ghost var m := AsModel();
      HalvedProper(m, cReady);
      HalvedShape(m, cReady);
      ShapeIsAll(Doubled(Halved(m, cReady)), m, [], Extra(0));
      Coarsen();
      var coarsePower := new real[Size(AsModel())](_ => 0.0);
      var coarseTemp := new real[Size(AsModel())](_ => 0.0);
      RestrictInto(AsModel(), coarsePower, power);
      CoarseHeated(m, cReady, power[..], coarsePower[..]);
      var done, _ := RecursiveMultigrid(coarsePower, coarseTemp, patience);
      ProlongInto(AsModel(), temp, coarseTemp);
      FineWarmAgain(m, cReady, temp[..], coarseTemp[..]);
      Restore(m);
      StartsAbove(m, cReady, power[..], temp[..], patience, coarsePower[..], coarseTemp[..], done);
    }
  }
}
