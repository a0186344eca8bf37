/** The pressure circuit of a microchannel layer (HotSpot/microchannel.c) with an ideal pump: the
    numbering of its fluid cells, and what the equations of the circuit imply for every layout. */
module Channels {
  import opened LinearAlgebra

  /** TSV, SOLID, FLUID, INLET and OUTLET. */
  datatype Kind = Tsv | Solid | Fluid | Inlet | Outlet

  datatype Pos = Pos(i: int, j: int)

  /** The cells of a layer, row by row. */
  datatype Channels = Channels(nr: nat, nc: nat, kinds: seq<seq<Kind>>)

  ghost predicate IsGrid(c: Channels) {
    |c.kinds| == c.nr && forall i | 0 <= i < c.nr :: |c.kinds[i]| == c.nc
  }

  predicate Inside(c: Channels, x: Pos) {
    0 <= x.i < |c.kinds| && 0 <= x.j < |c.kinds[x.i]|
  }

  /** IS_FLUID_CELL, with nothing outside the grid. */
  predicate Carries(c: Channels, x: Pos) {
    Inside(c, x) && !c.kinds[x.i][x.j].Tsv? && !c.kinds[x.i][x.j].Solid?
  }

  function KindOf(c: Channels, x: Pos): Kind
    requires Carries(c, x)
  {
    c.kinds[x.i][x.j]
  }

  // ----- numbering -----

  /** How many fluid cells come before (i, j), row by row. */
  function Number(c: Channels, i: nat, j: nat): nat
    decreases i, j
  {
    if j > 0 then Number(c, i, j - 1) + (if Carries(c, Pos(i, j - 1)) then 1 else 0)
    else if i > 0 then Number(c, i - 1, c.nc)
    else 0
  }

  function NumberOf(c: Channels, x: Pos): nat {
    if x.i >= 0 && x.j >= 0 then Number(c, x.i, x.j) else 0
  }

  function Count(c: Channels): nat {
    Number(c, c.nr, 0)
  }

  lemma {:induction false} NumberGrows(c: Channels, i: nat, j: nat, i': nat, j': nat)
    requires j <= c.nc && j' <= c.nc && (i < i' || (i == i' && j <= j'))
    ensures Number(c, i, j) <= Number(c, i', j')
    decreases i', j'
  {
    if i < i' || j < j' {
      if j' > 0 {
        NumberGrows(c, i, j, i', j' - 1);
      } else {
        NumberGrows(c, i, j, i' - 1, c.nc);
      }
    }
  }

  lemma NumberInRange(c: Channels, x: Pos)
    requires IsGrid(c) && Carries(c, x)
    ensures NumberOf(c, x) < Count(c)
  {
    assert Number(c, x.i, x.j + 1) == Number(c, x.i, x.j) + 1;
    NumberGrows(c, x.i, x.j + 1, c.nr, 0);
  }

  lemma NumberInjective(c: Channels, x: Pos, y: Pos)
    requires IsGrid(c) && Carries(c, x) && Carries(c, y) && NumberOf(c, x) == NumberOf(c, y)
    ensures x == y
  {
    assert Number(c, x.i, x.j + 1) == Number(c, x.i, x.j) + 1;
    assert Number(c, y.i, y.j + 1) == Number(c, y.i, y.j) + 1;
    if x.i < y.i || (x.i == y.i && x.j < y.j) {
      NumberGrows(c, x.i, x.j + 1, y.i, y.j);
    } else if x != y {
      NumberGrows(c, y.i, y.j + 1, x.i, x.j);
    }
  }

  /** The cell before (i, j) with number k. */
  function CellBefore(c: Channels, i: nat, j: nat, k: nat): (x: Pos)
    requires k < Number(c, i, j)
    ensures Carries(c, x) && NumberOf(c, x) == k
    decreases i, j
  {
    if j == 0 then CellBefore(c, i - 1, c.nc, k)
    else if Carries(c, Pos(i, j - 1)) && k == Number(c, i, j - 1) then Pos(i, j - 1)
    else CellBefore(c, i, j - 1, k)
  }

  function CellAt(c: Channels, k: nat): (x: Pos)
    requires k < Count(c)
    ensures Carries(c, x) && NumberOf(c, x) == k
  {
    CellBefore(c, c.nr, 0, k)
  }

  /** The numbering is a bijection between the fluid cells and 0 .. Count - 1. */
  lemma NumberingBijective(c: Channels)
    requires IsGrid(c)
    ensures forall x | Carries(c, x) :: NumberOf(c, x) < Count(c) && CellAt(c, NumberOf(c, x)) == x
    ensures forall k: nat | k < Count(c) :: NumberOf(c, CellAt(c, k)) == k
  {
    forall x | Carries(c, x)
      ensures NumberOf(c, x) < Count(c) && CellAt(c, NumberOf(c, x)) == x
    {
      NumberInRange(c, x);
      NumberInjective(c, x, CellAt(c, NumberOf(c, x)));
    }
  }

  // ----- the circuit -----

  /** A cell to the north, south, west or east, if it carries fluid. */
  function Toward(c: Channels, x: Pos): seq<Pos> {
    if Carries(c, x) then [x] else []
  }

  function Neighbours(c: Channels, x: Pos): seq<Pos> {
    Toward(c, Pos(x.i - 1, x.j)) + Toward(c, Pos(x.i + 1, x.j)) + Toward(c, Pos(x.i, x.j - 1)) +
    Toward(c, Pos(x.i, x.j + 1))
  }

  predicate Adjacent(x: Pos, y: Pos) {
    (x.j == y.j && (x.i == y.i + 1 || y.i == x.i + 1)) || (x.i == y.i && (x.j == y.j + 1 || y.j == x.j + 1))
  }

  lemma NeighboursAre(c: Channels, x: Pos)
    ensures forall y :: y in Neighbours(c, x) <==> Carries(c, y) && Adjacent(x, y)
  {
    hide Carries;
    var n, s, w, e := Pos(x.i - 1, x.j), Pos(x.i + 1, x.j), Pos(x.i, x.j - 1), Pos(x.i, x.j + 1);
    forall y
      ensures y in Neighbours(c, x) <==> Carries(c, y) && Adjacent(x, y)
    {
      assert Adjacent(x, y) <==> y == n || y == s || y == w || y == e;
      assert y in Neighbours(c, x) <==>
        y in Toward(c, n) || y in Toward(c, s) || y in Toward(c, w) || y in Toward(c, e);
    }
  }

  /** flow_rate. */
  function FlowRate(c: Channels, g: real, p: Vec, x: Pos, y: Pos): real {
    (p(NumberOf(c, x)) - p(NumberOf(c, y))) * g
  }

  function FlowsTo(c: Channels, g: real, p: Vec, x: Pos, to: seq<Pos>): real {
    if to == [] then 0.0 else FlowsTo(c, g, p, x, to[..|to| - 1]) + FlowRate(c, g, p, x, to[|to| - 1])
  }

  /** What flows out of a cell, all directions together. */
  function NetOutflow(c: Channels, g: real, p: Vec, x: Pos): real {
    FlowsTo(c, g, p, x, Neighbours(c, x))
  }

  /** Pressures with every inlet at one pressure, every outlet at another, and no net flow from or
      into any other fluid cell. */
  ghost predicate Driven(c: Channels, g: real, inlet: real, outlet: real, p: Vec) {
    forall x | Carries(c, x) :: Settled(c, g, inlet, outlet, p, x)
  }

  ghost predicate Settled(c: Channels, g: real, inlet: real, outlet: real, p: Vec, x: Pos)
    requires Carries(c, x)
  {
    match KindOf(c, x)
    case Inlet => p(NumberOf(c, x)) == inlet
    case Outlet => p(NumberOf(c, x)) == outlet
    case _ => NetOutflow(c, g, p, x) == 0.0
  }

  // ----- conservation -----

  /** The flow from a cell to the next one in its row, or in its column. */
  function FlowEast(c: Channels, g: real, p: Vec, i: int, j: int): real {
    if Carries(c, Pos(i, j)) && Carries(c, Pos(i, j + 1)) then FlowRate(c, g, p, Pos(i, j), Pos(i, j + 1)) else 0.0
  }

  function FlowSouth(c: Channels, g: real, p: Vec, i: int, j: int): real {
    if Carries(c, Pos(i, j)) && Carries(c, Pos(i + 1, j)) then FlowRate(c, g, p, Pos(i, j), Pos(i + 1, j)) else 0.0
  }

  lemma {:induction false} FlowsToBoth(c: Channels, g: real, p: Vec, x: Pos, a: seq<Pos>, b: seq<Pos>)
    ensures FlowsTo(c, g, p, x, a + b) == FlowsTo(c, g, p, x, a) + FlowsTo(c, g, p, x, b)
  {
    if b == [] {
      assert a + b == a;
    } else {
      var k := |b| - 1;
      assert (a + b)[..|a + b| - 1] == a + b[..k];
      FlowsToBoth(c, g, p, x, a, b[..k]);
    }
  }

  lemma FlowToward(c: Channels, g: real, p: Vec, x: Pos, y: Pos)
    ensures FlowsTo(c, g, p, x, Toward(c, y)) == if Carries(c, y) then FlowRate(c, g, p, x, y) else 0.0
  {
    if Carries(c, y) {
      assert Toward(c, y)[..0] == [];
    }
  }

  lemma OutflowParts(c: Channels, g: real, p: Vec, i: int, j: int)
    requires Carries(c, Pos(i, j))
    ensures NetOutflow(c, g, p, Pos(i, j)) ==
            (FlowEast(c, g, p, i, j) - FlowEast(c, g, p, i, j - 1)) +
            (FlowSouth(c, g, p, i, j) - FlowSouth(c, g, p, i - 1, j))
  {
    hide Carries, Toward, FlowsTo, NumberOf;
    var x := Pos(i, j);
    var n, s, w, e := Toward(c, Pos(i - 1, j)), Toward(c, Pos(i + 1, j)), Toward(c, Pos(i, j - 1)),
      Toward(c, Pos(i, j + 1));
    FlowsToBoth(c, g, p, x, n, s);
    FlowsToBoth(c, g, p, x, n + s, w);
    FlowsToBoth(c, g, p, x, n + s + w, e);
    FlowToward(c, g, p, x, Pos(i - 1, j));
    FlowToward(c, g, p, x, Pos(i + 1, j));
    FlowToward(c, g, p, x, Pos(i, j - 1));
    FlowToward(c, g, p, x, Pos(i, j + 1));
    Backwards(c, g, p, x, Pos(i - 1, j));
    Backwards(c, g, p, x, Pos(i, j - 1));
  }

  lemma Backwards(c: Channels, g: real, p: Vec, x: Pos, y: Pos)
    ensures FlowRate(c, g, p, x, y) == -FlowRate(c, g, p, y, x)
  {
  }

  function Outflows(c: Channels, g: real, p: Vec): Mat {
    (i, j) => if Carries(c, Pos(i, j)) then NetOutflow(c, g, p, Pos(i, j)) else 0.0
  }

  function EastSteps(c: Channels, g: real, p: Vec): Mat {
    (i, j) => FlowEast(c, g, p, i, j) - FlowEast(c, g, p, i, j - 1)
  }

  function SouthSteps(c: Channels, g: real, p: Vec): Mat {
    (i, j) => FlowSouth(c, g, p, i, j) - FlowSouth(c, g, p, i - 1, j)
  }

  lemma {:induction false} Telescopes(n: nat, f: Vec, steps: Vec)
    requires forall i | 0 <= i < n :: steps(i) == f(i) - f(i - 1)
    ensures Sum(n, steps) == f(n - 1) - f(-1)
  {
    if n > 0 {
      Telescopes(n - 1, f, steps);
    }
  }

  lemma EastStepsCancel(c: Channels, g: real, p: Vec)
    requires IsGrid(c)
    ensures TotalSum(c.nr, c.nc, EastSteps(c, g, p)) == 0.0
  {
    hide FlowRate, Sum;
    forall i | 0 <= i < c.nr
      ensures RowSums(c.nr, c.nc, EastSteps(c, g, p))(i) == 0.0
    {
      var f: Vec := j => FlowEast(c, g, p, i, j);
      Telescopes(c.nc, f, RowOf(EastSteps(c, g, p), i));
    }
    SumZero(c.nr, RowSums(c.nr, c.nc, EastSteps(c, g, p)));
  }

  lemma SouthStepsCancel(c: Channels, g: real, p: Vec)
    requires IsGrid(c)
    ensures TotalSum(c.nr, c.nc, SouthSteps(c, g, p)) == 0.0
  {
    hide FlowRate, Sum;
    var steps := SouthSteps(c, g, p);
    forall j | 0 <= j < c.nc
      ensures ColumnSums(c.nr, c.nc, steps)(j) == 0.0
    {
      var f: Vec := i => FlowSouth(c, g, p, i, j);
      Telescopes(c.nr, f, ColumnOf(steps, j));
    }
    SumZero(c.nc, ColumnSums(c.nr, c.nc, steps));
    SumExchange(c.nr, c.nc, steps);
  }

  /** Whatever the pressures are, what flows out of some fluid cells flows into others. */
  lemma NothingLost(c: Channels, g: real, p: Vec)
    requires IsGrid(c)
    ensures TotalSum(c.nr, c.nc, Outflows(c, g, p)) == 0.0
  {
    hide NetOutflow, FlowEast, FlowSouth, TotalSum;
    EastStepsCancel(c, g, p);
    SouthStepsCancel(c, g, p);
    forall i, j | 0 <= i < c.nr && 0 <= j < c.nc
      ensures Outflows(c, g, p)(i, j) == EastSteps(c, g, p)(i, j) + 1.0 * SouthSteps(c, g, p)(i, j)
    {
      if Carries(c, Pos(i, j)) {
        OutflowParts(c, g, p, i, j);
      } else {
        NoFlowThrough(c, g, p, i, j);
      }
    }
    TotalPlusTimes(c.nr, c.nc, EastSteps(c, g, p), SouthSteps(c, g, p), 1.0, Outflows(c, g, p));
  }

  lemma NoFlowThrough(c: Channels, g: real, p: Vec, i: int, j: int)
    requires !Carries(c, Pos(i, j))
    ensures EastSteps(c, g, p)(i, j) == 0.0 && SouthSteps(c, g, p)(i, j) == 0.0
  {
  }

  /** What flows out of the cells of one kind. */
  function OutflowsOf(c: Channels, g: real, p: Vec, kind: Kind): Mat {
    (i, j) => if Carries(c, Pos(i, j)) && KindOf(c, Pos(i, j)) == kind then NetOutflow(c, g, p, Pos(i, j)) else 0.0
  }

  /** All that the inlets let in leaves through the outlets. */
  lemma FlowConserved(c: Channels, g: real, inlet: real, outlet: real, p: Vec)
    requires IsGrid(c) && Driven(c, g, inlet, outlet, p)
    ensures TotalSum(c.nr, c.nc, OutflowsOf(c, g, p, Inlet)) == -TotalSum(c.nr, c.nc, OutflowsOf(c, g, p, Outlet))
  {
    hide NetOutflow, TotalSum;
    NothingLost(c, g, p);
    forall i, j | 0 <= i < c.nr && 0 <= j < c.nc
      ensures Outflows(c, g, p)(i, j) == OutflowsOf(c, g, p, Inlet)(i, j) + 1.0 * OutflowsOf(c, g, p, Outlet)(i, j)
    {
      if Carries(c, Pos(i, j)) {
        assert Settled(c, g, inlet, outlet, p, Pos(i, j));
      }
    }
    TotalPlusTimes(c.nr, c.nc, OutflowsOf(c, g, p, Inlet), OutflowsOf(c, g, p, Outlet), 1.0, Outflows(c, g, p));
  }

  // ----- pressures between those of the pump -----

  /** Some path of at most k steps through fluid cells leads to an inlet or an outlet. */
  ghost predicate Reaches(c: Channels, x: Pos, k: nat)
    decreases k
  {
    Carries(c, x) &&
    (!KindOf(c, x).Fluid? || (k > 0 && exists y :: y in Neighbours(c, x) && Reaches(c, y, k - 1)))
  }

  ghost predicate Anchored(c: Channels, x: Pos) {
    exists k: nat :: Reaches(c, x, k)
  }

  /** Neighbours are all anchored or all not. */
  lemma AnchoredTogether(c: Channels, x: Pos, y: Pos)
    requires Carries(c, x) && y in Neighbours(c, x)
    ensures Carries(c, y) && x in Neighbours(c, y) && (Anchored(c, x) <==> Anchored(c, y))
  {
    hide Carries, Neighbours, KindOf;
    NeighboursAre(c, x);
    NeighboursAre(c, y);
    if Anchored(c, x) {
      var k: nat :| Reaches(c, x, k);
      OneFurther(c, y, x, k);
    }
    if Anchored(c, y) {
      var k: nat :| Reaches(c, y, k);
      OneFurther(c, x, y, k);
    }
  }

  lemma OneFurther(c: Channels, x: Pos, y: Pos, k: nat)
    requires Carries(c, x) && y in Neighbours(c, x) && Reaches(c, y, k)
    ensures Anchored(c, x)
  {
    hide Carries, Neighbours;
    assert Reaches(c, x, k + 1);
  }

  ghost predicate LowestAnchored(c: Channels, p: Vec, x: Pos) {
    Carries(c, x) && Anchored(c, x) &&
    forall y | Carries(c, y) && Anchored(c, y) :: p(NumberOf(c, x)) <= p(NumberOf(c, y))
  }

  lemma {:induction false} LowestBelow(c: Channels, p: Vec, x: Pos, m: nat) returns (z: Pos)
    requires IsGrid(c) && Carries(c, x) && Anchored(c, x) && m <= Count(c)
    ensures Carries(c, z) && Anchored(c, z) && p(NumberOf(c, z)) <= p(NumberOf(c, x))
    ensures forall k: nat | k < m && Anchored(c, CellAt(c, k)) :: p(NumberOf(c, z)) <= p(k)
  {
    hide Carries, Anchored, Number;
    if m == 0 {
      z := x;
    } else {
      z := LowestBelow(c, p, x, m - 1);
      var y := CellAt(c, m - 1);
      if Anchored(c, y) && p(m - 1) < p(NumberOf(c, z)) {
        z := y;
      }
    }
  }

  lemma LowestExists(c: Channels, p: Vec, x: Pos) returns (z: Pos)
    requires IsGrid(c) && Carries(c, x) && Anchored(c, x)
    ensures LowestAnchored(c, p, z)
  {
    hide Carries, Anchored, Number;
    z := LowestBelow(c, p, x, Count(c));
    NumberingBijective(c);
    forall y | Carries(c, y) && Anchored(c, y)
      ensures p(NumberOf(c, z)) <= p(NumberOf(c, y))
    {
      assert Anchored(c, CellAt(c, NumberOf(c, y)));
    }
  }

  /** Flows that go into a cell and sum to nothing are nothing. */
  lemma {:induction false} NoneFlows(c: Channels, g: real, p: Vec, x: Pos, to: seq<Pos>)
    requires g > 0.0 && forall y | y in to :: p(NumberOf(c, x)) <= p(NumberOf(c, y))
    ensures FlowsTo(c, g, p, x, to) <= 0.0
    ensures FlowsTo(c, g, p, x, to) >= 0.0 ==> forall y | y in to :: p(NumberOf(c, x)) == p(NumberOf(c, y))
  {
    hide NumberOf;
    if to != [] {
      var k := |to| - 1;
      NoneFlows(c, g, p, x, to[..k]);
      Downhill(p(NumberOf(c, x)) - p(NumberOf(c, to[k])), g);
      var rest, last := FlowsTo(c, g, p, x, to[..k]), FlowRate(c, g, p, x, to[k]);
      assert rest <= 0.0 && last <= 0.0 && FlowsTo(c, g, p, x, to) == rest + last;
      if rest + last >= 0.0 {
        assert rest >= 0.0 && last >= 0.0;
        forall y | y in to
          ensures p(NumberOf(c, x)) == p(NumberOf(c, y))
        {
          assert y in to[..k] || y == to[k];
        }
      }
    }
  }

  lemma Downhill(d: real, g: real)
    requires d <= 0.0 && g > 0.0
    ensures d * g <= 0.0 && (d * g >= 0.0 ==> d == 0.0)
  {
  }

  /** A lowest anchored cell that is neither inlet nor outlet has only cells of its own pressure
      around it: so an inlet or outlet is as low. */
  lemma {:induction false} LowestIsEnd(c: Channels, g: real, inlet: real, outlet: real, p: Vec, x: Pos, k: nat)
    requires IsGrid(c) && g > 0.0 && Driven(c, g, inlet, outlet, p) && LowestAnchored(c, p, x) && Reaches(c, x, k)
    ensures p(NumberOf(c, x)) == inlet || p(NumberOf(c, x)) == outlet
    decreases k
  {
    hide Neighbours, NumberOf, Anchored;
    assert Settled(c, g, inlet, outlet, p, x);
    if KindOf(c, x).Fluid? {
      forall y | y in Neighbours(c, x)
        ensures p(NumberOf(c, x)) <= p(NumberOf(c, y)) && Anchored(c, y)
      {
        AnchoredTogether(c, x, y);
      }
      NoneFlows(c, g, p, x, Neighbours(c, x));
      var y :| y in Neighbours(c, x) && Reaches(c, y, k - 1);
      LowestIsEnd(c, g, inlet, outlet, p, y, k - 1);
    }
  }

  lemma NotBelow(c: Channels, g: real, inlet: real, outlet: real, p: Vec, x: Pos, low: real)
    requires IsGrid(c) && g > 0.0 && Driven(c, g, inlet, outlet, p) && Carries(c, x) && Anchored(c, x)
    requires low <= inlet && low <= outlet
    ensures low <= p(NumberOf(c, x))
  {
    hide Driven, Carries, NumberOf;
    var z := LowestExists(c, p, x);
    var k: nat :| Reaches(c, z, k);
    LowestIsEnd(c, g, inlet, outlet, p, z, k);
  }

  function Mirrored(top: real, p: Vec): Vec {
    k => top - p(k)
  }

  lemma {:induction false} FlowsMirrored(c: Channels, g: real, p: Vec, top: real, x: Pos, to: seq<Pos>)
    ensures FlowsTo(c, g, Mirrored(top, p), x, to) == -FlowsTo(c, g, p, x, to)
  {
    if to != [] {
      FlowsMirrored(c, g, p, top, x, to[..|to| - 1]);
      var y := to[|to| - 1];
      assert FlowRate(c, g, Mirrored(top, p), x, y) == (p(NumberOf(c, y)) - p(NumberOf(c, x))) * g;
      Backwards(c, g, p, x, y);
    }
  }

  lemma DrivenMirrored(c: Channels, g: real, inlet: real, outlet: real, p: Vec, top: real)
    requires Driven(c, g, inlet, outlet, p)
    ensures Driven(c, g, top - inlet, top - outlet, Mirrored(top, p))
  {
    hide Carries, NumberOf, FlowsTo;
    forall x | Carries(c, x)
      ensures Settled(c, g, top - inlet, top - outlet, Mirrored(top, p), x)
    {
      assert Settled(c, g, inlet, outlet, p, x);
      FlowsMirrored(c, g, p, top, x, Neighbours(c, x));
    }
  }

  /** The pressure of every cell that is connected to the pump is between those of the pump. */
  lemma PressureBetween(c: Channels, g: real, pump: real, p: Vec, x: Pos)
    requires IsGrid(c) && g > 0.0 && pump >= 0.0 && Driven(c, g, pump, 0.0, p) && Carries(c, x) && Anchored(c, x)
    ensures 0.0 <= p(NumberOf(c, x)) <= pump
  {
    hide Driven, Carries, NumberOf, Anchored;
    NotBelow(c, g, pump, 0.0, p, x, 0.0);
    DrivenMirrored(c, g, pump, 0.0, p, pump);
    NotBelow(c, g, 0.0, pump, Mirrored(pump, p), x, 0.0);
  }

  /** No inlet takes fluid in, and no outlet gives any back. */
  lemma PumpPushes(c: Channels, g: real, pump: real, p: Vec, x: Pos)
    requires IsGrid(c) && g > 0.0 && pump >= 0.0 && Driven(c, g, pump, 0.0, p) && Carries(c, x)
    ensures KindOf(c, x).Inlet? ==> NetOutflow(c, g, p, x) >= 0.0
    ensures KindOf(c, x).Outlet? ==> NetOutflow(c, g, p, x) <= 0.0
  {
    hide NumberOf, Neighbours, Anchored, FlowsTo;
    if !KindOf(c, x).Fluid? {
      assert Reaches(c, x, 0);
      AnchoredBy(c, x, 0);
      assert Settled(c, g, pump, 0.0, p, x);
      forall y | y in Neighbours(c, x)
        ensures 0.0 <= p(NumberOf(c, y)) <= pump
      {
        AnchoredTogether(c, x, y);
        PressureBetween(c, g, pump, p, y);
      }
      if KindOf(c, x).Outlet? {
        NoneFlows(c, g, p, x, Neighbours(c, x));
      } else {
        NoneFlows(c, g, Mirrored(pump, p), x, Neighbours(c, x));
        FlowsMirrored(c, g, p, pump, x, Neighbours(c, x));
      }
    }
  }

  lemma AnchoredBy(c: Channels, x: Pos, k: nat)
    requires Reaches(c, x, k)
    ensures Anchored(c, x)
  {
  }

  // ----- which pressures are determined -----

  function Difference(p: Vec, q: Vec): Vec {
    k => p(k) - q(k)
  }

  lemma {:induction false} FlowsOfDifference(c: Channels, g: real, p: Vec, q: Vec, x: Pos, to: seq<Pos>)
    ensures FlowsTo(c, g, Difference(p, q), x, to) == FlowsTo(c, g, p, x, to) - FlowsTo(c, g, q, x, to)
  {
    if to != [] {
      FlowsOfDifference(c, g, p, q, x, to[..|to| - 1]);
      var y := to[|to| - 1];
      assert FlowRate(c, g, Difference(p, q), x, y) == FlowRate(c, g, p, x, y) - FlowRate(c, g, q, x, y);
    }
  }

  lemma DrivenDifference(c: Channels, g: real, pump: real, p: Vec, q: Vec)
    requires Driven(c, g, pump, 0.0, p) && Driven(c, g, pump, 0.0, q)
    ensures Driven(c, g, 0.0, 0.0, Difference(p, q))
  {
    hide Carries, NumberOf, FlowsTo;
    forall x | Carries(c, x)
      ensures Settled(c, g, 0.0, 0.0, Difference(p, q), x)
    {
      assert Settled(c, g, pump, 0.0, p, x) && Settled(c, g, pump, 0.0, q, x);
      FlowsOfDifference(c, g, p, q, x, Neighbours(c, x));
    }
  }

  /** The pressures with all cells that are cut off from the pump raised by one. */
  ghost function Raised(c: Channels, p: Vec): Vec {
    k => if 0 <= k < Count(c) && !Anchored(c, CellAt(c, k)) then p(k) + 1.0 else p(k)
  }

  lemma RaisedAt(c: Channels, p: Vec, x: Pos)
    requires IsGrid(c) && Carries(c, x)
    ensures Raised(c, p)(NumberOf(c, x)) == p(NumberOf(c, x)) + (if Anchored(c, x) then 0.0 else 1.0)
  {
    hide Carries, Anchored, Number;
    NumberingBijective(c);
  }

  lemma {:induction false} FlowsRaised(c: Channels, g: real, p: Vec, x: Pos, to: seq<Pos>)
    requires IsGrid(c) && Carries(c, x) && forall y | y in to :: y in Neighbours(c, x)
    ensures FlowsTo(c, g, Raised(c, p), x, to) == FlowsTo(c, g, p, x, to)
  {
    hide Carries, Anchored, NumberOf, Neighbours, Raised;
    if to != [] {
      var y := to[|to| - 1];
      assert y in to;
      FlowsRaised(c, g, p, x, to[..|to| - 1]);
      AnchoredTogether(c, x, y);
      RaisedAt(c, p, x);
      RaisedAt(c, p, y);
    }
  }

  lemma RaisedDriven(c: Channels, g: real, pump: real, p: Vec)
    requires IsGrid(c) && Driven(c, g, pump, 0.0, p)
    ensures Driven(c, g, pump, 0.0, Raised(c, p))
  {
    hide NumberOf, FlowsTo, Anchored, Raised;
    forall x | Carries(c, x)
      ensures Settled(c, g, pump, 0.0, Raised(c, p), x)
    {
      assert Settled(c, g, pump, 0.0, p, x);
      FlowsRaised(c, g, p, x, Neighbours(c, x));
      RaisedAt(c, p, x);
      if !KindOf(c, x).Fluid? {
        AnchoredBy(c, x, 0);
      }
    }
  }

  /** The circuit, if it has a solution, determines the pressure of a cell exactly if a path through
      fluid cells connects the cell to an inlet or outlet. */
  lemma DeterminedIffAnchored(c: Channels, g: real, pump: real, p: Vec, x: Pos)
    requires IsGrid(c) && g > 0.0 && Driven(c, g, pump, 0.0, p) && Carries(c, x)
    ensures Anchored(c, x) <==> forall q | Driven(c, g, pump, 0.0, q) :: q(NumberOf(c, x)) == p(NumberOf(c, x))
  {
    hide Driven, Carries, Anchored, NumberOf, Raised;
    if Anchored(c, x) {
      forall q | Driven(c, g, pump, 0.0, q)
        ensures q(NumberOf(c, x)) == p(NumberOf(c, x))
      {
        DrivenDifference(c, g, pump, p, q);
        DrivenDifference(c, g, pump, q, p);
        NotBelow(c, g, 0.0, 0.0, Difference(p, q), x, 0.0);
        NotBelow(c, g, 0.0, 0.0, Difference(q, p), x, 0.0);
      }
    } else {
      RaisedDriven(c, g, pump, p);
      RaisedAt(c, p, x);
    }
  }
}
