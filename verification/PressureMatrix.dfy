/** build_pressure_matrix (HotSpot/microchannel.c) with an ideal pump: the matrix and the right-hand
    side that it fills describe the circuit of Channels.dfy. */
module PressureMatrix {
  import opened Numbers
  import opened LinearAlgebra
  import opened Channels

  /** hydroC: the conductance between two neighbouring fluid cells. */
  function HydroC(h: real, w: real, length: real, viscosity: real): (g: real)
    requires h > 0.0 && w > 0.0 && length > 0.0 && viscosity > 0.0
    ensures g > 0.0
  {
    ProductPositive(12.0 * viscosity, length);
    var shape :=
      if h == w then 0.42229 * Power(h, 4)
      else if h > w then Narrow(w, h)
      else Narrow(h, w);
    PowerPositive(h, 4);
    QuotientPositive(shape, 12.0 * viscosity * length);
    shape / (12.0 * viscosity * length)
  }

  function Power(x: real, n: nat): real {
    if n == 0 then 1.0 else Power(x, n - 1) * x
  }

  lemma {:induction false} PowerPositive(x: real, n: nat)
    requires x > 0.0
    ensures Power(x, n) > 0.0
  {
    if n > 0 {
      PowerPositive(x, n - 1);
      ProductPositive(Power(x, n - 1), x);
    }
  }

  /** The section of a channel with a shorter and a longer side. */
  function Narrow(short: real, long: real): (r: real)
    requires 0.0 < short < long
    ensures r > 0.0
  {
    RatioBelow(short, long);
    PowerPositive(short, 3);
    ProductPositive(1.0 - 0.63 * (short / long), Power(short, 3));
    ProductPositive((1.0 - 0.63 * (short / long)) * Power(short, 3), long);
    (1.0 - 0.63 * (short / long)) * Power(short, 3) * long
  }

  /** The fitted formula, in powers of the shorter and the longer side of the section; which of them is the
      height does not matter. */
  lemma HydroCIs(h: real, w: real, length: real, viscosity: real)
    requires h > 0.0 && w > 0.0 && length > 0.0 && viscosity > 0.0
    ensures var s, l := Min(h, w), Max(h, w);
            HydroC(h, w, length, viscosity) * (12.0 * viscosity * length) ==
            if s == l then 0.42229 * (s * s * s * s) else s * s * s * l - 0.63 * (s * s * s * s)
    ensures HydroC(h, w, length, viscosity) == HydroC(w, h, length, viscosity)
  {
    hide Narrow, Power;
    ProductPositive(12.0 * viscosity, length);
    var s, l := Min(h, w), Max(h, w);
    FourthPower(s);
    if s < l {
      NarrowIs(s, l);
    }
  }

  lemma FourthPower(x: real)
    ensures Power(x, 3) == x * x * x && Power(x, 4) == x * x * x * x
  {
    assert Power(x, 1) == x;
    assert Power(x, 2) == x * x;
  }

  lemma NarrowIs(s: real, l: real)
    requires 0.0 < s < l
    ensures Narrow(s, l) == s * s * s * l - 0.63 * (s * s * s * s)
  {
    FourthPower(s);
    hide Power;
    var ratio, cube := s / l, s * s * s;
    assert ratio * l == s;
    assert (1.0 - 0.63 * ratio) * cube * l == cube * l - 0.63 * (cube * (ratio * l));
  }

  /** The formula jumps where the section is a square: to widen a square channel makes it conduct less, unless it
      becomes wider by more than about a twentieth. */
  lemma WideningPays(s: real, l: real, length: real, viscosity: real)
    requires 0.0 < s < l && length > 0.0 && viscosity > 0.0
    ensures HydroC(s, l, length, viscosity) > HydroC(s, s, length, viscosity) <==> l > 1.05229 * s
  {
    hide HydroC;
    HydroCIs(s, l, length, viscosity);
    HydroCIs(s, s, length, viscosity);
    ProductPositive(12.0 * viscosity, length);
    var cube := s * s * s;
    ProductPositive(s, s);
    ProductPositive(s * s, s);
    var a, b, d := HydroC(s, l, length, viscosity), HydroC(s, s, length, viscosity), 12.0 * viscosity * length;
    assert a * d - b * d == cube * (l - 1.05229 * s);
    SameSign(a - b, d, l - 1.05229 * s, cube);
  }

  lemma SameSign(x: real, d: real, y: real, e: real)
    requires d > 0.0 && e > 0.0 && x * d == e * y
    ensures x > 0.0 <==> y > 0.0
  {
    if x > 0.0 {
      ProductPositive(x, d);
    } else {
      assert x * d <= 0.0;
    }
  }

  lemma RatioBelow(short: real, long: real)
    requires 0.0 < short < long
    ensures short / long < 1.0
  {
    var ratio := short / long;
    assert ratio * long == short;
    assert ratio >= 1.0 ==> ratio * long >= long;
  }

  // ----- rows -----

  function Put(f: Vec, k: int, v: real): Vec {
    q => if q == k then v else f(q)
  }

  /** The entries for the links to neighbours. */
  function Spread(c: Channels, g: real, to: seq<Pos>): Vec {
    if to == [] then Zero else Put(Spread(c, g, to[..|to| - 1]), NumberOf(c, to[|to| - 1]), -g)
  }

  /** n conductances together. */
  function Conductances(g: real, n: nat): real {
    g * n as real
  }

  /** The sum of the conductances of a cell. */
  function Diagonal(c: Channels, g: real, x: Pos): real {
    Conductances(g, |Neighbours(c, x)|)
  }

  /** The row of a cell. */
  function Row(c: Channels, g: real, x: Pos): Vec
    requires Carries(c, x)
  {
    if KindOf(c, x).Fluid? then Put(Spread(c, g, Neighbours(c, x)), NumberOf(c, x), Diagonal(c, g, x))
    else Put(Zero, NumberOf(c, x), 1.0)
  }

  function Rhs(c: Channels, pump: real, x: Pos): real
    requires Carries(c, x)
  {
    if KindOf(c, x).Inlet? then pump else 0.0
  }

  function Dot(n: nat, row: Vec, p: Vec): real {
    Sum(n, DotTerms(row, p))
  }

  function DotTerms(row: Vec, p: Vec): Vec {
    q => row(q) * p(q)
  }

  lemma DotPut(n: nat, f: Vec, k: nat, v: real, p: Vec)
    requires k < n && f(k) == 0.0
    ensures Dot(n, Put(f, k, v), p) == Dot(n, f, p) + v * p(k)
  {
    SumApart(n, k, DotTerms(Put(f, k, v), p), DotTerms(f, p));
  }

  lemma DotZero(n: nat, p: Vec)
    ensures Dot(n, Zero, p) == 0.0
  {
    SumZero(n, DotTerms(Zero, p));
  }

  /** Fluid cells of the grid, all different. */
  ghost predicate Distinct(c: Channels, to: seq<Pos>) {
    (forall y | y in to :: Carries(c, y)) && forall a, b | 0 <= a < b < |to| :: to[a] != to[b]
  }

  lemma {:induction false} SpreadElsewhere(c: Channels, g: real, to: seq<Pos>, y: Pos)
    requires IsGrid(c) && Distinct(c, to) && Carries(c, y) && y !in to
    ensures Spread(c, g, to)(NumberOf(c, y)) == 0.0
  {
    hide Carries, NumberOf;
    if to != [] {
      var k := |to| - 1;
      SpreadElsewhere(c, g, to[..k], y);
      if NumberOf(c, y) == NumberOf(c, to[k]) {
        NumberInjective(c, y, to[k]);
      }
    }
  }

  /** The product of the off-diagonal part with the pressures, and what is missing of the outflow. */
  lemma {:induction false} SpreadDot(c: Channels, g: real, p: Vec, x: Pos, to: seq<Pos>)
    requires IsGrid(c) && Distinct(c, to)
    ensures g * |to| as real * p(NumberOf(c, x)) + Dot(Count(c), Spread(c, g, to), p) == FlowsTo(c, g, p, x, to)
  {
    hide Carries, NumberOf, Dot;
    if to == [] {
      DotZero(Count(c), p);
    } else {
      var k := |to| - 1;
      SpreadDot(c, g, p, x, to[..k]);
      SpreadElsewhere(c, g, to[..k], to[k]);
      NumberInRange(c, to[k]);
      DotPut(Count(c), Spread(c, g, to[..k]), NumberOf(c, to[k]), -g, p);
      OneMoreTerm(g, k, p(NumberOf(c, x)), p(NumberOf(c, to[k])));
    }
  }

  lemma OneMoreTerm(g: real, k: nat, here: real, there: real)
    ensures g * (k + 1) as real * here + -g * there == g * k as real * here + (here - there) * g
  {
  }

  lemma NeighboursDistinct(c: Channels, x: Pos)
    ensures Distinct(c, Neighbours(c, x)) && x !in Neighbours(c, x)
  {
    hide Carries, Distinct;
    var n, s, w, e := Pos(x.i - 1, x.j), Pos(x.i + 1, x.j), Pos(x.i, x.j - 1), Pos(x.i, x.j + 1);
    var ns := Toward(c, n) + Toward(c, s);
    var nsw := ns + Toward(c, w);
    DistinctNone(c);
    DistinctMore(c, [], n);
    assert [] + Toward(c, n) == Toward(c, n);
    DistinctMore(c, Toward(c, n), s);
    OneOrOther(Toward(c, n), Toward(c, s), n, s);
    DistinctMore(c, ns, w);
    DistinctMore(c, nsw, e);
  }

  lemma OneOrOther(a: seq<Pos>, b: seq<Pos>, x: Pos, y: Pos)
    requires (forall z | z in a :: z == x) && forall z | z in b :: z == y
    ensures forall z | z in a + b :: z == x || z == y
  {
  }

  lemma DistinctNone(c: Channels)
    ensures Distinct(c, [])
  {
  }

  lemma DistinctMore(c: Channels, to: seq<Pos>, y: Pos)
    requires Distinct(c, to) && y !in to
    ensures Distinct(c, to + Toward(c, y))
  {
  }

  /** What a row says: the product with it is the net outflow, or the pressure itself. */
  lemma RowDot(c: Channels, g: real, p: Vec, x: Pos)
    requires IsGrid(c) && Carries(c, x)
    ensures Dot(Count(c), Row(c, g, x), p) == if KindOf(c, x).Fluid? then NetOutflow(c, g, p, x) else p(NumberOf(c, x))
  {
    hide Carries, NumberOf, Dot, Neighbours, Spread;
    NumberInRange(c, x);
    if KindOf(c, x).Fluid? {
      NeighboursDistinct(c, x);
      SpreadElsewhere(c, g, Neighbours(c, x), x);
      SpreadDot(c, g, p, x, Neighbours(c, x));
      DotPut(Count(c), Spread(c, g, Neighbours(c, x)), NumberOf(c, x), Diagonal(c, g, x), p);
    } else {
      DotZero(Count(c), p);
      DotPut(Count(c), Zero, NumberOf(c, x), 1.0, p);
    }
  }

  /** A row of the system holds exactly if its cell is settled. */
  lemma RowIffSettled(c: Channels, g: real, pump: real, p: Vec, x: Pos)
    requires IsGrid(c) && Carries(c, x)
    ensures Dot(Count(c), Row(c, g, x), p) == Rhs(c, pump, x) <==> Settled(c, g, pump, 0.0, p, x)
  {
    hide Dot, Row, NetOutflow, NumberOf;
    RowDot(c, g, p, x);
  }

  // ----- how many entries -----

  function Nonzeros(n: nat, f: Vec): nat {
    if n == 0 then 0 else Nonzeros(n - 1, f) + (if f(n - 1) != 0.0 then 1 else 0)
  }

  lemma {:induction false} NonzerosPut(n: nat, f: Vec, k: nat, v: real)
    requires f(k) == 0.0 && v != 0.0
    ensures Nonzeros(n, Put(f, k, v)) == Nonzeros(n, f) + (if k < n then 1 else 0)
  {
    if n > 0 {
      NonzerosPut(n - 1, f, k, v);
    }
  }

  lemma {:induction false} NonzerosNone(n: nat, f: Vec)
    requires forall q | 0 <= q < n :: f(q) == 0.0
    ensures Nonzeros(n, f) == 0
  {
    if n > 0 {
      NonzerosNone(n - 1, f);
    }
  }

  lemma {:induction false} SpreadSize(c: Channels, g: real, to: seq<Pos>)
    requires IsGrid(c) && g > 0.0 && Distinct(c, to)
    ensures Nonzeros(Count(c), Spread(c, g, to)) == |to|
  {
    hide Carries, NumberOf;
    if to == [] {
      NonzerosNone(Count(c), Zero);
    } else {
      var k := |to| - 1;
      SpreadSize(c, g, to[..k]);
      SpreadElsewhere(c, g, to[..k], to[k]);
      NumberInRange(c, to[k]);
      NonzerosPut(Count(c), Spread(c, g, to[..k]), NumberOf(c, to[k]), -g);
    }
  }

  /** What the row of a cell adds to nnz. */
  function RowSize(c: Channels, x: Pos): nat
    requires Carries(c, x)
  {
    if KindOf(c, x).Fluid? then |Neighbours(c, x)| + 1 else 1
  }

  /** A fluid cell with nothing but walls around it. */
  predicate Isolated(c: Channels, x: Pos)
    requires Carries(c, x)
  {
    KindOf(c, x).Fluid? && Neighbours(c, x) == []
  }

  /** That is how many entries of the row are not zero, unless the cell is isolated: then the diagonal
      is counted, but zero. */
  lemma RowNonzeros(c: Channels, g: real, x: Pos)
    requires IsGrid(c) && g > 0.0 && Carries(c, x)
    ensures Nonzeros(Count(c), Row(c, g, x)) == RowSize(c, x) - (if Isolated(c, x) then 1 else 0)
  {
    hide Carries, NumberOf, Neighbours, Spread;
    NumberInRange(c, x);
    var near := Neighbours(c, x);
    NeighboursDistinct(c, x);
    if !KindOf(c, x).Fluid? {
      NonzerosNone(Count(c), Zero);
      NonzerosPut(Count(c), Zero, NumberOf(c, x), 1.0);
    } else if near == [] {
      SpreadNothing(c, g);
      NonzerosNone(Count(c), Row(c, g, x));
    } else {
      SpreadSize(c, g, near);
      SpreadElsewhere(c, g, near, x);
      ProductPositive(g, |near| as real);
      NonzerosPut(Count(c), Spread(c, g, near), NumberOf(c, x), Diagonal(c, g, x));
    }
  }

  lemma SpreadMore(c: Channels, g: real, to: seq<Pos>, y: Pos)
    ensures Spread(c, g, to + [y]) == Put(Spread(c, g, to), NumberOf(c, y), -g)
    ensures Conductances(g, |to| + 1) == Conductances(g, |to|) + g
  {
    assert (to + [y])[..|to|] == to;
  }

  lemma SpreadNothing(c: Channels, g: real)
    ensures Spread(c, g, []) == Zero && Conductances(g, 0) == 0.0
  {
  }

  /** nnz after so many rows, and the entries of them that are not zero. */
  function Sizes(c: Channels, m: nat): nat
    requires m <= Count(c)
  {
    if m == 0 then 0 else Sizes(c, m - 1) + RowSize(c, CellAt(c, m - 1))
  }

  function Stored(c: Channels, g: real, m: nat): nat
    requires m <= Count(c)
  {
    if m == 0 then 0 else Stored(c, g, m - 1) + Nonzeros(Count(c), Row(c, g, CellAt(c, m - 1)))
  }

  lemma {:induction false} StoredAtMost(c: Channels, g: real, m: nat)
    requires IsGrid(c) && g > 0.0 && m <= Count(c)
    ensures Stored(c, g, m) <= Sizes(c, m)
    ensures Stored(c, g, m) == Sizes(c, m) <==> forall k: nat | k < m :: !Isolated(c, CellAt(c, k))
  {
    hide Carries, NumberOf, Row, Nonzeros, RowSize, Isolated;
    if m > 0 {
      StoredAtMost(c, g, m - 1);
      RowNonzeros(c, g, CellAt(c, m - 1));
    }
  }

  /** nnz is never too small, and it is the number of nonzero entries exactly if no fluid cell is
      isolated. */
  lemma NnzExact(c: Channels, g: real)
    requires IsGrid(c) && g > 0.0
    ensures Stored(c, g, Count(c)) <= Sizes(c, Count(c))
    ensures Stored(c, g, Count(c)) == Sizes(c, Count(c)) <==> forall x | Carries(c, x) :: !Isolated(c, x)
  {
    hide Carries, NumberOf, Isolated;
    StoredAtMost(c, g, Count(c));
    NumberingBijective(c);
    if forall k: nat | k < Count(c) :: !Isolated(c, CellAt(c, k)) {
      forall x | Carries(c, x)
        ensures !Isolated(c, x)
      {
        assert !Isolated(c, CellAt(c, NumberOf(c, x)));
      }
    }
  }

  // ----- the system -----

  /** What build_pressure_matrix is to fill into A and b. */
  function SystemMatrix(c: Channels, g: real): Mat {
    (r, q) => if 0 <= r < Count(c) then Row(c, g, CellAt(c, r))(q) else 0.0
  }

  function SystemRhs(c: Channels, pump: real): Vec {
    r => if 0 <= r < Count(c) then Rhs(c, pump, CellAt(c, r)) else 0.0
  }

  /** The system is the circuit: same solutions. */
  lemma SystemIsCircuit(c: Channels, g: real, pump: real, p: Vec)
    requires IsGrid(c)
    ensures SameVec(Count(c), TimesVec(Count(c), SystemMatrix(c, g), p), SystemRhs(c, pump)) <==>
            Driven(c, g, pump, 0.0, p)
  {
    hide Carries, NumberOf, Row, Rhs, Settled, Dot, Sum;
    NumberingBijective(c);
    var product, rhs := TimesVec(Count(c), SystemMatrix(c, g), p), SystemRhs(c, pump);
    forall k: nat | k < Count(c)
      ensures product(k) == rhs(k) <==> Settled(c, g, pump, 0.0, p, CellAt(c, k))
    {
      RowIffSettled(c, g, pump, p, CellAt(c, k));
      SameDot(Count(c), SystemMatrix(c, g), Row(c, g, CellAt(c, k)), p, k);
    }
    if SameVec(Count(c), product, rhs) {
      forall x | Carries(c, x)
        ensures Settled(c, g, pump, 0.0, p, x)
      {
        assert product(NumberOf(c, x)) == rhs(NumberOf(c, x));
      }
    }
  }

  lemma SameDot(n: nat, a: Mat, row: Vec, p: Vec, k: int)
    requires forall q | 0 <= q < n :: a(k, q) == row(q)
    ensures TimesVec(n, a, p)(k) == Dot(n, row, p)
  {
    SumSame(n, Terms(a, p, k), DotTerms(row, p));
  }

  // ----- the arrays -----

  ghost predicate RowIs(a: array2<real>, r: int, f: Vec)
    reads a
  {
    0 <= r < a.Length0 && forall q | 0 <= q < a.Length1 :: a[r, q] == f(q)
  }

  /** The first m rows are done, and the others still zero. */
  ghost predicate RowsDone(c: Channels, g: real, pump: real, a: array2<real>, b: array<real>, m: nat)
    reads a, b
  {
    m <= Count(c) == a.Length0 == a.Length1 == b.Length &&
    (forall r, q | 0 <= r < Count(c) && 0 <= q < Count(c) ::
     a[r, q] == if r < m then SystemMatrix(c, g)(r, q) else 0.0) &&
    forall r | 0 <= r < Count(c) :: b[r] == if r < m then SystemRhs(c, pump)(r) else 0.0
  }

  /** mapping. */
  ghost predicate Numbered(c: Channels, mapping: array2<int>)
    reads mapping
  {
    mapping.Length0 == c.nr && mapping.Length1 == c.nc &&
    forall i, j | 0 <= i < c.nr && 0 <= j < c.nc :: mapping[i, j] == Entry(c, i, j)
  }

  /** microchannel_config_t, as far as the circuit goes. */
  class Config {
    const cells: Channels
    const g: real
    const pumpingPressure: real
    var mapping: array2<int>
    var nFluidCells: nat
    var A: array2<real>
    var b: array<real>
    var nnz: nat

    constructor (cells: Channels, thickness: real, width: real, height: real, viscosity: real, pumpingPressure: real)
      requires thickness > 0.0 && width > 0.0 && height > 0.0 && viscosity > 0.0
      ensures this.cells == cells && this.pumpingPressure == pumpingPressure
      ensures g == HydroC(thickness, width, height, viscosity)
    {
      this.cells, this.pumpingPressure := cells, pumpingPressure;
      g := HydroC(thickness, width, height, viscosity);
      mapping, nFluidCells, nnz := new int[0, 0], 0, 0;
      A, b := new real[0, 0], new real[0];
    }

    /** The first pair of loops. */
    method AssignNumbers()
      requires IsGrid(cells)
      modifies this`mapping, this`nFluidCells
      ensures fresh(mapping) && Numbered(cells, mapping) && nFluidCells == Count(cells)
    {
      hide Carries, Number;
      var table := new int[cells.nr, cells.nc];
      var n := 0;
      NumberSteps(cells, 0, 0);
      for i := 0 to cells.nr
        invariant n == Number(cells, i, 0)
        invariant forall r, q | 0 <= r < i && 0 <= q < cells.nc :: table[r, q] == Entry(cells, r, q)
      {
        for j := 0 to cells.nc
          invariant n == Number(cells, i, j)
          invariant forall r, q | 0 <= r < i && 0 <= q < cells.nc :: table[r, q] == Entry(cells, r, q)
          invariant forall q | 0 <= q < j :: table[i, q] == Entry(cells, i, q)
        {
          NumberSteps(cells, i, j);
          if Carries(cells, Pos(i, j)) {
            table[i, j] := n;
            n := n + 1;
          } else {
            table[i, j] := -1;
          }
        }
        NumberSteps(cells, i, cells.nc);
      }
      mapping, nFluidCells := table, n;
    }

    ghost predicate Ready()
      reads this, mapping
    {
      IsGrid(cells) && g > 0.0 && Numbered(cells, mapping) && A.Length0 == A.Length1 == Count(cells) == b.Length
    }

    method Lookup(x: Pos) returns (k: nat)
      requires Ready() && Carries(cells, x)
      ensures k == NumberOf(cells, x) < Count(cells)
    {
      hide NumberOf;
      NumberInRange(cells, x);
      k := mapping[x.i, x.j];
    }

    /** One of the four neighbours. */
    method Connect(row: nat, y: Pos, sum: real, ghost to: seq<Pos>) returns (sum': real)
      requires Ready() && row < Count(cells) && RowIs(A, row, Spread(cells, g, to)) && sum == -Conductances(g, |to|)
      modifies A, this`nnz
      ensures RowIs(A, row, Spread(cells, g, to + Toward(cells, y)))
      ensures sum' == -Conductances(g, |to + Toward(cells, y)|)
      ensures nnz == old(nnz) + |Toward(cells, y)|
      ensures OthersKept(A, row)
    {
      hide NumberOf, Count, Numbered, Spread, Conductances, Carries;
      sum' := sum;
      if Carries(cells, y) {
        var k := Lookup(y);
        SpreadMore(cells, g, to, y);
        A[row, k] := -g;
        sum' := sum' + -g;
        nnz := nnz + 1;
      } else {
        assert to + Toward(cells, y) == to;
      }
    }

    /** The row of a cell that is neither inlet nor outlet. */
    method FillFluidRow(x: Pos)
      requires Ready() && Carries(cells, x) && KindOf(cells, x).Fluid? && RowIs(A, NumberOf(cells, x), Zero)
      modifies A, this`nnz
      ensures RowIs(A, NumberOf(cells, x), Row(cells, g, x)) && nnz == old(nnz) + RowSize(cells, x)
      ensures OthersKept(A, NumberOf(cells, x))
    {
      hide Carries, NumberOf, Spread, Toward, Numbered, Conductances, Count;
      SpreadNothing(cells, g);
      var row := Lookup(x);
      ghost var n, s, w, e := Toward(cells, Pos(x.i - 1, x.j)), Toward(cells, Pos(x.i + 1, x.j)),
        Toward(cells, Pos(x.i, x.j - 1)), Toward(cells, Pos(x.i, x.j + 1));
      assert [] + n == n && Neighbours(cells, x) == n + s + w + e;
      var sum := Connect(row, Pos(x.i - 1, x.j), 0.0, []);
      sum := Connect(row, Pos(x.i + 1, x.j), sum, n);
      sum := Connect(row, Pos(x.i, x.j - 1), sum, n + s);
      sum := Connect(row, Pos(x.i, x.j + 1), sum, n + s + w);
      A[row, row] := -sum;
      nnz := nnz + 1;
    }

    /** The row and the right-hand side of a fluid cell of any kind. */
    method FillRow(x: Pos)
      requires Ready() && Carries(cells, x) && RowIs(A, NumberOf(cells, x), Zero) && NumberOf(cells, x) < Count(cells)
      requires b[NumberOf(cells, x)] == 0.0
      modifies A, b, this`nnz
      ensures RowIs(A, NumberOf(cells, x), Row(cells, g, x)) && b[NumberOf(cells, x)] == Rhs(cells, pumpingPressure, x)
      ensures OthersKept(A, NumberOf(cells, x)) && nnz == old(nnz) + RowSize(cells, x)
      ensures forall r | 0 <= r < b.Length && r != NumberOf(cells, x) :: b[r] == old(b[r])
    {
      hide Carries, NumberOf, Numbered, Row, RowSize;
      var k := Lookup(x);
      if KindOf(cells, x).Fluid? {
        FillFluidRow(x);
      }
      if KindOf(cells, x).Inlet? {
        EndRow(cells, g, x);
        A[k, k] := 1.0;
        b[k] := pumpingPressure;
        nnz := nnz + 1;
      } else if KindOf(cells, x).Outlet? {
        EndRow(cells, g, x);
        A[k, k] := 1.0;
        nnz := nnz + 1;
      } else {
        CarriesWhat(cells, x);
      }
    }

    /** The body of the second pair of loops. */
    method FillCell(i: nat, j: nat)
      requires Ready() && i < cells.nr && j < cells.nc && RowsDone(cells, g, pumpingPressure, A, b, Number(cells, i, j))
      requires nnz == Sizes(cells, Number(cells, i, j))
      modifies A, b, this`nnz
      ensures RowsDone(cells, g, pumpingPressure, A, b, Number(cells, i, j + 1))
      ensures nnz == Sizes(cells, Number(cells, i, j + 1))
    {
      hide Carries, Number, Numbered, RowSize, SystemMatrix, SystemRhs, Row, Rhs;
      var x := Pos(i, j);
      NumberSteps(cells, i, j);
      if Carries(cells, x) {
        RowNumber(cells, g, pumpingPressure, x);
        FillRow(x);
      }
    }

    /** Arrays of zeros. */
    method Allocate()
      requires IsGrid(cells) && g > 0.0 && Numbered(cells, mapping) && nFluidCells == Count(cells)
      modifies this`A, this`b, this`nnz
      ensures Ready() && fresh(A) && fresh(b) && RowsDone(cells, g, pumpingPressure, A, b, 0) && nnz == 0
    {
      hide Carries, Number, SystemMatrix, SystemRhs, Numbered;
      A := new real[nFluidCells, nFluidCells]((_, _) => 0.0);
      b := new real[nFluidCells](_ => 0.0);
      nnz := 0;
    }

    /** The second pair of loops. */
    method FillCells()
      requires Ready() && RowsDone(cells, g, pumpingPressure, A, b, 0) && nnz == 0
      modifies A, b, this`nnz
      ensures RowsDone(cells, g, pumpingPressure, A, b, Count(cells)) && nnz == Sizes(cells, Count(cells))
    {
      hide Carries, Number, RowsDone, Numbered, RowSize;
      NumberSteps(cells, 0, 0);
      for i := 0 to cells.nr
        invariant RowsDone(cells, g, pumpingPressure, A, b, Number(cells, i, 0)) && Number(cells, i, 0) <= Count(cells)
        invariant nnz == Sizes(cells, Number(cells, i, 0))
      {
        for j := 0 to cells.nc
          invariant RowsDone(cells, g, pumpingPressure, A, b, Number(cells, i, j))
          invariant Number(cells, i, j) <= Count(cells)
          invariant nnz == Sizes(cells, Number(cells, i, j))
        {
          NumberGrows(cells, i, j + 1, cells.nr, 0);
          FillCell(i, j);
        }
        NumberSteps(cells, i, cells.nc);
      }
    }

    /** build_pressure_matrix. */
    method BuildPressureMatrix()
      requires IsGrid(cells) && g > 0.0
      modifies this
      ensures Numbered(cells, mapping) && nFluidCells == Count(cells)
      ensures A.Length0 == A.Length1 == b.Length == Count(cells)
      ensures forall r, q | 0 <= r < Count(cells) && 0 <= q < Count(cells) :: A[r, q] == SystemMatrix(cells, g)(r, q)
      ensures forall r | 0 <= r < Count(cells) :: b[r] == SystemRhs(cells, pumpingPressure)(r)
      ensures nnz == Sizes(cells, Count(cells))
    {
      hide Carries, Number, SystemMatrix, SystemRhs, Numbered, RowSize;
      AssignNumbers();
      Allocate();
      FillCells();
    }
  }

  /** The row of the system that belongs to a cell. */
  lemma RowNumber(c: Channels, g: real, pump: real, x: Pos)
    requires IsGrid(c) && Carries(c, x)
    ensures var k := NumberOf(c, x);
            k < Count(c) && CellAt(c, k) == x && SystemRhs(c, pump)(k) == Rhs(c, pump, x) &&
            (forall q :: SystemMatrix(c, g)(k, q) == Row(c, g, x)(q)) &&
            Sizes(c, k + 1) == Sizes(c, k) + RowSize(c, x)
  {
    hide Carries, Number, Row, Rhs, RowSize;
    NumberingBijective(c);
  }

  lemma CarriesWhat(c: Channels, x: Pos)
    requires Carries(c, x)
    ensures KindOf(c, x).Fluid? || KindOf(c, x).Inlet? || KindOf(c, x).Outlet?
  {
  }

  twostate predicate OthersKept(a: array2<real>, row: int)
    reads a
  {
    forall r, q | 0 <= r < a.Length0 && r != row && 0 <= q < a.Length1 :: a[r, q] == old(a[r, q])
  }

  function Entry(c: Channels, i: nat, j: nat): int {
    if Carries(c, Pos(i, j)) then NumberOf(c, Pos(i, j)) else -1
  }

  lemma NumberSteps(c: Channels, i: nat, j: nat)
    ensures Number(c, i, j + 1) == Number(c, i, j) + (if Carries(c, Pos(i, j)) then 1 else 0)
    ensures Number(c, 0, 0) == 0 && Number(c, i + 1, 0) == Number(c, i, c.nc)
  {
  }

  lemma EndRow(c: Channels, g: real, x: Pos)
    requires Carries(c, x) && !KindOf(c, x).Fluid?
    ensures Row(c, g, x) == Put(Zero, NumberOf(c, x), 1.0) && RowSize(c, x) == 1
  {
  }
}
