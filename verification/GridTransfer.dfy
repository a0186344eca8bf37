/** Between a grid and one with half the rows and columns (HotSpot/temperature_grid.c): power is
    summed, temperatures are interpolated, and at the coarsest level they are guessed. */
module GridTransfer {
  import opened GridNetwork
  import opened GridSweep
  import L = LinearAlgebra

  /** The grid with twice the rows and columns. */
  function Doubled(m: Model): Model {
    m.(nr := 2 * m.nr, nc := 2 * m.nc)
  }

  // ----- writing a vector cell by cell -----

  /** The temperatures are the wanted ones wherever that is done. */
  ghost predicate Agree(m: Model, t: Temps, want: Temps, done: Node -> bool) {
    forall x | IsNode(m, x) && done(x) :: t(x) == want(x)
  }

  ghost predicate OneMore(m: Model, done: Node -> bool, x: Node, done': Node -> bool) {
    forall y | IsNode(m, y) && done'(y) :: done(y) || y == x
  }

  ghost predicate NoMore(m: Model, done: Node -> bool, done': Node -> bool) {
    forall y | IsNode(m, y) && done'(y) :: done(y)
  }

  method Fetch(m: Model, v: array<real>, x: Node) returns (r: real)
    requires v.Length == Size(m) && IsNode(m, x)
    ensures r == TempOf(m, v[..])(x)
  {
    TempAt(m, v[..], x);
    r := v[Index(m, x)];
  }

  method Write(m: Model, v: array<real>, x: Node, r: real, ghost want: Temps, ghost done: Node -> bool,
               ghost done': Node -> bool)
    requires v.Length == Size(m) && IsNode(m, x) && r == want(x)
    requires Agree(m, TempOf(m, v[..]), want, done) && OneMore(m, done, x, done')
    modifies v
    ensures Agree(m, TempOf(m, v[..]), want, done')
  {
    TempPut(m, v[..], x, r);
    TempAt(m, v[..], x);
    hide TempOf, Index, Size;
    v[Index(m, x)] := r;
  }

  lemma AgreeFewer(m: Model, t: Temps, want: Temps, done: Node -> bool, done': Node -> bool)
    requires Agree(m, t, want, done) && NoMore(m, done, done')
    ensures Agree(m, t, want, done')
  {
  }

  // ----- restriction -----

  function FourOf(t: Temps, l: int, i: int, j: int): real {
    t(Cell(l, 2 * i, 2 * j)) + t(Cell(l, 2 * i + 1, 2 * j)) + t(Cell(l, 2 * i, 2 * j + 1)) +
    t(Cell(l, 2 * i + 1, 2 * j + 1))
  }

  /** A coarse cell gets what its four fine cells have together. */
  function Restricted(t: Temps): Temps {
    (x: Node) =>
      match x
      case Cell(l, i, j) => FourOf(t, l, i, j)
      case Extra(_) => t(x)
  }

  function CellsUpTo(l: int, i: int, j: int): Node -> bool {
    (x: Node) => x.Cell? && (x.l < l || (x.l == l && (x.i < i || (x.i == i && x.j < j))))
  }

  function CellsAndExtras(k: int): Node -> bool {
    (x: Node) => x.Cell? || x.e < k
  }

  /** multigrid_restrict_power. */
  method MultigridRestrictPower(m: Model, dst: array<real>, src: array<real>)
    requires dst.Length == Size(m) && src.Length == Size(Doubled(m)) && dst != src
    modifies dst
    ensures forall x | IsNode(m, x) :: TempOf(m, dst[..])(x) == Restricted(TempOf(Doubled(m), src[..]))(x)
  {
    hide TempOf, Size, Restricted;
    ghost var want := Restricted(TempOf(Doubled(m), src[..]));
    for l := 0 to |m.layers|
      invariant Agree(m, TempOf(m, dst[..]), want, CellsUpTo(l, 0, 0))
    {
      for i := 0 to m.nr
        invariant Agree(m, TempOf(m, dst[..]), want, CellsUpTo(l, i, 0))
      {
        for j := 0 to m.nc
          invariant Agree(m, TempOf(m, dst[..]), want, CellsUpTo(l, i, j))
        {
          var sum := SumOfFour(m, src, l, i, j);
          Write(m, dst, Cell(l, i, j), sum, want, CellsUpTo(l, i, j), CellsUpTo(l, i, j + 1));
        }
        AgreeFewer(m, TempOf(m, dst[..]), want, CellsUpTo(l, i, m.nc), CellsUpTo(l, i + 1, 0));
      }
      AgreeFewer(m, TempOf(m, dst[..]), want, CellsUpTo(l, m.nr, 0), CellsUpTo(l + 1, 0, 0));
    }
    AgreeFewer(m, TempOf(m, dst[..]), want, CellsUpTo(|m.layers|, 0, 0), CellsAndExtras(0));
    RestrictedExtra(TempOf(Doubled(m), src[..]));
    CopyExtra(m, dst, Doubled(m), src, want);
  }

  lemma RestrictedExtra(t: Temps)
    ensures forall e :: Restricted(t)(Extra(e)) == t(Extra(e))
  {
  }

  method SumOfFour(m: Model, src: array<real>, l: nat, i: nat, j: nat) returns (sum: real)
    requires src.Length == Size(Doubled(m)) && IsNode(m, Cell(l, i, j))
    ensures sum == Restricted(TempOf(Doubled(m), src[..]))(Cell(l, i, j))
  {
    hide TempOf, Size;
    var f := Doubled(m);
    ghost var t := TempOf(f, src[..]);
    var a := Fetch(f, src, Cell(l, 2 * i, 2 * j));
    var b := Fetch(f, src, Cell(l, 2 * i + 1, 2 * j));
    var c := Fetch(f, src, Cell(l, 2 * i, 2 * j + 1));
    var d := Fetch(f, src, Cell(l, 2 * i + 1, 2 * j + 1));
    sum := a + b + c + d;
    assert sum == FourOf(t, l, i, j);
  }

  /** The nodes around the grid are copied as they are. */
  method CopyExtra(m: Model, dst: array<real>, m': Model, src: array<real>, ghost want: Temps)
    requires dst.Length == Size(m) && src.Length == Size(m') && dst != src && m.secondary == m'.secondary
    requires Agree(m, TempOf(m, dst[..]), want, CellsAndExtras(0))
    requires forall e | 0 <= e < ExtraCount(m) :: want(Extra(e)) == TempOf(m', src[..])(Extra(e))
    modifies dst
    ensures forall x | IsNode(m, x) :: TempOf(m, dst[..])(x) == want(x)
  {
    hide TempOf, Size;
    for e := 0 to ExtraCount(m)
      invariant Agree(m, TempOf(m, dst[..]), want, CellsAndExtras(e))
    {
      var r := Fetch(m', src, Extra(e));
      Write(m, dst, Extra(e), r, want, CellsAndExtras(e), CellsAndExtras(e + 1));
    }
  }

  function LayerMat(t: Temps, l: int): L.Mat {
    (i, j) => t(Cell(l, i, j))
  }

  /** All the power of a layer. */
  function LayerTotal(m: Model, t: Temps, l: int): real {
    L.TotalSum(m.nr, m.nc, LayerMat(t, l))
  }

  function Pairs(f: L.Vec): L.Vec {
    i => f(2 * i) + f(2 * i + 1)
  }

  lemma {:induction false} SumOfPairs(n: nat, f: L.Vec)
    ensures L.Sum(2 * n, f) == L.Sum(n, Pairs(f))
  {
    if n > 0 {
      SumOfPairs(n - 1, f);
      assert L.Sum(2 * n, f) == L.Sum(2 * n - 2, f) + f(2 * n - 2) + f(2 * n - 1);
    }
  }

  /** Restriction keeps the power of each layer. */
  lemma RestrictionConserves(m: Model, t: Temps, l: int)
    ensures LayerTotal(m, Restricted(t), l) == LayerTotal(Doubled(m), t, l)
  {
    hide L.Sum;
    var fine, coarse := LayerMat(t, l), LayerMat(Restricted(t), l);
    var rows := L.RowSums(2 * m.nr, 2 * m.nc, fine);
    SumOfPairs(m.nr, rows);
    forall i | 0 <= i < m.nr
      ensures Pairs(rows)(i) == L.RowSums(m.nr, m.nc, coarse)(i)
    {
      var upper, lower := L.RowOf(fine, 2 * i), L.RowOf(fine, 2 * i + 1);
      SumOfPairs(m.nc, upper);
      SumOfPairs(m.nc, lower);
      forall j | 0 <= j < m.nc
        ensures L.RowOf(coarse, i)(j) == Pairs(upper)(j) + Pairs(lower)(j)
      {
        assert coarse(i, j) == FourOf(t, l, i, j);
      }
      L.SumPlus(m.nc, Pairs(upper), Pairs(lower), L.RowOf(coarse, i));
    }
    L.SumSame(m.nr, Pairs(rows), L.RowSums(m.nr, m.nc, coarse));
  }

  // ----- prolongation -----

  /** The coarse row (or column) that a fine one lies in, and the next nearest one. */
  function Near(i: int): int {
    i / 2
  }

  function Far(i: int): int {
    if i % 2 == 1 then i / 2 + 1 else i / 2 - 1
  }

  /** Not at the boundary of the fine grid. */
  predicate Inner(m: Model, i: int, j: int) {
    1 <= i <= 2 * m.nr - 2 && 1 <= j <= 2 * m.nc - 2
  }

  /** Linear interpolation between two cells, a quarter of the way. */
  function Blend(near: real, far: real): real {
    0.75 * near + 0.25 * far
  }

  /** Inside the grid, interpolation along rows and then along columns; at its boundary, what the
      nearest coarse cell has. */
  function Prolonged(m: Model, t: Temps): Temps {
    (x: Node) =>
      match x
      case Cell(l, i, j) =>
        if Inner(m, i, j) then
          Blend(Blend(t(Cell(l, Near(i), Near(j))), t(Cell(l, Near(i), Far(j)))),
                Blend(t(Cell(l, Far(i), Near(j))), t(Cell(l, Far(i), Far(j)))))
        else t(Cell(l, Near(i), Near(j)))
      case Extra(_) => t(x)
  }

  /** No value outside those of the coarse grid. */
  lemma ProlongedBetween(m: Model, t: Temps, low: real, high: real, x: Node)
    requires IsNode(Doubled(m), x)
    ensures (forall y | IsNode(m, y) :: low <= t(y)) ==> low <= Prolonged(m, t)(x)
    ensures (forall y | IsNode(m, y) :: t(y) <= high) ==> Prolonged(m, t)(x) <= high
  {
    if x.Cell? {
      assert IsNode(m, Cell(x.l, Near(x.i), Near(x.j)));
      if Inner(m, x.i, x.j) {
        assert IsNode(m, Cell(x.l, Near(x.i), Far(x.j)));
        assert IsNode(m, Cell(x.l, Far(x.i), Near(x.j)));
        assert IsNode(m, Cell(x.l, Far(x.i), Far(x.j)));
      }
    }
  }

  /** A field that is linear in the place of a cell's middle. */
  function Linear(a: real, b: real, c: real, y: real, x: real): real {
    a + b * y + c * x
  }

  /** Inside the grid interpolation is exact for linear fields: the middle of coarse cell i is at
      2i + 1/2, counted in fine cells. */
  lemma ProlongedExact(m: Model, t: Temps, a: real, b: real, c: real, l: int, i: int, j: int)
    requires forall p, q :: t(Cell(l, p, q)) == Linear(a, b, c, 2.0 * p as real + 0.5, 2.0 * q as real + 0.5)
    requires Inner(m, i, j)
    ensures Prolonged(m, t)(Cell(l, i, j)) == Linear(a, b, c, i as real, j as real)
  {
    Quarter(i);
    Quarter(j);
    hide Near, Far;
    var y, y', x, x' := 2.0 * Near(i) as real + 0.5, 2.0 * Far(i) as real + 0.5, 2.0 * Near(j) as real + 0.5,
      2.0 * Far(j) as real + 0.5;
    BlendLinear(a, b, c, y, y, x, x');
    BlendLinear(a, b, c, y', y', x, x');
    BlendLinear(a, b, c, y, y', j as real, j as real);
  }

  /** At its boundary it is off by half a fine cell in each direction, and no more. */
  lemma ProlongedAtRim(m: Model, t: Temps, a: real, b: real, c: real, l: int, i: int, j: int)
    requires forall p, q :: t(Cell(l, p, q)) == Linear(a, b, c, 2.0 * p as real + 0.5, 2.0 * q as real + 0.5)
    requires !Inner(m, i, j)
    ensures var y, x := if i % 2 == 0 then i as real + 0.5 else i as real - 0.5,
                        if j % 2 == 0 then j as real + 0.5 else j as real - 0.5;
            Prolonged(m, t)(Cell(l, i, j)) == Linear(a, b, c, y, x)
  {
  }

  lemma Quarter(i: int)
    ensures Blend(2.0 * Near(i) as real + 0.5, 2.0 * Far(i) as real + 0.5) == i as real
  {
  }

  lemma BlendLinear(a: real, b: real, c: real, y: real, y': real, x: real, x': real)
    ensures Blend(Linear(a, b, c, y, x), Linear(a, b, c, y', x')) == Linear(a, b, c, Blend(y, y'), Blend(x, x'))
  {
    Distributes(b, y, y');
    Distributes(c, x, x');
  }

  lemma Distributes(b: real, y: real, y': real)
    ensures b * Blend(y, y') == Blend(b * y, b * y')
  {
  }

  // ----- the loops of the prolongation -----

  /** Inner fine cells come in fours: between coarse cells (i, j) and (i + 1, j + 1). */
  function InnerUpTo(m: Model, l: int, i: int, j: int): Node -> bool {
    (x: Node) => x.Cell? && Inner(m, x.i, x.j) &&
      (x.l < l || (x.l == l && ((x.i - 1) / 2 < i || ((x.i - 1) / 2 == i && (x.j - 1) / 2 < j))))
  }

  function RimUpTo(m: Model, l: int, i: int, j: int): Node -> bool {
    (x: Node) => x.Cell? &&
      (x.l < l || Inner(m, x.i, x.j) ||
       (x.l == l && (((x.j == 0 || x.j == 2 * m.nc - 1) && x.i / 2 < i) ||
                     ((x.i == 0 || x.i == 2 * m.nr - 1) && x.j / 2 < j))))
  }

  /** Three of the four are done. */
  function Also(done: Node -> bool, x: Node): Node -> bool {
    (y: Node) => done(y) || y == x
  }

  method WriteAlso(m: Model, v: array<real>, x: Node, r: real, ghost want: Temps, ghost done: Node -> bool)
    requires v.Length == Size(m) && IsNode(m, x) && r == want(x) && Agree(m, TempOf(m, v[..]), want, done)
    modifies v
    ensures Agree(m, TempOf(m, v[..]), want, Also(done, x))
  {
    Write(m, v, x, r, want, done, Also(done, x));
  }

  method FillFour(m: Model, dst: array<real>, src: array<real>, l: nat, i: nat, j: nat, ghost want: Temps)
    requires dst.Length == Size(Doubled(m)) && src.Length == Size(m) && dst != src
    requires want == Prolonged(m, TempOf(m, src[..]))
    requires l < |m.layers| && i < m.nr - 1 && j < m.nc - 1
    requires Agree(Doubled(m), TempOf(Doubled(m), dst[..]), want, InnerUpTo(m, l, i, j))
    modifies dst
    ensures Agree(Doubled(m), TempOf(Doubled(m), dst[..]), want, InnerUpTo(m, l, i, j + 1))
  {
    hide TempOf, Size, Prolonged;
    var f := Doubled(m);
    var a := Fetch(m, src, Cell(l, i, j));
    var b := Fetch(m, src, Cell(l, i + 1, j));
    var c := Fetch(m, src, Cell(l, i + 1, j + 1));
    var d := Fetch(m, src, Cell(l, i, j + 1));
    ghost var done := InnerUpTo(m, l, i, j);
    FourValues(m, TempOf(m, src[..]), l, i, j);
    var x, y, z, w := Cell(l, 2 * i + 1, 2 * j + 1), Cell(l, 2 * i + 2, 2 * j + 1), Cell(l, 2 * i + 2, 2 * j + 2),
      Cell(l, 2 * i + 1, 2 * j + 2);
    WriteAlso(f, dst, x, 9.0 / 16.0 * a + 3.0 / 16.0 * b + 1.0 / 16.0 * c + 3.0 / 16.0 * d, want, done);
    WriteAlso(f, dst, y, 3.0 / 16.0 * a + 9.0 / 16.0 * b + 3.0 / 16.0 * c + 1.0 / 16.0 * d, want, Also(done, x));
    WriteAlso(f, dst, z, 1.0 / 16.0 * a + 3.0 / 16.0 * b + 9.0 / 16.0 * c + 3.0 / 16.0 * d, want,
              Also(Also(done, x), y));
    WriteAlso(f, dst, w, 3.0 / 16.0 * a + 1.0 / 16.0 * b + 3.0 / 16.0 * c + 9.0 / 16.0 * d, want,
              Also(Also(Also(done, x), y), z));
    AllFour(m, l, i, j);
    AgreeFewer(f, TempOf(f, dst[..]), want, Also(Also(Also(Also(done, x), y), z), w), InnerUpTo(m, l, i, j + 1));
  }

  /** The weights 9, 3, 3 and 1 are those of interpolating twice. */
  lemma FourValues(m: Model, t: Temps, l: int, i: int, j: int)
    requires 0 <= i < m.nr - 1 && 0 <= j < m.nc - 1
    ensures var a, b, c, d := t(Cell(l, i, j)), t(Cell(l, i + 1, j)), t(Cell(l, i + 1, j + 1)), t(Cell(l, i, j + 1));
            var p := Prolonged(m, t);
            p(Cell(l, 2 * i + 1, 2 * j + 1)) == 9.0 / 16.0 * a + 3.0 / 16.0 * b + 1.0 / 16.0 * c + 3.0 / 16.0 * d &&
            p(Cell(l, 2 * i + 2, 2 * j + 1)) == 3.0 / 16.0 * a + 9.0 / 16.0 * b + 3.0 / 16.0 * c + 1.0 / 16.0 * d &&
            p(Cell(l, 2 * i + 2, 2 * j + 2)) == 1.0 / 16.0 * a + 3.0 / 16.0 * b + 9.0 / 16.0 * c + 3.0 / 16.0 * d &&
            p(Cell(l, 2 * i + 1, 2 * j + 2)) == 3.0 / 16.0 * a + 1.0 / 16.0 * b + 3.0 / 16.0 * c + 9.0 / 16.0 * d
  {
    OddEven(i);
    OddEven(j);
    hide Near, Far;
  }

  lemma OddEven(i: int)
    ensures Near(2 * i + 1) == i && Far(2 * i + 1) == i + 1 && Near(2 * i + 2) == i + 1 && Far(2 * i + 2) == i
  {
  }

  lemma AllFour(m: Model, l: int, i: int, j: int)
    ensures var x, y, z, w := Cell(l, 2 * i + 1, 2 * j + 1), Cell(l, 2 * i + 2, 2 * j + 1),
            Cell(l, 2 * i + 2, 2 * j + 2), Cell(l, 2 * i + 1, 2 * j + 2);
            NoMore(Doubled(m), Also(Also(Also(Also(InnerUpTo(m, l, i, j), x), y), z), w), InnerUpTo(m, l, i, j + 1))
  {
  }

  /** One row of the inner part. */
  method FillInnerRow(m: Model, dst: array<real>, src: array<real>, l: nat, i: nat, ghost want: Temps)
    requires dst.Length == Size(Doubled(m)) && src.Length == Size(m) && dst != src
    requires want == Prolonged(m, TempOf(m, src[..]))
    requires l < |m.layers| && i < m.nr - 1 && m.nc >= 1
    requires Agree(Doubled(m), TempOf(Doubled(m), dst[..]), want, InnerUpTo(m, l, i, 0))
    modifies dst
    ensures Agree(Doubled(m), TempOf(Doubled(m), dst[..]), want, InnerUpTo(m, l, i + 1, 0))
  {
    hide TempOf, Size, Prolonged, Doubled;
    for j := 0 to m.nc - 1
      invariant Agree(Doubled(m), TempOf(Doubled(m), dst[..]), want, InnerUpTo(m, l, i, j))
    {
      FillFour(m, dst, src, l, i, j, want);
    }
    RowFull(m, l, i);
    AgreeFewer(Doubled(m), TempOf(Doubled(m), dst[..]), want, InnerUpTo(m, l, i, m.nc - 1), InnerUpTo(m, l, i + 1, 0));
  }

  lemma RowFull(m: Model, l: int, i: int)
    ensures NoMore(Doubled(m), InnerUpTo(m, l, i, m.nc - 1), InnerUpTo(m, l, i + 1, 0))
    ensures NoMore(Doubled(m), InnerUpTo(m, l, m.nr - 1, 0), InnerUpTo(m, l + 1, 0, 0))
  {
  }

  /** The outer columns of one layer. */
  method FillOuterColumns(m: Model, dst: array<real>, src: array<real>, l: nat, ghost want: Temps)
    requires dst.Length == Size(Doubled(m)) && src.Length == Size(m) && dst != src
    requires want == Prolonged(m, TempOf(m, src[..]))
    requires l < |m.layers| && m.nr >= 1 && m.nc >= 1
    requires Agree(Doubled(m), TempOf(Doubled(m), dst[..]), want, RimUpTo(m, l, 0, 0))
    modifies dst
    ensures Agree(Doubled(m), TempOf(Doubled(m), dst[..]), want, RimUpTo(m, l, m.nr, 0))
  {
    hide TempOf, Size, Prolonged, RimUpTo, Agree, Also;
    for i := 0 to m.nr
      invariant Agree(Doubled(m), TempOf(Doubled(m), dst[..]), want, RimUpTo(m, l, i, 0))
    {
      var w, w', e, e' := Cell(l, 2 * i, 0), Cell(l, 2 * i + 1, 0), Cell(l, 2 * i, 2 * m.nc - 1),
        Cell(l, 2 * i + 1, 2 * m.nc - 1);
      ghost var done := RimUpTo(m, l, i, 0);
      FillPair(m, dst, src, Cell(l, i, 0), w, w', want, done);
      FillPair(m, dst, src, Cell(l, i, m.nc - 1), e, e', want, Also(Also(done, w), w'));
      RimColumns(m, l, i);
      AgreeFewer(Doubled(m), TempOf(Doubled(m), dst[..]), want, Also(Also(Also(Also(done, w), w'), e), e'),
                 RimUpTo(m, l, i + 1, 0));
    }
  }

  /** The outer rows of one layer. */
  method FillOuterRows(m: Model, dst: array<real>, src: array<real>, l: nat, ghost want: Temps)
    requires dst.Length == Size(Doubled(m)) && src.Length == Size(m) && dst != src
    requires want == Prolonged(m, TempOf(m, src[..]))
    requires l < |m.layers| && m.nr >= 1 && m.nc >= 1
    requires Agree(Doubled(m), TempOf(Doubled(m), dst[..]), want, RimUpTo(m, l, m.nr, 0))
    modifies dst
    ensures Agree(Doubled(m), TempOf(Doubled(m), dst[..]), want, RimUpTo(m, l, m.nr, m.nc))
  {
    hide TempOf, Size, Prolonged, RimUpTo, Agree, Also;
    for j := 0 to m.nc
      invariant Agree(Doubled(m), TempOf(Doubled(m), dst[..]), want, RimUpTo(m, l, m.nr, j))
    {
      var n, n', s, s' := Cell(l, 0, 2 * j), Cell(l, 0, 2 * j + 1), Cell(l, 2 * m.nr - 1, 2 * j),
        Cell(l, 2 * m.nr - 1, 2 * j + 1);
      ghost var done := RimUpTo(m, l, m.nr, j);
      FillPair(m, dst, src, Cell(l, 0, j), n, n', want, done);
      FillPair(m, dst, src, Cell(l, m.nr - 1, j), s, s', want, Also(Also(done, n), n'));
      RimRows(m, l, j);
      AgreeFewer(Doubled(m), TempOf(Doubled(m), dst[..]), want, Also(Also(Also(Also(done, n), n'), s), s'),
                 RimUpTo(m, l, m.nr, j + 1));
    }
  }

  /** The boundary of one layer. */
  method FillRim(m: Model, dst: array<real>, src: array<real>, l: nat, ghost want: Temps)
    requires dst.Length == Size(Doubled(m)) && src.Length == Size(m) && dst != src
    requires want == Prolonged(m, TempOf(m, src[..]))
    requires l < |m.layers| && m.nr >= 1 && m.nc >= 1
    requires Agree(Doubled(m), TempOf(Doubled(m), dst[..]), want, RimUpTo(m, l, 0, 0))
    modifies dst
    ensures Agree(Doubled(m), TempOf(Doubled(m), dst[..]), want, RimUpTo(m, l + 1, 0, 0))
  {
    hide TempOf, Size, Prolonged, RimUpTo, Agree;
    FillOuterColumns(m, dst, src, l, want);
    FillOuterRows(m, dst, src, l, want);
    RimFull(m, l);
    AgreeFewer(Doubled(m), TempOf(Doubled(m), dst[..]), want, RimUpTo(m, l, m.nr, m.nc), RimUpTo(m, l + 1, 0, 0));
  }

  /** Two cells at the boundary get what the coarse cell has that they lie in. */
  method FillPair(m: Model, dst: array<real>, src: array<real>, from: Node, x: Node, y: Node, ghost want: Temps,
                  ghost done: Node -> bool)
    requires dst.Length == Size(Doubled(m)) && src.Length == Size(m) && dst != src
    requires want == Prolonged(m, TempOf(m, src[..]))
    requires IsNode(m, from) && OnRim(m, from, x) && OnRim(m, from, y)
    requires Agree(Doubled(m), TempOf(Doubled(m), dst[..]), want, done)
    modifies dst
    ensures Agree(Doubled(m), TempOf(Doubled(m), dst[..]), want, Also(Also(done, x), y))
  {
    hide TempOf, Size;
    var r := Fetch(m, src, from);
    WriteAlso(Doubled(m), dst, x, r, want, done);
    WriteAlso(Doubled(m), dst, y, r, want, Also(done, x));
  }

  predicate OnRim(m: Model, from: Node, x: Node) {
    from.Cell? && x.Cell? && IsNode(Doubled(m), x) && !Inner(m, x.i, x.j) &&
    from.l == x.l && from.i == Near(x.i) && from.j == Near(x.j)
  }

  lemma RimColumns(m: Model, l: int, i: int)
    ensures NoMore(Doubled(m),
              Also(Also(Also(Also(RimUpTo(m, l, i, 0), Cell(l, 2 * i, 0)), Cell(l, 2 * i + 1, 0)),
                        Cell(l, 2 * i, 2 * m.nc - 1)), Cell(l, 2 * i + 1, 2 * m.nc - 1)),
              RimUpTo(m, l, i + 1, 0))
  {
  }

  lemma RimRows(m: Model, l: int, j: int)
    ensures NoMore(Doubled(m),
              Also(Also(Also(Also(RimUpTo(m, l, m.nr, j), Cell(l, 0, 2 * j)), Cell(l, 0, 2 * j + 1)),
                        Cell(l, 2 * m.nr - 1, 2 * j)), Cell(l, 2 * m.nr - 1, 2 * j + 1)),
              RimUpTo(m, l, m.nr, j + 1))
  {
  }

  lemma RimFull(m: Model, l: int)
    ensures NoMore(Doubled(m), RimUpTo(m, l, m.nr, m.nc), RimUpTo(m, l + 1, 0, 0))
    ensures NoMore(Doubled(m), InnerUpTo(m, |m.layers|, 0, 0), RimUpTo(m, 0, 0, 0))
    ensures NoMore(Doubled(m), RimUpTo(m, |m.layers|, 0, 0), CellsAndExtras(0))
  {
  }

  /** multigrid_prolong_temp. */
  method MultigridProlongTemp(m: Model, dst: array<real>, src: array<real>)
    requires m.nr >= 1 && m.nc >= 1 && dst.Length == Size(Doubled(m)) && src.Length == Size(m) && dst != src
    modifies dst
    ensures forall x | IsNode(Doubled(m), x) :: TempOf(Doubled(m), dst[..])(x) == Prolonged(m, TempOf(m, src[..]))(x)
  {
    hide TempOf, Size, Prolonged;
    var f := Doubled(m);
    ghost var want := Prolonged(m, TempOf(m, src[..]));
    for l := 0 to |m.layers|
      invariant Agree(f, TempOf(f, dst[..]), want, InnerUpTo(m, l, 0, 0))
    {
      for i := 0 to m.nr - 1
        invariant Agree(f, TempOf(f, dst[..]), want, InnerUpTo(m, l, i, 0))
      {
        FillInnerRow(m, dst, src, l, i, want);
      }
      RowFull(m, l, m.nr - 1);
      AgreeFewer(f, TempOf(f, dst[..]), want, InnerUpTo(m, l, m.nr - 1, 0), InnerUpTo(m, l + 1, 0, 0));
    }
    RimFull(m, 0);
    AgreeFewer(f, TempOf(f, dst[..]), want, InnerUpTo(m, |m.layers|, 0, 0), RimUpTo(m, 0, 0, 0));
    for l := 0 to |m.layers|
      invariant Agree(f, TempOf(f, dst[..]), want, RimUpTo(m, l, 0, 0))
    {
      FillRim(m, dst, src, l, want);
    }
    AgreeFewer(f, TempOf(f, dst[..]), want, RimUpTo(m, |m.layers|, 0, 0), CellsAndExtras(0));
    ProlongedExtra(m, TempOf(m, src[..]));
    CopyExtra(f, dst, m, src, want);
  }

  lemma ProlongedExtra(m: Model, t: Temps)
    ensures forall e :: Prolonged(m, t)(Extra(e)) == t(Extra(e))
  {
  }
}
