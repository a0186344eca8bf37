/** The translation of a whole vector of block powers or temperatures to the grid, and of temperatures
    back (xlate_vector_b2g and xlate_temp_g2b, HotSpot/temperature_grid.c): layer after layer, each with
    its part of the block vector, and then the nodes around the grid. */
module GridXlate {
  import opened Geometry
  import opened LinearAlgebra
  import opened GridMap

  /** The floorplans of the layers, and whether there is a secondary heat path. */
  datatype Stack = Stack(grid: Grid, flps: seq<seq<Rect>>, secondary: bool) {
    ghost predicate Proper() {
      grid.Proper() && forall n | 0 <= n < |flps| :: AllSolid(flps[n])
    }
  }

  /** Where the blocks of a layer begin in the block vector. */
  function Base(flps: seq<seq<Rect>>, n: nat): nat
    requires n <= |flps|
  {
    if n == 0 then 0 else Base(flps, n - 1) + |flps[n - 1]|
  }

  lemma {:induction false} BaseOrdered(flps: seq<seq<Rect>>, n: nat, k: nat)
    requires n <= k <= |flps|
    ensures Base(flps, n) <= Base(flps, k)
  {
    if n < k {
      BaseOrdered(flps, n, k - 1);
    }
  }

  /** The part of the block vector that belongs to a layer. */
  function Part(flps: seq<seq<Rect>>, b: seq<real>, n: nat): (v: seq<real>)
    requires n < |flps| && |b| >= Base(flps, |flps|)
    ensures |v| == |flps[n]|
  {
    BaseOrdered(flps, n + 1, |flps|);
    b[Base(flps, n)..Base(flps, n + 1)]
  }

  /** The layer that draws power even when idle. */
  function IdleLayer(secondary: bool): nat {
    if secondary then 5 else 0
  }

  function IdlePart(s: Stack, kind: VectorType, idle: seq<real>, n: int, i: int, j: int): real {
    if kind == V_POWER && n == IdleLayer(s.secondary) then IDLE_FACTOR * IdleMat(s.grid, idle)(i, j) else 0.0
  }

  ghost function GridValue(s: Stack, b: seq<real>, kind: VectorType, idle: seq<real>, n: nat, i: int, j: int): real
    requires s.Proper() && n < |s.flps| && |b| >= Base(s.flps, |s.flps|)
  {
    CellValue(s.grid, s.flps[n], Part(s.flps, b, n), kind, i, j) + IdlePart(s, kind, idle, n, i, j)
  }

  /** So far these cells are translated. */
  ghost predicate Translated(s: Stack, b: seq<real>, kind: VectorType, idle: seq<real>, g: array3<real>, n: int, i: int,
                             j: int)
    requires s.Proper() && |b| >= Base(s.flps, |s.flps|)
    requires g.Length0 == |s.flps| && g.Length1 == s.grid.rows && g.Length2 == s.grid.cols
    reads g
  {
    forall l, r, c | 0 <= l < |s.flps| && 0 <= r < s.grid.rows && 0 <= c < s.grid.cols &&
                     (l < n || (l == n && (r < i || (r == i && c < j)))) ::
      g[l, r, c] == GridValue(s, b, kind, idle, l, r, c)
  }

  /** The map of a layer, as set_bgmap leaves it. */
  ghost predicate Mapped(grid: Grid, units: seq<Rect>, b2gmap: array2<seq<Entry>>)
    requires grid.Proper()
    reads b2gmap
  {
    b2gmap.Length0 == grid.rows && b2gmap.Length1 == grid.cols &&
    forall i, j | 0 <= i < grid.rows && 0 <= j < grid.cols :: b2gmap[i, j] == ListOf(grid, units, |units|, i, j)
  }

  method XlateCell(s: Stack, b: array<real>, base: nat, kind: VectorType, idle: seq<real>, b2gmap: array2<seq<Entry>>,
                   area: real, n: nat, i: nat, j: nat) returns (value: real)
    requires s.Proper() && n < |s.flps| && b.Length >= Base(s.flps, |s.flps|) && base == Base(s.flps, n)
    requires i < s.grid.rows && j < s.grid.cols && Mapped(s.grid, s.flps[n], b2gmap) && area == CellArea(s.grid)
    requires |idle| == s.grid.rows * s.grid.cols
    ensures value == GridValue(s, b[..], kind, idle, n, i, j)
  {
    hide CellValue, CellArea, ListOf, Grid.Proper, AllSolid;
    BaseOrdered(s.flps, n + 1, |s.flps|);
    value := CellOf(s.grid, s.flps[n], b[base..base + |s.flps[n]|], kind, b2gmap[i, j], area, i, j);
    assert b[base..base + |s.flps[n]|] == Part(s.flps, b[..], n);
    CellIndex(s.grid, i, j);
    if kind == V_POWER {
      if s.secondary {
        if n == 5 {
          value := value + idle[s.grid.cols * i + j] * IDLE_FACTOR;
        }
      } else {
        if n == 0 {
          value := value + idle[s.grid.cols * i + j] * IDLE_FACTOR;
        }
      }
    }
  }

  /** The loops over the cells of a layer. */
  method XlateLayer(s: Stack, b: array<real>, base: nat, kind: VectorType, idle: seq<real>, b2gmap: array2<seq<Entry>>,
                    area: real, g: array3<real>, n: nat)
    requires s.Proper() && n < |s.flps| && b.Length >= Base(s.flps, |s.flps|) && base == Base(s.flps, n)
    requires |idle| == s.grid.rows * s.grid.cols
    requires g.Length0 == |s.flps| && g.Length1 == s.grid.rows && g.Length2 == s.grid.cols
    requires Mapped(s.grid, s.flps[n], b2gmap) && area == CellArea(s.grid)
    requires Translated(s, b[..], kind, idle, g, n, 0, 0)
    modifies g
    ensures Translated(s, b[..], kind, idle, g, n + 1, 0, 0)
  {
    hide GridValue, CellArea, AllSolid, Mapped;
    for i := 0 to s.grid.rows
      invariant Translated(s, b[..], kind, idle, g, n, i, 0)
    {
      for j := 0 to s.grid.cols
        invariant Translated(s, b[..], kind, idle, g, n, i, j)
      {
        g[n, i, j] := XlateCell(s, b, base, kind, idle, b2gmap, area, n, i, j);
      }
    }
  }

  /** xlate_vector_b2g. */
  method XlateVectorB2g(s: Stack, b: array<real>, kind: VectorType, idle: seq<real>, b2gmaps: seq<array2<seq<Entry>>>,
                        g: array3<real>, extra: array<real>)
    requires s.Proper() && b.Length == Base(s.flps, |s.flps|) + extra.Length && |idle| == s.grid.rows * s.grid.cols
    requires extra != b
    requires g.Length0 == |s.flps| && g.Length1 == s.grid.rows && g.Length2 == s.grid.cols
    requires |b2gmaps| == |s.flps| && forall n | 0 <= n < |s.flps| :: Mapped(s.grid, s.flps[n], b2gmaps[n])
    modifies g, extra
    ensures forall n, i, j | 0 <= n < |s.flps| && 0 <= i < s.grid.rows && 0 <= j < s.grid.cols ::
              g[n, i, j] == GridValue(s, b[..], kind, idle, n, i, j)
    ensures extra[..] == b[Base(s.flps, |s.flps|)..]
  {
    hide GridValue, CellArea, AllSolid, Mapped;
    var area := (s.grid.width * s.grid.height) / (s.grid.cols as real * s.grid.rows as real);
    AreaOfCell(s.grid, area);
    var base := 0;
    for n := 0 to |s.flps|
      invariant base == Base(s.flps, n) && Translated(s, b[..], kind, idle, g, n, 0, 0)
    {
      XlateLayer(s, b, base, kind, idle, b2gmaps[n], area, g, n);
      base := base + |s.flps[n]|;
    }
    for e := 0 to extra.Length
      invariant extra[..e] == b[base..base + e] && Translated(s, b[..], kind, idle, g, |s.flps|, 0, 0)
    {
      extra[e] := b[base + e];
    }
  }

  // ----- nothing is lost -----

  /** The power of each of the layers. */
  function LayerPowers(grid: Grid, g: seq<Mat>): Vec {
    n => if 0 <= n < |g| then TotalSum(grid.rows, grid.cols, g[n]) else 0.0
  }

  /** The idle power of the first n layers. */
  function IdleBelow(s: Stack, idle: seq<real>, n: int): real {
    if n > IdleLayer(s.secondary) then IDLE_FACTOR * TotalSum(s.grid.rows, s.grid.cols, IdleMat(s.grid, idle)) else 0.0
  }

  /** All the cells have the power of all the blocks, and that of the idle layer if there is one. */
  lemma {:induction false} AllPowerConserved(s: Stack, b: seq<real>, idle: seq<real>, g: seq<Mat>, n: nat)
    requires s.Proper() && |b| >= Base(s.flps, |s.flps|) && |g| == |s.flps| && n <= |g|
    requires forall l | 0 <= l < |s.flps| :: AllOnChip(s.grid, s.flps[l])
    requires forall l, i, j | 0 <= l < |g| && 0 <= i < s.grid.rows && 0 <= j < s.grid.cols ::
               g[l](i, j) == GridValue(s, b, V_POWER, idle, l, i, j)
    ensures Sum(n, LayerPowers(s.grid, g)) == Sum(Base(s.flps, n), Powers(b)) + IdleBelow(s, idle, n)
  {
    hide GridValue, AllOnChip, AllSolid, TotalSum, IdleMat;
    if n > 0 {
      var l := n - 1;
      AllPowerConserved(s, b, idle, g, l);
      LayerConserved(s, b, idle, g[l], l);
      PartSum(s.flps, b, l);
    }
  }

  lemma LayerConserved(s: Stack, b: seq<real>, idle: seq<real>, g: Mat, l: nat)
    requires s.Proper() && l < |s.flps| && |b| >= Base(s.flps, |s.flps|) && AllOnChip(s.grid, s.flps[l])
    requires forall i, j | 0 <= i < s.grid.rows && 0 <= j < s.grid.cols ::
             g(i, j) == GridValue(s, b, V_POWER, idle, l, i, j)
    ensures TotalSum(s.grid.rows, s.grid.cols, g) == Sum(|s.flps[l]|, Powers(Part(s.flps, b, l))) +
            if l == IdleLayer(s.secondary) then IDLE_FACTOR * TotalSum(s.grid.rows, s.grid.cols, IdleMat(s.grid, idle))
            else 0.0
  {
    hide CellValue, AllOnChip, AllSolid, TotalSum, Part;
    var units, v := s.flps[l], Part(s.flps, b, l);
    if l == IdleLayer(s.secondary) {
      IdlePowerAdded(s.grid, units, v, idle, g);
    } else {
      PowerConserved(s.grid, units, v);
      TotalSame(s.grid.rows, s.grid.cols, g, CellValues(s.grid, units, v, V_POWER));
    }
  }

  /** The part of a layer, summed. */
  lemma PartSum(flps: seq<seq<Rect>>, b: seq<real>, l: nat)
    requires l < |flps| && |b| >= Base(flps, |flps|)
    ensures Sum(Base(flps, l + 1), Powers(b)) == Sum(Base(flps, l), Powers(b)) +
            Sum(|flps[l]|, Powers(Part(flps, b, l)))
  {
    BaseOrdered(flps, l + 1, |flps|);
    PartSumTo(flps, b, l, |flps[l]|);
  }

  lemma {:induction false} PartSumTo(flps: seq<seq<Rect>>, b: seq<real>, l: nat, k: nat)
    requires l < |flps| && |b| >= Base(flps, |flps|) && k <= |flps[l]|
    ensures Sum(Base(flps, l) + k, Powers(b)) == Sum(Base(flps, l), Powers(b)) + Sum(k, Powers(Part(flps, b, l)))
  {
    BaseOrdered(flps, l + 1, |flps|);
    if k > 0 {
      PartSumTo(flps, b, l, k - 1);
      assert Part(flps, b, l)[k - 1] == b[Base(flps, l) + k - 1];
    }
  }

  // ----- back from the grid -----

  datatype MapMode = GRID_AVG | GRID_MIN | GRID_MAX | GRID_CENTER

  /** The cells of an extent, from its own corner. */
  function Shifted(f: Mat, e: Extent): Mat {
    (i, j) => f(e.i1 + i, e.j1 + j)
  }

  function Centre(first: int, last: int): int {
    (first + last) / 2
  }

  /** One before the centre, if there is an even number of cells. */
  function OtherCentre(first: int, last: int): int {
    Centre(first, last) - if (last - first) % 2 == 0 then 1 else 0
  }

  ghost predicate Mean(f: Mat, e: Extent, b: real)
    requires e.i1 < e.i2 && e.j1 < e.j2
  {
    b * ((e.i2 - e.i1) as real * (e.j2 - e.j1) as real) == TotalSum(e.i2 - e.i1, e.j2 - e.j1, Shifted(f, e))
  }

  ghost predicate Attained(f: Mat, e: Extent, b: real) {
    exists i, j :: e.Holds(i, j) && f(i, j) == b
  }

  /** What a block is given, by the way of mapping. */
  ghost predicate Mapping(mode: MapMode, f: Mat, e: Extent, b: real)
    requires e.i1 < e.i2 && e.j1 < e.j2
  {
    match mode
    case GRID_AVG => Mean(f, e, b)
    case GRID_MIN => Attained(f, e, b) && forall i, j | e.Holds(i, j) :: b <= f(i, j)
    case GRID_MAX => Attained(f, e, b) && forall i, j | e.Holds(i, j) :: f(i, j) <= b
    case GRID_CENTER =>
      var ci1, ci2, cj1, cj2 := Centre(e.i1, e.i2), OtherCentre(e.i1, e.i2), Centre(e.j1, e.j2),
        OtherCentre(e.j1, e.j2);
      b == (f(ci1, cj1) + f(ci2, cj1) + f(ci1, cj2) + f(ci2, cj2)) / 4.0
  }

  /** A block is given the temperature in its middle, if temperatures rise evenly: the cells that are taken
      are the four, two or one in the middle of its extent. */
  lemma CentreExact(f: Mat, e: Extent, a: real, b: real, c: real, r: real)
    requires e.i1 < e.i2 && e.j1 < e.j2
    requires forall i, j :: f(i, j) == a + b * i as real + c * j as real
    ensures Mapping(GRID_CENTER, f, e, r) <==>
            r == a + b * ((e.i1 + (e.i2 - 1)) as real / 2.0) + c * ((e.j1 + (e.j2 - 1)) as real / 2.0)
  {
    MiddleOf(e.i1, e.i2, b);
    MiddleOf(e.j1, e.j2, c);
  }

  lemma MiddleOf(first: int, last: int, b: real)
    requires first < last
    ensures first <= OtherCentre(first, last) <= Centre(first, last) < last
    ensures b * Centre(first, last) as real + b * OtherCentre(first, last) as real ==
            2.0 * (b * ((first + (last - 1)) as real / 2.0))
  {
    assert Centre(first, last) + OtherCentre(first, last) == first + (last - 1);
    var p, q := Centre(first, last) as real, OtherCentre(first, last) as real;
    assert p + q == (first + (last - 1)) as real;
    assert b * p + b * q == b * (p + q);
  }

  /** The grid, layer by layer. */
  ghost predicate Shows(g: array3<real>, f: seq<Mat>)
    reads g
  {
    |f| == g.Length0 && forall n, i, j | 0 <= n < |f| && 0 <= i < g.Length1 && 0 <= j < g.Length2 ::
    g[n, i, j] == f[n](i, j)
  }

  /** min and max are those of the cells of a block as far as column j of row i. */
  ghost predicate Surveyed(f: Mat, e: Extent, i: int, j: int, min: real, max: real) {
    Attained(f, e, min) && Attained(f, e, max) && min <= max &&
    forall r, c | e.Holds(r, c) && (r < i || (r == i && c < j)) :: min <= f(r, c) <= max
  }

  /** One pass over the cells of a block. */
  method Survey(g: array3<real>, n: nat, e: Extent, ghost f: seq<Mat>)
    returns (avg: real, count: nat, min: real, max: real)
    requires Shows(g, f) && n < |f| && 0 <= e.i1 < e.i2 <= g.Length1 && 0 <= e.j1 < e.j2 <= g.Length2
    ensures avg == TotalSum(e.i2 - e.i1, e.j2 - e.j1, Shifted(f[n], e)) && count == (e.i2 - e.i1) * (e.j2 - e.j1)
    ensures Mapping(GRID_MIN, f[n], e, min) && Mapping(GRID_MAX, f[n], e, max)
  {
    avg, count := 0.0, 0;
    min, max := g[n, e.i1, e.j1], g[n, e.i1, e.j1];
    ghost var rows := RowSums(e.i2 - e.i1, e.j2 - e.j1, Shifted(f[n], e));
    assert min == f[n](e.i1, e.j1);
    FirstCell(f[n], e, min);
    hide Surveyed, Shows, RowSums, Mapping, Attained, Shifted;
    for i := e.i1 to e.i2
      invariant avg == Sum(i - e.i1, rows) && count == (i - e.i1) * (e.j2 - e.j1)
      invariant Surveyed(f[n], e, i, e.j1, min, max)
    {
      var row;
      row, min, max := SurveyRow(g, n, e, i, min, max, f);
      NextRow(f[n], e, i, min, max);
      avg := avg + row;
      count := count + (e.j2 - e.j1);
    }
    AllRows(f[n], e, min, max);
  }

  lemma FirstCell(f: Mat, e: Extent, min: real)
    requires e.i1 < e.i2 && e.j1 < e.j2 && min == f(e.i1, e.j1)
    ensures Surveyed(f, e, e.i1, e.j1, min, min)
  {
    assert e.Holds(e.i1, e.j1);
  }

  lemma NextRow(f: Mat, e: Extent, i: int, min: real, max: real)
    requires Surveyed(f, e, i, e.j2, min, max)
    ensures Surveyed(f, e, i + 1, e.j1, min, max)
    ensures (i + 1 - e.i1) * (e.j2 - e.j1) == (i - e.i1) * (e.j2 - e.j1) + (e.j2 - e.j1)
  {
  }

  lemma AllRows(f: Mat, e: Extent, min: real, max: real)
    requires e.i1 < e.i2 && e.j1 < e.j2 && Surveyed(f, e, e.i2, e.j1, min, max)
    ensures Mapping(GRID_MIN, f, e, min) && Mapping(GRID_MAX, f, e, max)
  {
  }

  method SurveyRow(g: array3<real>, n: nat, e: Extent, i: nat, min: real, max: real, ghost f: seq<Mat>)
    returns (row: real, min': real, max': real)
    requires Shows(g, f) && n < |f| && 0 <= e.i1 <= i < e.i2 <= g.Length1 && 0 <= e.j1 < e.j2 <= g.Length2
    requires Surveyed(f[n], e, i, e.j1, min, max)
    ensures row == RowSums(e.i2 - e.i1, e.j2 - e.j1, Shifted(f[n], e))(i - e.i1)
    ensures Surveyed(f[n], e, i, e.j2, min', max')
  {
    hide Surveyed;
    row, min', max' := 0.0, min, max;
    ghost var cells := RowOf(Shifted(f[n], e), i - e.i1);
    for j := e.j1 to e.j2
      invariant row == Sum(j - e.j1, cells) && Surveyed(f[n], e, i, j, min', max')
    {
      var t := g[n, i, j];
      assert t == f[n](i, j) == cells(j - e.j1);
      OneSurveyed(f[n], e, i, j, min', max', t);
      row := row + t;
      if t < min' {
        min' := t;
      }
      if t > max' {
        max' := t;
      }
    }
  }

  lemma OneSurveyed(f: Mat, e: Extent, i: int, j: int, min: real, max: real, t: real)
    requires Surveyed(f, e, i, j, min, max) && e.Holds(i, j) && t == f(i, j)
    ensures Surveyed(f, e, i, j + 1, if t < min then t else min, if t > max then t else max)
  {
    hide Attained;
    assert f(i, j) == t && e.Holds(i, j);
    AttainedAt(f, e, i, j);
  }

  lemma AttainedAt(f: Mat, e: Extent, i: int, j: int)
    requires e.Holds(i, j)
    ensures Attained(f, e, f(i, j))
  {
  }

  method BlockTemp(g: array3<real>, n: nat, e: Extent, mode: MapMode, ghost f: seq<Mat>) returns (b: real)
    requires Shows(g, f) && n < |f| && 0 <= e.i1 < e.i2 <= g.Length1 && 0 <= e.j1 < e.j2 <= g.Length2
    ensures Mapping(mode, f[n], e, b)
  {
    hide Shows, TotalSum, Attained;
    if mode == GRID_CENTER {
      b := CentreTemp(g, n, e, f);
      return;
    }
    var avg, count, min, max := Survey(g, n, e, f);
    match mode {
      case GRID_AVG =>
        CountPositive(e.i2 - e.i1, e.j2 - e.j1);
        b := avg / count as real;
        assert b * (count as real) == avg;
      case GRID_MIN => b := min;
      case GRID_MAX => b := max;
    }
  }

  lemma CountPositive(h: int, w: int)
    requires h > 0 && w > 0
    ensures h * w > 0 && (h * w) as real == h as real * w as real
  {
  }

  method CentreTemp(g: array3<real>, n: nat, e: Extent, ghost f: seq<Mat>) returns (b: real)
    requires Shows(g, f) && n < |f| && 0 <= e.i1 < e.i2 <= g.Length1 && 0 <= e.j1 < e.j2 <= g.Length2
    ensures Mapping(GRID_CENTER, f[n], e, b)
  {
    var ci1, cj1 := (e.i1 + e.i2) / 2, (e.j1 + e.j2) / 2;
    var ci2 := ci1 - if (e.i2 - e.i1) % 2 == 0 then 1 else 0;
    var cj2 := cj1 - if (e.j2 - e.j1) % 2 == 0 then 1 else 0;
    b := (g[n, ci1, cj1] + g[n, ci2, cj1] + g[n, ci1, cj2] + g[n, ci2, cj2]) / 4.0;
  }

  /** The extents of a layer, as set_bgmap leaves them. */
  ghost predicate Placed(grid: Grid, units: seq<Rect>, g2bmap: array<Extent>)
    requires grid.Proper()
    reads g2bmap
  {
    g2bmap.Length == |units| &&
    forall u | 0 <= u < |units| :: g2bmap[u] == ExtentOf(grid, units[u]) && g2bmap[u].Legal(grid)
  }

  /** A block has the temperature that its cells map to. */
  ghost predicate Given(s: Stack, f: seq<Mat>, mode: MapMode, b: seq<real>, n: nat, u: nat)
    requires s.Proper() && n < |s.flps| && u < |s.flps[n]| && |f| == |s.flps| && |b| >= Base(s.flps, |s.flps|)
  {
    ExtentOf(s.grid, s.flps[n][u]).Legal(s.grid) &&
    Mapping(mode, f[n], ExtentOf(s.grid, s.flps[n][u]), Part(s.flps, b, n)[u])
  }

  ghost predicate GivenTo(s: Stack, f: seq<Mat>, mode: MapMode, b: seq<real>, n: nat, u: nat)
    requires s.Proper() && |f| == |s.flps| && |b| >= Base(s.flps, |s.flps|)
  {
    forall l: nat, v: nat | l < |s.flps| && v < |s.flps[l]| && (l < n || (l == n && v < u)) ::
      Given(s, f, mode, b, l, v)
  }

  /** Where a block of an earlier layer is. */
  lemma BlocksApart(flps: seq<seq<Rect>>, b: seq<real>, l: nat, v: nat, n: nat, u: nat)
    requires l < |flps| && v < |flps[l]| && n < |flps| && u < |flps[n]| && (l < n || (l == n && v < u))
    requires |b| >= Base(flps, |flps|)
    ensures Base(flps, l) + v < Base(flps, n) + u < Base(flps, |flps|)
    ensures Part(flps, b, l)[v] == b[Base(flps, l) + v] && Part(flps, b, n)[u] == b[Base(flps, n) + u]
  {
    BaseOrdered(flps, n + 1, |flps|);
    if l < n {
      BaseOrdered(flps, l + 1, n);
    }
  }

  lemma OneGiven(s: Stack, f: seq<Mat>, mode: MapMode, b: seq<real>, n: nat, u: nat, r: real)
    requires s.Proper() && |f| == |s.flps| && |b| >= Base(s.flps, |s.flps|) && n < |s.flps| && u < |s.flps[n]|
    requires GivenTo(s, f, mode, b, n, u)
    requires ExtentOf(s.grid, s.flps[n][u]).Legal(s.grid) && Mapping(mode, f[n], ExtentOf(s.grid, s.flps[n][u]), r)
    ensures Base(s.flps, n) + u < |b| && GivenTo(s, f, mode, b[Base(s.flps, n) + u := r], n, u + 1)
  {
    hide Given, Mapping, ExtentOf;
    JustGiven(s, f, mode, b, n, u, r);
    var b' := b[Base(s.flps, n) + u := r];
    forall l: nat, v: nat | l < |s.flps| && v < |s.flps[l]| && (l < n || (l == n && v < u + 1))
      ensures Given(s, f, mode, b', l, v)
    {
      if l < n || v < u {
        EarlierGiven(s, f, mode, b, l, v, n, u, r);
      }
    }
  }

  lemma JustGiven(s: Stack, f: seq<Mat>, mode: MapMode, b: seq<real>, n: nat, u: nat, r: real)
    requires s.Proper() && |f| == |s.flps| && |b| >= Base(s.flps, |s.flps|) && n < |s.flps| && u < |s.flps[n]|
    requires ExtentOf(s.grid, s.flps[n][u]).Legal(s.grid) && Mapping(mode, f[n], ExtentOf(s.grid, s.flps[n][u]), r)
    ensures Base(s.flps, n) + u < |b| && Given(s, f, mode, b[Base(s.flps, n) + u := r], n, u)
  {
    hide Mapping, ExtentOf, AllSolid, Part;
    BaseOrdered(s.flps, n + 1, |s.flps|);
    PartAt(s.flps, b[Base(s.flps, n) + u := r], n, u);
  }

  lemma EarlierGiven(s: Stack, f: seq<Mat>, mode: MapMode, b: seq<real>, l: nat, v: nat, n: nat, u: nat, r: real)
    requires s.Proper() && |f| == |s.flps| && |b| >= Base(s.flps, |s.flps|) && n < |s.flps| && u < |s.flps[n]|
    requires l < |s.flps| && v < |s.flps[l]| && (l < n || (l == n && v < u)) && Given(s, f, mode, b, l, v)
    ensures Base(s.flps, n) + u < |b| && Given(s, f, mode, b[Base(s.flps, n) + u := r], l, v)
  {
    hide Mapping, ExtentOf, AllSolid, Part;
    BlocksApart(s.flps, b, l, v, n, u);
    BlocksApart(s.flps, b[Base(s.flps, n) + u := r], l, v, n, u);
  }

  lemma PartAt(flps: seq<seq<Rect>>, b: seq<real>, n: nat, u: nat)
    requires n < |flps| && u < |flps[n]| && |b| >= Base(flps, |flps|)
    ensures Base(flps, n) + u < Base(flps, |flps|) && Part(flps, b, n)[u] == b[Base(flps, n) + u]
  {
    BaseOrdered(flps, n + 1, |flps|);
  }

  lemma StillGiven(s: Stack, f: seq<Mat>, mode: MapMode, b: seq<real>, b': seq<real>)
    requires s.Proper() && |f| == |s.flps| && |b| == |b'| >= Base(s.flps, |s.flps|)
    requires GivenTo(s, f, mode, b, |s.flps|, 0)
    requires b[..Base(s.flps, |s.flps|)] == b'[..Base(s.flps, |s.flps|)]
    ensures GivenTo(s, f, mode, b', |s.flps|, 0)
  {
    hide Mapping, ExtentOf, AllSolid, Part;
    forall l: nat, v: nat | l < |s.flps| && v < |s.flps[l]|
      ensures Given(s, f, mode, b', l, v)
    {
      PartAt(s.flps, b, l, v);
      PartAt(s.flps, b', l, v);
      assert b[..Base(s.flps, |s.flps|)][Base(s.flps, l) + v] == b'[..Base(s.flps, |s.flps|)][Base(s.flps, l) + v];
      assert Given(s, f, mode, b, l, v);
    }
  }

  /** xlate_temp_g2b. */
  method XlateTempG2b(s: Stack, g: array3<real>, extra: array<real>, g2bmaps: seq<array<Extent>>, mode: MapMode,
                      b: array<real>, ghost f: seq<Mat>)
    requires s.Proper() && Shows(g, f) && |f| == |s.flps| && g.Length1 == s.grid.rows && g.Length2 == s.grid.cols
    requires b.Length == Base(s.flps, |s.flps|) + extra.Length && extra != b
    requires |g2bmaps| == |s.flps| && forall n | 0 <= n < |s.flps| :: Placed(s.grid, s.flps[n], g2bmaps[n])
    modifies b
    ensures GivenTo(s, f, mode, b[..], |s.flps|, 0)
    ensures b[Base(s.flps, |s.flps|)..] == extra[..]
  {
    hide Mapping, Shows, ExtentOf, AllSolid, Given;
    var base := 0;
    for n := 0 to |s.flps|
      invariant base == Base(s.flps, n) && GivenTo(s, f, mode, b[..], n, 0)
    {
      for u := 0 to |s.flps[n]|
        invariant GivenTo(s, f, mode, b[..], n, u)
      {
        var e := g2bmaps[n][u];
        var r := BlockTemp(g, n, e, mode, f);
        OneGiven(s, f, mode, b[..], n, u, r);
        b[base + u] := r;
      }
      base := base + |s.flps[n]|;
    }
    for k := 0 to extra.Length
      invariant b[base..base + k] == extra[..k] && GivenTo(s, f, mode, b[..], |s.flps|, 0)
    {
      ghost var before := b[..];
      b[base + k] := extra[k];
      StillGiven(s, f, mode, before, b[..]);
    }
  }

  // ----- no new extremes -----

  function Fold(n: int, x: real): real {
    n as real * x
  }

  lemma FoldStep(n: int, x: real)
    ensures Fold(n, x) == Fold(n - 1, x) + x && Fold(0, x) == 0.0
  {
  }

  lemma {:induction false} SumBounds(n: nat, f: Vec, low: real, high: real)
    requires forall i | 0 <= i < n :: low <= f(i) <= high
    ensures Fold(n, low) <= Sum(n, f) <= Fold(n, high)
  {
    hide Fold;
    FoldStep(n, low);
    FoldStep(n, high);
    if n > 0 {
      SumBounds(n - 1, f, low, high);
    }
  }

  /** Whatever the way of mapping, a block's temperature is within the bounds of its cells. */
  lemma MappedBetween(mode: MapMode, f: Mat, e: Extent, b: real, low: real, high: real)
    requires e.i1 < e.i2 && e.j1 < e.j2 && Mapping(mode, f, e, b)
    requires forall i, j | e.Holds(i, j) :: low <= f(i, j) <= high
    ensures low <= b <= high
  {
    match mode {
      case GRID_AVG => MeanBetween(f, e, b, low, high);
      case GRID_MIN =>
      case GRID_MAX =>
      case GRID_CENTER =>
        var ci1, ci2, cj1, cj2 := Centre(e.i1, e.i2), OtherCentre(e.i1, e.i2), Centre(e.j1, e.j2),
          OtherCentre(e.j1, e.j2);
        assert e.Holds(ci1, cj1) && e.Holds(ci2, cj1) && e.Holds(ci1, cj2) && e.Holds(ci2, cj2);
    }
  }

  lemma MeanBetween(f: Mat, e: Extent, b: real, low: real, high: real)
    requires e.i1 < e.i2 && e.j1 < e.j2 && Mean(f, e, b)
    requires forall i, j | e.Holds(i, j) :: low <= f(i, j) <= high
    ensures low <= b <= high
  {
    hide Fold, Sum;
    var h, w := e.i2 - e.i1, e.j2 - e.j1;
    forall i | 0 <= i < h
      ensures Fold(w, low) <= RowSums(h, w, Shifted(f, e))(i) <= Fold(w, high)
    {
      forall j | 0 <= j < w
        ensures low <= RowOf(Shifted(f, e), i)(j) <= high
      {
        assert e.Holds(e.i1 + i, e.j1 + j);
      }
      SumBounds(w, RowOf(Shifted(f, e), i), low, high);
    }
    SumBounds(h, RowSums(h, w, Shifted(f, e)), Fold(w, low), Fold(w, high));
    MeanBounds(h, w, b, low, high);
  }

  lemma MeanBounds(h: nat, w: nat, b: real, low: real, high: real)
    requires h > 0 && w > 0 && Fold(h, Fold(w, low)) <= b * (h as real * w as real) <= Fold(h, Fold(w, high))
    ensures low <= b <= high
  {
    var x := h as real * w as real;
    assert x > 0.0;
    assert (b - low) * x >= 0.0 && (high - b) * x >= 0.0;
  }

  /** To the grid and back: on a floorplan that fills the chip no block gets a temperature beyond those of
      the blocks of its layer, whatever the way of mapping. */
  lemma ThereAndBack(s: Stack, b: seq<real>, idle: seq<real>, f: Mat, mode: MapMode, n: nat, u: nat, r: real, low: real,
                     high: real)
    requires s.Proper() && n < |s.flps| && |b| >= Base(s.flps, |s.flps|) && Fills(s.flps[n], Chip(s.grid))
    requires u < |s.flps[n]|
    requires forall i, j | 0 <= i < s.grid.rows && 0 <= j < s.grid.cols ::
             f(i, j) == GridValue(s, b, V_TEMP, idle, n, i, j)
    requires ExtentOf(s.grid, s.flps[n][u]).Legal(s.grid) && Mapping(mode, f, ExtentOf(s.grid, s.flps[n][u]), r)
    requires forall v | 0 <= v < |s.flps[n]| :: low <= Part(s.flps, b, n)[v] <= high
    ensures low <= r <= high
  {
    hide Mapping, CellValue, Fills, ExtentOf, AllSolid, Part;
    var e := ExtentOf(s.grid, s.flps[n][u]);
    forall i, j | e.Holds(i, j)
      ensures low <= f(i, j) <= high
    {
      TemperatureBetween(s.grid, s.flps[n], Part(s.flps, b, n), i, j, low, high);
    }
    MappedBetween(mode, f, e, r, low, high);
  }
}
