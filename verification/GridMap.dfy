/** The map between floorplan blocks and grid cells, and what a cell gets of the powers or temperatures
    of the blocks (set_bgmap and blist_avg, HotSpot/temperature_grid.c). */
module GridMap {
  import opened Numbers
  import opened Geometry
  import opened Placement
  import opened LinearAlgebra

  /** The grid over a chip of the given size. */
  datatype Grid = Grid(rows: nat, cols: nat, width: real, height: real) {
    ghost predicate Proper() {
      rows > 0 && cols > 0 && width > 0.0 && height > 0.0
    }

    function CellWidth(): real
      requires cols > 0
    {
      width / cols as real
    }

    function CellHeight(): real
      requires rows > 0
    {
      height / rows as real
    }
  }

  /** Where grid line k is. */
  function Line(k: int, size: real): real {
    k as real * size
  }

  /** The cell in row i from the top and column j from the left. */
  function Cell(grid: Grid, i: int, j: int): Rect
    requires grid.rows > 0 && grid.cols > 0
  {
    var cw, ch := grid.CellWidth(), grid.CellHeight();
    Rect(Line(j, cw), grid.height - Line(i + 1, ch), cw, ch)
  }

  function Chip(grid: Grid): Rect {
    Rect(0.0, 0.0, grid.width, grid.height)
  }

  function Ceil(x: real): int {
    -((-x).Floor)
  }

  lemma CeilBounds(x: real)
    ensures Ceil(x) as real - 1.0 < x <= Ceil(x) as real
  {
  }

  /** The cells that a unit touches: rows i1 .. i2 - 1 and columns j1 .. j2 - 1. */
  datatype Extent = Extent(i1: int, i2: int, j1: int, j2: int) {
    predicate Holds(i: int, j: int) {
      i1 <= i < i2 && j1 <= j < j2
    }

    /** Away from the boundary of the extent, where cells are fully covered. */
    predicate Covers(i: int, j: int) {
      i1 < i < i2 - 1 && j1 < j < j2 - 1
    }

    predicate Legal(grid: Grid) {
      0 <= i1 < i2 <= grid.rows && 0 <= j1 < j2 <= grid.cols
    }
  }

  function ExtentOf(grid: Grid, u: Rect): Extent
    requires grid.Proper()
  {
    var cw, ch := grid.CellWidth(), grid.CellHeight();
    Extent(grid.rows - Ceil((u.bottomy + u.height) / ch), grid.rows - (u.bottomy / ch).Floor,
           (u.leftx / cw).Floor, Ceil((u.leftx + u.width) / cw))
  }

  // ----- one dimension -----

  /** How cell k lies to an interval that goes from cell first to before cell last. */
  ghost predicate SpanPlaces(a: real, b: real, first: int, last: int, k: int, left: real, right: real) {
    (k < first ==> right <= a) && (k >= last ==> left >= b) &&
    (first <= k < last ==> left < b && right > a) && (first < k < last - 1 ==> left >= a && right <= b)
  }

  /** An interval in cells of the given size: first cell and one past the last. */
  lemma SpanFacts(a: real, b: real, size: real, k: int)
    requires size > 0.0 && a < b
    ensures (a / size).Floor < Ceil(b / size)
    ensures SpanPlaces(a, b, (a / size).Floor, Ceil(b / size), k, Line(k, size), Line(k + 1, size))
  {
    SpanScaled(a, b, a / size, b / size, size, Line(k, size), Line(k + 1, size), k);
  }

  lemma SpanScaled(a: real, b: real, p: real, q: real, size: real, left: real, right: real, k: int)
    requires size > 0.0 && a < b && p * size == a && q * size == b
    requires left == k as real * size && right == (k + 1) as real * size
    ensures p.Floor < Ceil(q) && SpanPlaces(a, b, p.Floor, Ceil(q), k, left, right)
  {
    CeilBounds(q);
    Scale(p, q, size, a, b);
    Scale(p, (k + 1) as real, size, a, right);
    Scale(p, k as real, size, a, left);
    Scale(k as real, q, size, left, b);
    Scale((k + 1) as real, q, size, right, b);
  }

  /** Multiplying by a positive number keeps the order. */
  lemma Scale(p: real, q: real, size: real, a: real, b: real)
    requires size > 0.0 && a == p * size && b == q * size
    ensures p < q <==> a < b
    ensures p <= q <==> a <= b
  {
    var d := (q - p) * size;
    assert d == q * size - p * size;
    assert q - p > 0.0 ==> d > 0.0;
    assert q - p < 0.0 ==> d < 0.0;
  }

  /** The part of a cell that an interval shares, as a function of the cell. */
  function SharedWith(a: real, b: real, size: real): Vec {
    k => Overlap(a, b, Line(k, size), Line(k + 1, size))
  }

  lemma LinesAscend(k: nat, size: real)
    requires size > 0.0
    ensures 0.0 <= Line(k, size) <= Line(k + 1, size) && Line(0, size) == 0.0
  {
    assert (k + 1) as real * size == k as real * size + size;
  }

  /** The first n cells together share what the interval shares with their union. */
  lemma {:induction false} SharedSum(a: real, b: real, size: real, n: nat)
    requires a <= b && size > 0.0
    ensures Sum(n, SharedWith(a, b, size)) == Overlap(a, b, 0.0, Line(n, size))
  {
    LinesAscend(0, size);
    NothingShared(a, b);
    hide Overlap, Line;
    if n > 0 {
      SharedSum(a, b, size, n - 1);
      LinesAscend(n - 1, size);
      CellsJoin(a, b, 0.0, Line(n - 1, size), Line(n, size));
    }
  }

  lemma NothingShared(a: real, b: real)
    ensures Overlap(a, b, 0.0, 0.0) == 0.0
  {
  }

  lemma CellsJoin(a: real, b: real, c: real, m: real, e: real)
    requires a <= b && c <= m <= e
    ensures Overlap(a, b, c, e) == Overlap(a, b, c, m) + Overlap(a, b, m, e)
  {
  }

  // ----- one unit and one cell -----

  /** The unit is not degenerate and on the chip. */
  ghost predicate OnChip(grid: Grid, u: Rect) {
    Solid(u) && Inside(u, Chip(grid))
  }

  lemma LineSteps(k: int, size: real)
    ensures Line(k + 1, size) == Line(k, size) + size
  {
  }

  /** The edges of a cell are grid lines; rows are numbered from the top. */
  lemma CellEdges(grid: Grid, i: int, j: int)
    requires grid.Proper()
    ensures var c, cw, ch := Cell(grid, i, j), grid.CellWidth(), grid.CellHeight();
            cw > 0.0 && ch > 0.0 && c.width == cw && c.height == ch &&
            c.leftx == Line(j, cw) && c.leftx + c.width == Line(j + 1, cw) &&
            c.bottomy == Line(grid.rows - 1 - i, ch) && c.bottomy + c.height == Line(grid.rows - i, ch)
    ensures Line(grid.cols, grid.CellWidth()) == grid.width && Line(grid.rows, grid.CellHeight()) == grid.height
  {
    var cw, ch := grid.CellWidth(), grid.CellHeight();
    assert grid.rows as real * ch == grid.height && grid.cols as real * cw == grid.width;
    LineSteps(j, cw);
    LineSteps(grid.rows - 1 - i, ch);
    LineDifference(grid.rows, i + 1, ch);
  }

  lemma LineDifference(m: int, k: int, size: real)
    ensures Line(m, size) - Line(k, size) == Line(m - k, size)
  {
    assert (m - k) as real == m as real - k as real;
    assert (m as real - k as real) * size == m as real * size - k as real * size;
  }

  /** What a unit shares with a cell in each direction. */
  function SharedX(grid: Grid, u: Rect, j: int): real
    requires grid.cols > 0
  {
    Overlap(u.leftx, u.leftx + u.width, Line(j, grid.CellWidth()), Line(j + 1, grid.CellWidth()))
  }

  function SharedY(grid: Grid, u: Rect, i: int): real
    requires grid.rows > 0
  {
    Overlap(u.bottomy, u.bottomy + u.height, Line(grid.rows - 1 - i, grid.CellHeight()),
            Line(grid.rows - i, grid.CellHeight()))
  }

  lemma OccupiesShared(grid: Grid, u: Rect, i: int, j: int)
    requires grid.Proper()
    ensures Occupies(Cell(grid, i, j))(u) == SharedX(grid, u, j) * SharedY(grid, u, i)
  {
    CellEdges(grid, i, j);
  }

  /** A unit on the chip has a legal extent: no bound check of set_bgmap can fail. */
  lemma ExtentLegal(grid: Grid, u: Rect)
    requires grid.Proper() && OnChip(grid, u)
    ensures ExtentOf(grid, u).Legal(grid)
  {
    CellEdges(grid, 0, 0);
    SpanLegal(u.leftx, u.leftx + u.width, grid.CellWidth(), grid.cols, grid.width);
    SpanLegal(u.bottomy, u.bottomy + u.height, grid.CellHeight(), grid.rows, grid.height);
  }

  lemma SpanLegal(a: real, b: real, size: real, n: nat, extent: real)
    requires size > 0.0 && 0.0 <= a < b <= extent && Line(n, size) == extent
    ensures 0 <= (a / size).Floor < Ceil(b / size) <= n
  {
    SpanFacts(a, b, size, -1);
    SpanFacts(a, b, size, n);
    LineSteps(n, size);
    LineSteps(-1, size);
    assert Line(0, size) == 0.0;
  }

  /** In its extent a unit shares something with each cell, and all of a cell that is away from the
      boundary; elsewhere it shares nothing. */
  lemma ExtentExact(grid: Grid, u: Rect, i: int, j: int)
    requires grid.Proper() && Solid(u)
    ensures var e := ExtentOf(grid, u);
            (!e.Holds(i, j) ==> SharedX(grid, u, j) * SharedY(grid, u, i) == 0.0) &&
            (e.Holds(i, j) ==> SharedX(grid, u, j) > 0.0 && SharedY(grid, u, i) > 0.0) &&
            (e.Covers(i, j) ==> SharedX(grid, u, j) == grid.CellWidth() && SharedY(grid, u, i) == grid.CellHeight())
  {
    var cw, ch := grid.CellWidth(), grid.CellHeight();
    var r := grid.rows - 1 - i;
    LineSteps(j, cw);
    LineSteps(r, ch);
    SpanFacts(u.leftx, u.leftx + u.width, cw, j);
    SpanFacts(u.bottomy, u.bottomy + u.height, ch, r);
    hide Line;
    OverlapPlaces(u.leftx, u.leftx + u.width, (u.leftx / cw).Floor, Ceil((u.leftx + u.width) / cw), j, Line(j, cw),
                  Line(j + 1, cw));
    OverlapPlaces(u.bottomy, u.bottomy + u.height, (u.bottomy / ch).Floor, Ceil((u.bottomy + u.height) / ch), r,
                  Line(r, ch), Line(r + 1, ch));
  }

  lemma OverlapPlaces(a: real, b: real, first: int, last: int, k: int, left: real, right: real)
    requires a < b && left < right && SpanPlaces(a, b, first, last, k, left, right)
    ensures !(first <= k < last) ==> Overlap(a, b, left, right) == 0.0
    ensures first <= k < last ==> Overlap(a, b, left, right) > 0.0
    ensures first < k < last - 1 ==> Overlap(a, b, left, right) == right - left
  {
  }

  // ----- the map from cells to units -----

  /** One node of a cell's list: a unit, and the part of the cell that it occupies. */
  datatype Entry = Entry(idx: nat, occupancy: real)

  function Occupancy(grid: Grid, u: Rect, i: int, j: int): real
    requires grid.Proper()
  {
    PartOf(Share(grid, u, i, j), grid.CellHeight(), grid.CellWidth())
  }

  /** The area that a unit shares with a cell. */
  function Share(grid: Grid, u: Rect, i: int, j: int): real
    requires grid.rows > 0 && grid.cols > 0
  {
    SharedX(grid, u, j) * SharedY(grid, u, i)
  }

  /** The part of a cell that an area is. */
  function PartOf(area: real, ch: real, cw: real): real
    requires ch > 0.0 && cw > 0.0
  {
    area / (ch * cw)
  }

  /** The list of a cell after the first n units. */
  ghost function ListOf(grid: Grid, units: seq<Rect>, n: nat, i: int, j: int): seq<Entry>
    requires grid.Proper() && n <= |units|
  {
    if n == 0 then []
    else if ExtentOf(grid, units[n - 1]).Holds(i, j) then
      ListOf(grid, units, n - 1, i, j) + [Entry(n - 1, Occupancy(grid, units[n - 1], i, j))]
    else ListOf(grid, units, n - 1, i, j)
  }

  /** What a cell in the extent of a unit gets; the abort on a negative overlap is not reached. */
  method OccupancyOf(grid: Grid, u: Rect, e: Extent, i: int, j: int) returns (occupancy: real)
    requires grid.Proper() && Solid(u) && e == ExtentOf(grid, u) && e.Holds(i, j)
    ensures occupancy == Occupancy(grid, u, i, j)
  {
    CellEdges(grid, i, j);
    hide Share, ExtentOf, Line, Cell, PartOf, Grid.CellWidth, Grid.CellHeight;
    var cw, ch := grid.CellWidth(), grid.CellHeight();
    if e.Covers(i, j) {
      WholeCell(grid, u, i, j, cw, ch);
      occupancy := 1.0;
    } else {
      var area := BoundaryShare(grid, u, i, j);
      occupancy := PartOf(area, ch, cw);
    }
  }

  /** The overlap width times the overlap height. */
  method BoundaryShare(grid: Grid, u: Rect, i: int, j: int) returns (area: real)
    requires grid.Proper() && Solid(u) && ExtentOf(grid, u).Holds(i, j)
    ensures area == Share(grid, u, i, j)
  {
    hide SharedX, SharedY, ExtentOf, Solid, Grid.CellWidth, Grid.CellHeight;
    var oh, ow := Overlaps(grid, u, i, j);
    ExtentExact(grid, u, i, j);
    SameShares(oh, ow, SharedY(grid, u, i), SharedX(grid, u, j));
    area := oh * ow;
  }

  /** The overlap of a unit and a cell in each direction; it would be negative for a gap. */
  method Overlaps(grid: Grid, u: Rect, i: int, j: int) returns (oh: real, ow: real)
    requires grid.Proper()
    ensures SharedY(grid, u, i) == Max(0.0, oh) && SharedX(grid, u, j) == Max(0.0, ow)
  {
    var cw, ch := grid.CellWidth(), grid.CellHeight();
    CellEdges(grid, i, j);
    LineDifference(grid.rows, i, ch);
    LineDifference(grid.rows, i + 1, ch);
    hide Line;
    var lc, rc := Line(j, cw), Line(j + 1, cw);
    var tc, bc := grid.height - Line(i, ch), grid.height - Line(i + 1, ch);
    oh := Min(u.bottomy + u.height, tc) - Max(u.bottomy, bc);
    ow := Min(u.leftx + u.width, rc) - Max(u.leftx, lc);
  }

  lemma WholeCell(grid: Grid, u: Rect, i: int, j: int, cw: real, ch: real)
    requires grid.Proper() && Solid(u) && ExtentOf(grid, u).Covers(i, j)
    requires cw == grid.CellWidth() > 0.0 && ch == grid.CellHeight() > 0.0
    ensures PartOf(Share(grid, u, i, j), ch, cw) == 1.0
  {
    ExtentExact(grid, u, i, j);
    hide SharedX, SharedY, ExtentOf, Grid.CellWidth, Grid.CellHeight;
    WholeOfItself(Share(grid, u, i, j), SharedX(grid, u, j), SharedY(grid, u, i));
  }

  lemma WholeOfItself(area: real, cw: real, ch: real)
    requires cw > 0.0 && ch > 0.0 && area == cw * ch
    ensures PartOf(area, ch, cw) == 1.0
  {
    assert ch * cw == area;
  }

  lemma SameShares(oh: real, ow: real, y: real, x: real)
    requires y == Max(0.0, oh) && x == Max(0.0, ow) && x > 0.0 && y > 0.0
    ensures oh * ow == x * y
  {
  }

  /** The cells of one unit. */
  method MapUnit(grid: Grid, units: seq<Rect>, u: nat, b2gmap: array2<seq<Entry>>)
    requires grid.Proper() && u < |units| && Solid(units[u]) && ExtentOf(grid, units[u]).Legal(grid)
    requires b2gmap.Length0 == grid.rows && b2gmap.Length1 == grid.cols
    requires forall i, j | 0 <= i < grid.rows && 0 <= j < grid.cols :: b2gmap[i, j] == ListOf(grid, units, u, i, j)
    modifies b2gmap
    ensures forall i, j | 0 <= i < grid.rows && 0 <= j < grid.cols :: b2gmap[i, j] == ListOf(grid, units, u + 1, i, j)
  {
    var e := ExtentOf(grid, units[u]);
    for i := e.i1 to e.i2
      invariant forall r, c | 0 <= r < grid.rows && 0 <= c < grid.cols ::
                  b2gmap[r, c] == ListOf(grid, units, if e.Holds(r, c) && r < i then u + 1 else u, r, c)
    {
      for j := e.j1 to e.j2
        invariant forall r, c | 0 <= r < grid.rows && 0 <= c < grid.cols ::
                    b2gmap[r, c] ==
                    ListOf(grid, units, if e.Holds(r, c) && (r < i || (r == i && c < j)) then u + 1 else u, r, c)
      {
        var occupancy := OccupancyOf(grid, units[u], e, i, j);
        b2gmap[i, j] := b2gmap[i, j] + [Entry(u, occupancy)];
      }
    }
  }

  /** set_bgmap. It aborts only if some unit has no legal extent, which none that is on the chip
      lacks; otherwise every cell has the units that touch it, in their order, each with just the
      part of the cell that it shares, and every unit has its extent. */
  method SetBgmap(grid: Grid, units: seq<Rect>, b2gmap: array2<seq<Entry>>, g2bmap: array<Extent>) returns (ok: bool)
    requires grid.Proper() && b2gmap.Length0 == grid.rows && b2gmap.Length1 == grid.cols && g2bmap.Length == |units|
    requires forall u | 0 <= u < |units| :: Solid(units[u])
    modifies b2gmap, g2bmap
    ensures ok ==> forall u | 0 <= u < |units| :: g2bmap[u] == ExtentOf(grid, units[u]) && g2bmap[u].Legal(grid)
    ensures ok <==> forall u | 0 <= u < |units| :: ExtentOf(grid, units[u]).Legal(grid)
    ensures (forall u | 0 <= u < |units| :: OnChip(grid, units[u])) ==> ok
    ensures ok ==> forall i, j | 0 <= i < grid.rows && 0 <= j < grid.cols ::
            b2gmap[i, j] == ListOf(grid, units, |units|, i, j)
  {
    forall u | 0 <= u < |units| && OnChip(grid, units[u])
      ensures ExtentOf(grid, units[u]).Legal(grid)
    {
      ExtentLegal(grid, units[u]);
    }
    ResetB2gmap(grid, b2gmap);
    for u := 0 to |units|
      invariant forall v | 0 <= v < u :: ExtentOf(grid, units[v]).Legal(grid) && g2bmap[v] == ExtentOf(grid, units[v])
      invariant forall i, j | 0 <= i < grid.rows && 0 <= j < grid.cols :: b2gmap[i, j] == ListOf(grid, units, u, i, j)
    {
      if !ExtentOf(grid, units[u]).Legal(grid) {
        return false;
      }
      g2bmap[u] := ExtentOf(grid, units[u]);
      MapUnit(grid, units, u, b2gmap);
    }
    return true;
  }

  /** reset_b2gmap. */
  method ResetB2gmap(grid: Grid, b2gmap: array2<seq<Entry>>)
    requires b2gmap.Length0 == grid.rows && b2gmap.Length1 == grid.cols
    modifies b2gmap
    ensures forall i, j | 0 <= i < grid.rows && 0 <= j < grid.cols :: b2gmap[i, j] == []
  {
    for i := 0 to grid.rows
      invariant forall r, c | 0 <= r < i && 0 <= c < grid.cols :: b2gmap[r, c] == []
    {
      for j := 0 to grid.cols
        invariant forall r, c | 0 <= r < i && 0 <= c < grid.cols :: b2gmap[r, c] == []
        invariant forall c | 0 <= c < j :: b2gmap[i, c] == []
      {
        b2gmap[i, j] := [];
      }
    }
  }

  // ----- sums over the units of a cell -----

  /** A quantity of the units of a list, weighted by their occupancies. */
  function Weighted(list: seq<Entry>, w: Vec): real {
    if list == [] then 0.0
    else Weighted(list[..|list| - 1], w) + list[|list| - 1].occupancy * w(list[|list| - 1].idx)
  }

  function ShareTerms(grid: Grid, units: seq<Rect>, i: int, j: int, w: Vec): Vec
    requires grid.rows > 0 && grid.cols > 0
  {
    u => if 0 <= u < |units| then Share(grid, units[u], i, j) * w(u) else 0.0
  }

  function CellArea(grid: Grid): real
    requires grid.rows > 0 && grid.cols > 0
  {
    grid.CellHeight() * grid.CellWidth()
  }

  /** Summing over the list of a cell is summing over all the units: those that are not in the list
      share nothing with the cell. */
  lemma {:induction false} ListShares(grid: Grid, units: seq<Rect>, n: nat, i: int, j: int, w: Vec)
    requires grid.Proper() && n <= |units| && forall u | 0 <= u < |units| :: Solid(units[u])
    ensures Weighted(ListOf(grid, units, n, i, j), w) * CellArea(grid) == Sum(n, ShareTerms(grid, units, i, j, w))
  {
    hide CellArea, Share, Occupancy, ExtentOf, OnChip, Solid, Weighted;
    if n == 0 {
      NothingWeighted(w, CellArea(grid));
    } else {
      var u := units[n - 1];
      ListShares(grid, units, n - 1, i, j, w);
      OutsideSharesNothing(grid, u, i, j);
      PartTimesCell(grid, u, i, j, w(n - 1));
      OneMore(ListOf(grid, units, n - 1, i, j), Entry(n - 1, Occupancy(grid, u, i, j)), w, CellArea(grid));
    }
  }

  lemma NothingWeighted(w: Vec, area: real)
    ensures Weighted([], w) * area == 0.0
  {
  }

  lemma OneMore(list: seq<Entry>, e: Entry, w: Vec, area: real)
    ensures Weighted(list + [e], w) * area == Weighted(list, w) * area + e.occupancy * w(e.idx) * area
  {
    assert (list + [e])[..|list|] == list;
    Distribution(Weighted(list, w), e.occupancy * w(e.idx), area);
  }

  lemma Distribution(a: real, b: real, c: real)
    ensures (a + b) * c == a * c + b * c
  {
  }

  lemma CellSizes(grid: Grid)
    requires grid.Proper()
    ensures grid.CellWidth() > 0.0 && grid.CellHeight() > 0.0
  {
  }

  lemma CellAreaPositive(grid: Grid)
    requires grid.Proper()
    ensures CellArea(grid) > 0.0
  {
    CellEdges(grid, 0, 0);
  }

  lemma OutsideSharesNothing(grid: Grid, u: Rect, i: int, j: int)
    requires grid.Proper() && Solid(u)
    ensures !ExtentOf(grid, u).Holds(i, j) ==> Share(grid, u, i, j) == 0.0
  {
    ExtentExact(grid, u, i, j);
  }

  lemma PartTimesCell(grid: Grid, u: Rect, i: int, j: int, w: real)
    requires grid.Proper()
    ensures Occupancy(grid, u, i, j) * w * CellArea(grid) == Share(grid, u, i, j) * w
  {
    hide Occupancy, CellArea, Share;
    PartExact(grid, u, i, j);
    Regroup(Occupancy(grid, u, i, j), w, CellArea(grid), Share(grid, u, i, j));
  }

  lemma PartExact(grid: Grid, u: Rect, i: int, j: int)
    requires grid.Proper()
    ensures Occupancy(grid, u, i, j) * CellArea(grid) == Share(grid, u, i, j)
  {
    hide Share;
    CellSizes(grid);
    hide Share, Grid.CellHeight, Grid.CellWidth;
    var area, cell := Share(grid, u, i, j), grid.CellHeight() * grid.CellWidth();
    assert area / cell * cell == area;
  }

  lemma Regroup(part: real, w: real, cell: real, area: real)
    requires part * cell == area
    ensures part * w * cell == area * w
  {
    assert part * w * cell == (part * cell) * w;
  }

  // ----- a unit over all the cells -----

  function ShareMat(grid: Grid, u: Rect): Mat
    requires grid.rows > 0 && grid.cols > 0
  {
    (i, j) => Share(grid, u, i, j)
  }

  function SharedXs(grid: Grid, u: Rect): Vec
    requires grid.cols > 0
  {
    j => SharedX(grid, u, j)
  }

  function SharedYs(grid: Grid, u: Rect): Vec
    requires grid.rows > 0
  {
    i => SharedY(grid, u, i)
  }

  /** A unit on the chip shares its whole width with the columns, and its whole height with the rows. */
  lemma ColumnsShare(grid: Grid, u: Rect)
    requires grid.Proper() && OnChip(grid, u)
    ensures Sum(grid.cols, SharedXs(grid, u)) == u.width
  {
    CellEdges(grid, 0, 0);
    SharedSum(u.leftx, u.leftx + u.width, grid.CellWidth(), grid.cols);
    SumSame(grid.cols, SharedXs(grid, u), SharedWith(u.leftx, u.leftx + u.width, grid.CellWidth()));
  }

  lemma RowsShare(grid: Grid, u: Rect)
    requires grid.Proper() && OnChip(grid, u)
    ensures Sum(grid.rows, SharedYs(grid, u)) == u.height
  {
    CellEdges(grid, 0, 0);
    SharedSum(u.bottomy, u.bottomy + u.height, grid.CellHeight(), grid.rows);
    RowsReversed(grid, u);
  }

  lemma RowsReversed(grid: Grid, u: Rect)
    requires grid.Proper()
    ensures Sum(grid.rows, SharedYs(grid, u)) ==
            Sum(grid.rows, SharedWith(u.bottomy, u.bottomy + u.height, grid.CellHeight()))
  {
    hide Line, Overlap, Grid.CellHeight;
    SumReversed(grid.rows, SharedWith(u.bottomy, u.bottomy + u.height, grid.CellHeight()), SharedYs(grid, u),
                grid.rows);
  }

  /** Over all cells, what a unit shares is its area. */
  lemma AllShares(grid: Grid, u: Rect)
    requires grid.Proper() && OnChip(grid, u)
    ensures Sum(grid.rows, RowSums(grid.rows, grid.cols, ShareMat(grid, u))) == u.width * u.height
  {
    hide Sum;
    ColumnsShare(grid, u);
    RowsShare(grid, u);
    SeparateSum(grid, u);
  }

  lemma SeparateSum(grid: Grid, u: Rect)
    requires grid.Proper()
    ensures Sum(grid.rows, RowSums(grid.rows, grid.cols, ShareMat(grid, u))) ==
            Sum(grid.cols, SharedXs(grid, u)) * Sum(grid.rows, SharedYs(grid, u))
  {
    hide SharedX, SharedY, Grid.CellHeight, Grid.CellWidth;
    forall i: int
      ensures RowSums(grid.rows, grid.cols, ShareMat(grid, u))(i) ==
              Sum(grid.cols, SharedXs(grid, u)) * SharedYs(grid, u)(i)
    {
      RowShare(grid, u, i);
    }
    SumTimes(grid.rows, Sum(grid.cols, SharedXs(grid, u)), SharedYs(grid, u),
             RowSums(grid.rows, grid.cols, ShareMat(grid, u)));
  }

  lemma RowShare(grid: Grid, u: Rect, i: int)
    requires grid.rows > 0 && grid.cols > 0
    ensures Sum(grid.cols, RowOf(ShareMat(grid, u), i)) == SharedY(grid, u, i) * Sum(grid.cols, SharedXs(grid, u))
  {
    hide SharedX, SharedY;
    SumTimes(grid.cols, SharedY(grid, u, i), SharedXs(grid, u), RowOf(ShareMat(grid, u), i));
  }

  // ----- powers and temperatures -----

  datatype VectorType = V_POWER | V_TEMP

  ghost predicate AllSolid(units: seq<Rect>) {
    forall u | 0 <= u < |units| :: Solid(units[u])
  }

  /** What a unit contributes to a cell that it fills: its power density, or its temperature. */
  function Density(units: seq<Rect>, v: seq<real>, kind: VectorType): Vec
    requires AllSolid(units) && |v| == |units|
  {
    u => if !(0 <= u < |units|) then 0.0
         else if kind == V_POWER then DensityOf(v[u], units[u]) else v[u]
  }

  function DensityOf(power: real, u: Rect): real
    requires Solid(u)
  {
    assert u.width * u.height > 0.0;
    power / (u.width * u.height)
  }

  lemma DensityTimesArea(power: real, u: Rect)
    requires Solid(u)
    ensures DensityOf(power, u) * (u.width * u.height) == power
  {
    var area := u.width * u.height;
    assert area > 0.0;
    assert power / area * area == power;
  }

  /** blist_avg. */
  method BlistAvg(list: seq<Entry>, units: seq<Rect>, v: seq<real>, kind: VectorType) returns (val: real)
    requires AllSolid(units) && |v| == |units|
    requires forall k | 0 <= k < |list| :: list[k].idx < |units|
    ensures val == Weighted(list, Density(units, v, kind))
  {
    val := 0.0;
    for k := 0 to |list|
      invariant val == Weighted(list[..k], Density(units, v, kind))
    {
      assert list[..k + 1][..k] == list[..k];
      if kind == V_POWER {
        val := val + list[k].occupancy * DensityOf(v[list[k].idx], units[list[k].idx]);
      } else {
        val := val + list[k].occupancy * v[list[k].idx];
      }
    }
    assert list[..|list|] == list;
  }

  /** What a cell gets from the units. */
  ghost function CellValue(grid: Grid, units: seq<Rect>, v: seq<real>, kind: VectorType, i: int, j: int): real
    requires grid.Proper() && AllSolid(units) && |v| == |units|
  {
    var average := Weighted(ListOf(grid, units, |units|, i, j), Density(units, v, kind));
    if kind == V_POWER then average * CellArea(grid) else average
  }

  lemma {:induction false} ListIndices(grid: Grid, units: seq<Rect>, n: nat, i: int, j: int)
    requires grid.Proper() && n <= |units|
    ensures forall k | 0 <= k < |ListOf(grid, units, n, i, j)| :: ListOf(grid, units, n, i, j)[k].idx < n
  {
    if n > 0 {
      ListIndices(grid, units, n - 1, i, j);
    }
  }

  /** The power that every cell of one layer draws even when idle (17.4 times its idle power). */
  const IDLE_FACTOR: real := 17.4

  /** xlate_vector_b2g at one cell. */
  method CellOf(grid: Grid, units: seq<Rect>, v: seq<real>, kind: VectorType, list: seq<Entry>, area: real,
                ghost i: int, ghost j: int)
    returns (value: real)
    requires grid.Proper() && AllSolid(units) && |v| == |units|
    requires list == ListOf(grid, units, |units|, i, j) && area == CellArea(grid)
    ensures value == CellValue(grid, units, v, kind, i, j)
  {
    hide CellArea, ListOf, Weighted, Density;
    ListIndices(grid, units, |units|, i, j);
    value := BlistAvg(list, units, v, kind);
    if kind == V_POWER {
      value := value * area;
    }
  }

  lemma AreaOfCell(grid: Grid, area: real)
    requires grid.Proper() && area == (grid.width * grid.height) / (grid.cols as real * grid.rows as real)
    ensures area == CellArea(grid)
  {
    var c, r, cw, ch := grid.cols as real, grid.rows as real, grid.CellWidth(), grid.CellHeight();
    assert cw * c == grid.width && ch * r == grid.height;
    assert grid.width * grid.height == (ch * cw) * (c * r);
    assert (ch * cw) * (c * r) / (c * r) == ch * cw;
  }

  lemma CellIndex(grid: Grid, i: nat, j: nat)
    requires i < grid.rows && j < grid.cols
    ensures 0 <= grid.cols * i + j < grid.rows * grid.cols
  {
    assert grid.cols * i + grid.cols == grid.cols * (i + 1) <= grid.cols * grid.rows;
  }

  function IdleMat(grid: Grid, idle: seq<real>): Mat {
    (i, j) => if 0 <= grid.cols * i + j < |idle| then idle[grid.cols * i + j] else 0.0
  }

  // ----- nothing is lost on the way to the grid -----

  ghost predicate AllOnChip(grid: Grid, units: seq<Rect>) {
    forall u | 0 <= u < |units| :: OnChip(grid, units[u])
  }

  /** What the first n units give to each cell. */
  function GivenMat(grid: Grid, units: seq<Rect>, n: nat, w: Vec): Mat
    requires grid.rows > 0 && grid.cols > 0
  {
    (i, j) => Sum(n, ShareTerms(grid, units, i, j, w))
  }

  /** Over the whole grid each unit gives its density times its area. */
  lemma {:induction false} GivenSum(grid: Grid, units: seq<Rect>, n: nat, w: Vec, given: Vec)
    requires grid.Proper() && AllOnChip(grid, units) && n <= |units|
    requires forall u | 0 <= u < |units| :: given(u) == w(u) * (units[u].width * units[u].height)
    ensures TotalSum(grid.rows, grid.cols, GivenMat(grid, units, n, w)) == Sum(n, given)
  {
    hide Share, Grid.CellHeight, Grid.CellWidth, OnChip;
    if n == 0 {
      forall i: int
        ensures RowSums(grid.rows, grid.cols, GivenMat(grid, units, 0, w))(i) == 0.0
      {
        SumZero(grid.cols, RowOf(GivenMat(grid, units, 0, w), i));
      }
      SumZero(grid.rows, RowSums(grid.rows, grid.cols, GivenMat(grid, units, 0, w)));
    } else {
      var u := n - 1;
      GivenSum(grid, units, u, w, given);
      AllShares(grid, units[u]);
      forall i: int, j: int
        ensures GivenMat(grid, units, n, w)(i, j) == GivenMat(grid, units, u, w)(i, j) +
                w(u) * ShareMat(grid, units[u])(i, j)
      {
        assert ShareTerms(grid, units, i, j, w)(u) == Share(grid, units[u], i, j) * w(u);
      }
      TotalPlusTimes(grid.rows, grid.cols, GivenMat(grid, units, u, w), ShareMat(grid, units[u]), w(u),
                     GivenMat(grid, units, n, w));
    }
  }

  /** The values of a layer as a matrix. */
  ghost function CellValues(grid: Grid, units: seq<Rect>, v: seq<real>, kind: VectorType): Mat
    requires grid.Proper() && AllSolid(units) && |v| == |units|
  {
    (i, j) => CellValue(grid, units, v, kind, i, j)
  }

  function Powers(v: seq<real>): Vec {
    u => if 0 <= u < |v| then v[u] else 0.0
  }

  /** The cells of a layer together have the power of its units. */
  lemma PowerConserved(grid: Grid, units: seq<Rect>, v: seq<real>)
    requires grid.Proper() && AllOnChip(grid, units) && AllSolid(units) && |v| == |units|
    ensures TotalSum(grid.rows, grid.cols, CellValues(grid, units, v, V_POWER)) == Sum(|units|, Powers(v))
  {
    hide Share, OnChip, DensityOf, Weighted, ListOf;
    var w := Density(units, v, V_POWER);
    forall i, j | 0 <= i < grid.rows && 0 <= j < grid.cols
      ensures CellValues(grid, units, v, V_POWER)(i, j) == GivenMat(grid, units, |units|, w)(i, j)
    {
      ListShares(grid, units, |units|, i, j, w);
    }
    forall u | 0 <= u < |units|
      ensures Powers(v)(u) == w(u) * (units[u].width * units[u].height)
    {
      DensityTimesArea(v[u], units[u]);
    }
    GivenSum(grid, units, |units|, w, Powers(v));
    TotalSame(grid.rows, grid.cols, CellValues(grid, units, v, V_POWER), GivenMat(grid, units, |units|, w));
  }

  /** With the idle power added, up to just that term. */
  lemma IdlePowerAdded(grid: Grid, units: seq<Rect>, v: seq<real>, idle: seq<real>, g: Mat)
    requires grid.Proper() && AllOnChip(grid, units) && AllSolid(units) && |v| == |units|
    requires forall i, j | 0 <= i < grid.rows && 0 <= j < grid.cols ::
               g(i, j) == CellValue(grid, units, v, V_POWER, i, j) + IDLE_FACTOR * IdleMat(grid, idle)(i, j)
    ensures TotalSum(grid.rows, grid.cols, g) ==
            Sum(|units|, Powers(v)) + IDLE_FACTOR * TotalSum(grid.rows, grid.cols, IdleMat(grid, idle))
  {
    hide CellValue, OnChip, Solid;
    PowerConserved(grid, units, v);
    TotalPlusTimes(grid.rows, grid.cols, CellValues(grid, units, v, V_POWER), IdleMat(grid, idle), IDLE_FACTOR, g);
  }

  // ----- every cell is full -----

  const One: Vec := _ => 1.0

  lemma {:induction false} TotalAsSum(f: Measure, units: seq<Rect>, terms: Vec, n: nat)
    requires n <= |units| && forall u | 0 <= u < |units| :: terms(u) == f(units[u])
    ensures Total(f, units[..n]) == Sum(n, terms)
  {
    if n > 0 {
      TotalAsSum(f, units, terms, n - 1);
      assert units[..n][..n - 1] == units[..n - 1];
    }
  }

  /** On any floorplan that fills the chip, the occupancies of every cell sum to one. */
  lemma OccupanciesSumToOne(grid: Grid, units: seq<Rect>, i: int, j: int)
    requires grid.Proper() && Fills(units, Chip(grid)) && AllSolid(units) && 0 <= i < grid.rows && 0 <= j < grid.cols
    ensures Weighted(ListOf(grid, units, |units|, i, j), One) == 1.0
  {
    CellShared(grid, units, i, j);
    ListShares(grid, units, |units|, i, j, One);
    CellAreaPositive(grid);
    hide CellArea, Fills, ListOf, Weighted, Solid;
    SameQuotient(Weighted(ListOf(grid, units, |units|, i, j), One), CellArea(grid));
  }

  /** Units that fill the chip share the whole of each cell. */
  lemma CellShared(grid: Grid, units: seq<Rect>, i: int, j: int)
    requires grid.Proper() && Fills(units, Chip(grid)) && 0 <= i < grid.rows && 0 <= j < grid.cols
    ensures Sum(|units|, ShareTerms(grid, units, i, j, One)) == CellArea(grid)
  {
    hide Fills, Share, CellArea, Cell;
    var cell := Cell(grid, i, j);
    CellInChip(grid, i, j);
    FillsTiles(units, Chip(grid));
    forall u | 0 <= u < |units|
      ensures ShareTerms(grid, units, i, j, One)(u) == Occupies(cell)(units[u])
    {
      ShareIsOverlap(grid, units[u], i, j);
    }
    TotalAsSum(Occupies(cell), units, ShareTerms(grid, units, i, j, One), |units|);
    assert units[..|units|] == units;
  }

  lemma ShareIsOverlap(grid: Grid, u: Rect, i: int, j: int)
    requires grid.Proper()
    ensures Occupies(Cell(grid, i, j))(u) == Share(grid, u, i, j)
  {
    OccupiesShared(grid, u, i, j);
  }

  lemma SameQuotient(a: real, c: real)
    requires c > 0.0 && a * c == c
    ensures a == 1.0
  {
    assert (a - 1.0) * c == 0.0;
  }

  /** A cell lies on the chip, so that the chip shares all of it. */
  lemma CellInChip(grid: Grid, i: int, j: int)
    requires grid.Proper() && 0 <= i < grid.rows && 0 <= j < grid.cols
    ensures var cell := Cell(grid, i, j);
            cell.width >= 0.0 && cell.height >= 0.0 && Occupies(cell)(Chip(grid)) == CellArea(grid)
  {
    CellEdges(grid, i, j);
    LineSteps(j, grid.CellWidth());
    LineSteps(grid.rows - 1 - i, grid.CellHeight());
    LinesBetween(j, grid.cols, grid.CellWidth());
    LinesBetween(grid.rows - 1 - i, grid.rows, grid.CellHeight());
    ShareIsOverlap(grid, Chip(grid), i, j);
    hide Line, Occupies, Grid.CellWidth, Grid.CellHeight;
    assert SharedX(grid, Chip(grid), j) == grid.CellWidth() && SharedY(grid, Chip(grid), i) == grid.CellHeight();
  }

  lemma LinesBetween(k: int, n: int, size: real)
    requires 0 <= k < n && size > 0.0
    ensures 0.0 <= Line(k, size) && Line(k + 1, size) <= Line(n, size)
  {
    LineDifference(n, k + 1, size);
    assert (n - k - 1) as real * size >= 0.0;
  }

  /** So the temperature of a cell is a mean of those of its units: within their bounds, whatever
      the bounds. */
  lemma TemperatureBetween(grid: Grid, units: seq<Rect>, v: seq<real>, i: int, j: int, low: real, high: real)
    requires grid.Proper() && Fills(units, Chip(grid)) && AllSolid(units) && 0 <= i < grid.rows && 0 <= j < grid.cols
    requires |v| == |units| && forall u | 0 <= u < |v| :: low <= v[u] <= high
    ensures low <= CellValue(grid, units, v, V_TEMP, i, j) <= high
  {
    OccupanciesSumToOne(grid, units, i, j);
    WeightedBetween(grid, units, |units|, i, j, Density(units, v, V_TEMP), low, high);
  }

  lemma {:induction false} WeightedBetween(grid: Grid, units: seq<Rect>, n: nat, i: int, j: int, w: Vec, low: real,
                                           high: real)
    requires grid.Proper() && AllSolid(units) && n <= |units| && forall u | 0 <= u < n :: low <= w(u) <= high
    ensures SumBetween(ListOf(grid, units, n, i, j), w, low, high)
  {
    hide Occupancy, ExtentOf, Solid, SumBetween, Weighted;
    if n == 0 {
      NothingBetween(w, low, high);
    } else {
      WeightedBetween(grid, units, n - 1, i, j, w, low, high);
      if ExtentOf(grid, units[n - 1]).Holds(i, j) {
        OccupancyPositive(grid, units[n - 1], i, j);
        BetweenOneMore(ListOf(grid, units, n - 1, i, j), Entry(n - 1, Occupancy(grid, units[n - 1], i, j)), w, low,
                       high);
      }
    }
  }

  /** The weighted sum is between the bounds, times the occupancies. */
  ghost predicate SumBetween(list: seq<Entry>, w: Vec, low: real, high: real) {
    low * Weighted(list, One) <= Weighted(list, w) <= high * Weighted(list, One)
  }

  lemma NothingBetween(w: Vec, low: real, high: real)
    ensures SumBetween([], w, low, high)
  {
  }

  lemma BetweenOneMore(list: seq<Entry>, e: Entry, w: Vec, low: real, high: real)
    requires low <= w(e.idx) <= high && e.occupancy >= 0.0 && SumBetween(list, w, low, high)
    ensures SumBetween(list + [e], w, low, high)
  {
    assert (list + [e])[..|list|] == list;
    Between(low, w(e.idx), high, e.occupancy, Weighted(list, One), Weighted(list, w));
  }

  lemma OccupancyPositive(grid: Grid, u: Rect, i: int, j: int)
    requires grid.Proper() && Solid(u) && ExtentOf(grid, u).Holds(i, j)
    ensures Occupancy(grid, u, i, j) >= 0.0
  {
    ExtentExact(grid, u, i, j);
    CellSizes(grid);
  }

  lemma Between(low: real, w: real, high: real, part: real, ones: real, sum: real)
    requires low <= w <= high && part >= 0.0 && low * ones <= sum <= high * ones
    ensures low * (ones + part * 1.0) <= sum + part * w <= high * (ones + part * 1.0)
  {
    assert low * (ones + part) == low * ones + low * part && high * (ones + part) == high * ones + high * part;
    assert low * part <= part * w <= high * part;
  }
}
