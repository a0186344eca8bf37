/** Placed rectangles, and sums over them of quantities that add up when a rectangle is cut in
    two. Area, the number of rectangles over a point, and the overlap with a grid cell are such
    quantities, so one theorem about their sums is a theorem about all three. */
module Geometry {
  import opened Numbers

  datatype Rect = Rect(leftx: real, bottomy: real, width: real, height: real)

  /** A rectangle owns its left and bottom edges, not its right and top ones. */
  predicate Contains(r: Rect, px: real, py: real) {
    r.leftx <= px < r.leftx + r.width && r.bottomy <= py < r.bottomy + r.height
  }

  ghost predicate Solid(r: Rect) {
    r.width > 0.0 && r.height > 0.0
  }

  // ----- quantities that add up -----

  type Measure = Rect -> real

  ghost predicate SplitsX(f: Measure, l: real, b: real, w1: real, w2: real, h: real) {
    f(Rect(l, b, w1 + w2, h)) == f(Rect(l, b, w1, h)) + f(Rect(l + w1, b, w2, h))
  }

  ghost predicate SplitsY(f: Measure, l: real, b: real, w: real, h1: real, h2: real) {
    f(Rect(l, b, w, h1 + h2)) == f(Rect(l, b, w, h1)) + f(Rect(l, b + h1, w, h2))
  }

  /** f of a rectangle is f of its two parts, whichever way it is cut. */
  ghost predicate Additive(f: Measure) {
    (forall l, b, w1, w2, h :: w1 >= 0.0 && w2 >= 0.0 && h >= 0.0 ==> SplitsX(f, l, b, w1, w2, h)) &&
    (forall l, b, w, h1, h2 :: w >= 0.0 && h1 >= 0.0 && h2 >= 0.0 ==> SplitsY(f, l, b, w, h1, h2))
  }

  function Total(f: Measure, rects: seq<Rect>): real {
    if rects == [] then 0.0 else Total(f, rects[..|rects| - 1]) + f(rects[|rects| - 1])
  }

  lemma {:induction false} TotalConcat(f: Measure, a: seq<Rect>, b: seq<Rect>)
    ensures Total(f, a + b) == Total(f, a) + Total(f, b)
  {
    if b == [] {
      assert a + b == a;
    } else {
      var m := |b| - 1;
      assert (a + b)[..|a + b| - 1] == a + b[..m];
      TotalConcat(f, a, b[..m]);
    }
  }

  // ----- products of lengths -----

  /** A quantity of an interval, given by its start and its length. */
  type Length = (real, real) -> real

  ghost predicate Splits(g: Length, a: real, p: real, q: real) {
    g(a, p + q) == g(a, p) + g(a + p, q)
  }

  ghost predicate LengthAdditive(g: Length) {
    forall a, p, q :: p >= 0.0 && q >= 0.0 ==> Splits(g, a, p, q)
  }

  function Product(gx: Length, gy: Length): Measure {
    (r: Rect) => gx(r.leftx, r.width) * gy(r.bottomy, r.height)
  }

  lemma Distribute(p: real, q: real, v: real)
    ensures (p + q) * v == p * v + q * v
    ensures v * (p + q) == v * p + v * q
  {
  }

  lemma ProductAdditive(gx: Length, gy: Length)
    requires LengthAdditive(gx) && LengthAdditive(gy)
    ensures Additive(Product(gx, gy))
  {
    var f := Product(gx, gy);
    forall l: real, b: real, w1: real, w2: real, h: real | w1 >= 0.0 && w2 >= 0.0 && h >= 0.0
      ensures SplitsX(f, l, b, w1, w2, h)
    {
      assert Splits(gx, l, w1, w2);
      Distribute(gx(l, w1), gx(l + w1, w2), gy(b, h));
    }
    forall l: real, b: real, w: real, h1: real, h2: real | w >= 0.0 && h1 >= 0.0 && h2 >= 0.0
      ensures SplitsY(f, l, b, w, h1, h2)
    {
      assert Splits(gy, b, h1, h2);
      Distribute(gy(b, h1), gy(b + h1, h2), gx(l, w));
    }
  }

  // ----- area -----

  const Area: Measure := (r: Rect) => r.width * r.height

  lemma AreaAdditive()
    ensures Additive(Area)
  {
    var len: Length := (a, w) => w;
    assert forall a, p, q :: Splits(len, a, p, q);
    ProductAdditive(len, len);
    SameMeasure(Product(len, len), Area);
  }

  lemma SameMeasure(f: Measure, g: Measure)
    requires Additive(f) && forall r :: f(r) == g(r)
    ensures Additive(g)
  {
    forall l: real, b: real, w1: real, w2: real, h: real | w1 >= 0.0 && w2 >= 0.0 && h >= 0.0
      ensures SplitsX(g, l, b, w1, w2, h)
    {
      assert SplitsX(f, l, b, w1, w2, h);
    }
    forall l: real, b: real, w: real, h1: real, h2: real | w >= 0.0 && h1 >= 0.0 && h2 >= 0.0
      ensures SplitsY(g, l, b, w, h1, h2)
    {
      assert SplitsY(f, l, b, w, h1, h2);
    }
  }

  // ----- cover of a point -----

  function Covers(px: real, py: real): Measure {
    (r: Rect) => if Contains(r, px, py) then 1.0 else 0.0
  }

  lemma CoversAdditive(px: real, py: real)
    ensures Additive(Covers(px, py))
  {
  }

  /** The point is in exactly one of the rectangles if it is in the box, else in none. */
  ghost predicate TiledAt(rects: seq<Rect>, box: Rect, px: real, py: real) {
    if Contains(box, px, py) then
      (exists i :: 0 <= i < |rects| && Contains(rects[i], px, py)) &&
      (forall i, j | 0 <= i < |rects| && 0 <= j < |rects| &&
                     Contains(rects[i], px, py) && Contains(rects[j], px, py) :: i == j)
    else
      forall i | 0 <= i < |rects| :: !Contains(rects[i], px, py)
  }

  /** The rectangles tile the box: they do not overlap, fill it, and stay inside it. */
  ghost predicate Tiles(rects: seq<Rect>, box: Rect) {
    forall px, py :: TiledAt(rects, box, px, py)
  }

  lemma {:induction false} NothingCovers(rects: seq<Rect>, px: real, py: real)
    ensures Total(Covers(px, py), rects) >= 0.0
    ensures Total(Covers(px, py), rects) < 1.0 ==> forall i | 0 <= i < |rects| :: !Contains(rects[i], px, py)
    ensures Total(Covers(px, py), rects) > 0.0 ==> exists i :: 0 <= i < |rects| && Contains(rects[i], px, py)
    ensures Total(Covers(px, py), rects) < 2.0 ==>
              forall i, j | 0 <= i < |rects| && 0 <= j < |rects| ::
                Contains(rects[i], px, py) && Contains(rects[j], px, py) ==> i == j
  {
    if rects != [] {
      var m := |rects| - 1;
      NothingCovers(rects[..m], px, py);
      assert forall i | 0 <= i < m :: rects[..m][i] == rects[i];
    }
  }

  /** Rectangles that cover each point as often as the box does tile the box. */
  lemma CoveredOnceTiles(rects: seq<Rect>, box: Rect)
    requires forall px, py :: Total(Covers(px, py), rects) == Covers(px, py)(box)
    ensures Tiles(rects, box)
  {
    forall px, py
      ensures TiledAt(rects, box, px, py)
    {
      NothingCovers(rects, px, py);
      assert Total(Covers(px, py), rects) == Covers(px, py)(box);
    }
  }

  // ----- overlap with a cell -----

  function Overlap(a: real, b: real, c: real, d: real): real {
    Max(0.0, Min(b, d) - Max(a, c))
  }

  function SharedLength(c: real, d: real): Length {
    (a, w) => Overlap(a, a + w, c, d)
  }

  /** The area that a rectangle shares with the cell. */
  function Occupies(cell: Rect): Measure {
    Product(SharedLength(cell.leftx, cell.leftx + cell.width),
            SharedLength(cell.bottomy, cell.bottomy + cell.height))
  }

  lemma OverlapSplits(a: real, m: real, b: real, c: real, d: real)
    requires a <= m <= b && c <= d
    ensures Overlap(a, b, c, d) == Overlap(a, m, c, d) + Overlap(m, b, c, d)
  {
  }

  lemma SharedLengthAdditive(c: real, d: real)
    requires c <= d
    ensures LengthAdditive(SharedLength(c, d))
  {
    forall a: real, p: real, q: real | p >= 0.0 && q >= 0.0
      ensures Splits(SharedLength(c, d), a, p, q)
    {
      assert a + (p + q) == a + p + q;
      OverlapSplits(a, a + p, a + p + q, c, d);
    }
  }

  lemma OccupiesAdditive(cell: Rect)
    requires cell.width >= 0.0 && cell.height >= 0.0
    ensures Additive(Occupies(cell))
  {
    SharedLengthAdditive(cell.leftx, cell.leftx + cell.width);
    SharedLengthAdditive(cell.bottomy, cell.bottomy + cell.height);
    ProductAdditive(SharedLength(cell.leftx, cell.leftx + cell.width),
                    SharedLength(cell.bottomy, cell.bottomy + cell.height));
  }

  // ----- the same rectangles in another order -----

  /** The sum of f over those entries of an array that are listed in keep. */
  function TotalOf(f: Measure, a: seq<Rect>, keep: set<int>): real {
    if a == [] then 0.0
    else TotalOf(f, a[..|a| - 1], keep) + (if |a| - 1 in keep then f(a[|a| - 1]) else 0.0)
  }

  lemma {:induction false} TotalOfOneMore(f: Measure, a: seq<Rect>, keep: set<int>, u: int)
    requires 0 <= u && u !in keep
    ensures TotalOf(f, a, keep + {u}) == TotalOf(f, a, keep) + (if u < |a| then f(a[u]) else 0.0)
  {
    if a != [] {
      TotalOfOneMore(f, a[..|a| - 1], keep, u);
    }
  }

  lemma {:induction false} TotalOfAll(f: Measure, a: seq<Rect>, keep: set<int>)
    requires forall i | 0 <= i < |a| :: i in keep
    ensures TotalOf(f, a, keep) == Total(f, a)
  {
    if a != [] {
      TotalOfAll(f, a[..|a| - 1], keep);
    }
  }

  lemma {:induction false} TotalOfNone(f: Measure, a: seq<Rect>)
    ensures TotalOf(f, a, {}) == 0.0
  {
    if a != [] {
      TotalOfNone(f, a[..|a| - 1]);
    }
  }

  /** Reading distinct entries in any order gives the sum over those entries. */
  lemma {:induction false} TotalInOrder(f: Measure, a: seq<Rect>, order: seq<int>, picked: seq<Rect>)
    requires |picked| == |order|
    requires forall i | 0 <= i < |order| :: 0 <= order[i] < |a| && picked[i] == a[order[i]]
    requires forall i, j | 0 <= i < j < |order| :: order[i] != order[j]
    ensures Total(f, picked) == TotalOf(f, a, set i | i in order)
  {
    if order == [] {
      TotalOfNone(f, a);
      assert (set i | i in order) == {};
    } else {
      var m := |order| - 1;
      TotalInOrder(f, a, order[..m], picked[..m]);
      var keep := set i | i in order[..m];
      assert (set i | i in order) == keep + {order[m]};
      TotalOfOneMore(f, a, keep, order[m]);
    }
  }

  // ----- filling a box -----

  /** Whatever adds up under cutting, the rectangles have exactly as much of it as the box. */
  ghost predicate Fills(rects: seq<Rect>, box: Rect) {
    forall f {:trigger Total(f, rects)} :: Additive(f) ==> Total(f, rects) == f(box)
  }

  /** Rectangles that fill a box tile it, have its area, and share with every cell of a grid the
      area that the box shares with the cell. */
  lemma FillsTiles(rects: seq<Rect>, box: Rect)
    requires Fills(rects, box)
    ensures Tiles(rects, box)
    ensures Total(Area, rects) == box.width * box.height
    ensures forall cell: Rect :: cell.width >= 0.0 && cell.height >= 0.0 ==>
            Total(Occupies(cell), rects) == Occupies(cell)(box)
  {
    hide Additive, Total, Tiles, Contains;
    CoveredAsBox(rects, box);
    CoveredOnceTiles(rects, box);
    AreaAdditive();
    OccupiedAsBox(rects, box);
  }

  lemma CoveredAsBox(rects: seq<Rect>, box: Rect)
    requires Fills(rects, box)
    ensures forall px: real, py: real :: Total(Covers(px, py), rects) == Covers(px, py)(box)
  {
    hide Additive, Total, Contains, Covers;
    forall px: real, py: real
      ensures Total(Covers(px, py), rects) == Covers(px, py)(box)
    {
      CoversAdditive(px, py);
    }
  }

  lemma OccupiedAsBox(rects: seq<Rect>, box: Rect)
    requires Fills(rects, box)
    ensures forall cell: Rect :: cell.width >= 0.0 && cell.height >= 0.0 ==>
            Total(Occupies(cell), rects) == Occupies(cell)(box)
  {
    hide Additive, Total, Occupies;
    forall cell: Rect | cell.width >= 0.0 && cell.height >= 0.0
      ensures Total(Occupies(cell), rects) == Occupies(cell)(box)
    {
      OccupiesAdditive(cell);
    }
  }
}
