/** Which units of a floorplan are neighbours, and the length of the edge that they share
    (is_horiz_adj, is_vert_adj and get_shared_len, HotSpot/flp.c). */
module Adjacency {
  import opened Numbers
  import opened Geometry

  /** eq: equal up to the tolerance. */
  predicate Eq(x: real, y: real) {
    Abs(x - y) < DELTA
  }

  function Right(r: Rect): real { r.leftx + r.width }
  function Top(r: Rect): real { r.bottomy + r.height }

  /** They meet at a corner. */
  predicate Diagonal(a: Rect, b: Rect) {
    (Eq(Right(a), b.leftx) && Eq(Top(a), b.bottomy)) || (Eq(a.leftx, Right(b)) && Eq(a.bottomy, Top(b))) ||
    (Eq(Right(a), b.leftx) && Eq(a.bottomy, Top(b))) || (Eq(a.leftx, Right(b)) && Eq(Top(a), b.bottomy))
  }

  /** One of the four ends lies between the other two. */
  predicate Meet(a1: real, a2: real, b1: real, b2: real) {
    a1 <= b1 <= a2 || a1 <= b2 <= a2 || b1 <= a1 <= b2 || b1 <= a2 <= b2
  }

  /** is_horiz_adj, for two different units. */
  predicate IsHorizAdj(a: Rect, b: Rect) {
    !Diagonal(a, b) && (Eq(a.leftx, Right(b)) || Eq(Right(a), b.leftx)) && Meet(a.bottomy, Top(a), b.bottomy, Top(b))
  }

  /** is_vert_adj. */
  predicate IsVertAdj(a: Rect, b: Rect) {
    !Diagonal(a, b) && (Eq(a.bottomy, Top(b)) || Eq(Top(a), b.bottomy)) && Meet(a.leftx, Right(a), b.leftx, Right(b))
  }

  function GetSharedLen(a: Rect, b: Rect): real {
    var p11, p12, p21, p22 :=
      if IsVertAdj(a, b) then a.leftx else if IsHorizAdj(a, b) then a.bottomy else 0.0,
      if IsVertAdj(a, b) then Right(a) else if IsHorizAdj(a, b) then Top(a) else 0.0,
      if IsVertAdj(a, b) then b.leftx else if IsHorizAdj(a, b) then b.bottomy else 0.0,
      if IsVertAdj(a, b) then Right(b) else if IsHorizAdj(a, b) then Top(b) else 0.0;
    Min(p12, p22) - Max(p11, p21)
  }

  /** Neighbours are so from both sides, and never in both directions. */
  lemma AdjacencySymmetric(a: Rect, b: Rect)
    ensures IsHorizAdj(a, b) <==> IsHorizAdj(b, a)
    ensures IsVertAdj(a, b) <==> IsVertAdj(b, a)
    ensures !(IsHorizAdj(a, b) && IsVertAdj(a, b))
  {
  }

  /** Two units share an edge of some length just if they are neighbours: corners do not count. */
  lemma SharedIffAdjacent(a: Rect, b: Rect)
    requires Solid(a) && Solid(b)
    ensures GetSharedLen(a, b) == GetSharedLen(b, a) >= 0.0
    ensures GetSharedLen(a, b) > 0.0 <==> IsHorizAdj(a, b) || IsVertAdj(a, b)
  {
    AdjacencySymmetric(a, b);
  }
}
