/** Wrapping a second-level cache around a core (flp_wrap_l2, HotSpot/flp.c): a base below the
    core and an arm on either side, whose area is just that of the cache. */
module WrapL2 {
  import opened Geometry
  import opened Placement
  import opened SizingSpec
  import opened FloorplanExtents

  const L2_ARMS: nat := 2
  const WRAP_L2_RATIO: real := 5.0

  /** The square root of the C library, without its rounding. */
  ghost predicate IsSqrt(sqrt: real -> real) {
    forall v | v >= 0.0 :: sqrt(v) >= 0.0 && sqrt(v) * sqrt(v) == v
  }

  lemma SquareOrder(a: real, b: real)
    requires a >= 0.0 && b >= 0.0
    ensures a * a < b * b <==> a < b
    ensures a * a == b * b <==> a == b
  {
    var d, e := b - a, a + b;
    assert d * e == b * b - a * a;
    if d > 0.0 {
      assert d * e > 0.0;
    } else if d < 0.0 {
      assert (-d) * e > 0.0;
    }
  }

  /** The margins are right for a core of the given size: the outline around core and cache has
      exactly the area of both. */
  ghost predicate Encloses(x: real, y: real, w: real, h: real, area: real) {
    x > 0.0 && y > 0.0 && (2.0 * x + w) * (y + h) == w * h + area
  }

  /** The positive root of the equation for a fixed aspect ratio of the margins. */
  lemma MarginRoot(sum: real, area: real, root: real, x: real)
    requires sum >= 0.0 && area > 0.0 && root >= 0.0
    requires root * root == sum * sum + 8.0 * WRAP_L2_RATIO * area && x == (root - sum) / (4.0 * WRAP_L2_RATIO)
    ensures x > 0.0 && 10.0 * (x * x) + sum * x == area
  {
    SquareOrder(sum, root);
    assert root == 20.0 * x + sum;
    assert root * root == (20.0 * x + sum) * (20.0 * x + sum) == 400.0 * (x * x) + 40.0 * (sum * x) + sum * sum;
  }

  lemma EnclosesWide(w: real, h: real, area: real, x: real)
    requires w > 0.0 && h > 0.0 && x > 0.0 && 10.0 * (x * x) + (5.0 * w + 2.0 * h) * x == area
    ensures Encloses(x, 5.0 * x, w, h, area)
  {
    calc {
      (2.0 * x + w) * (5.0 * x + h);
    ==
      (2.0 * x + w) * (5.0 * x) + (2.0 * x + w) * h;
    ==
      10.0 * (x * x) + w * (5.0 * x) + 2.0 * x * h + w * h;
    ==
      w * h + area;
    }
  }

  lemma EnclosesTall(w: real, h: real, area: real, y: real)
    requires w > 0.0 && h > 0.0 && y > 0.0 && 10.0 * (y * y) + (w + 10.0 * h) * y == area
    ensures Encloses(5.0 * y, y, w, h, area)
  {
    calc {
      (2.0 * (5.0 * y) + w) * (y + h);
    ==
      (10.0 * y + w) * y + (10.0 * y + w) * h;
    ==
      10.0 * (y * y) + w * y + 10.0 * (y * h) + w * h;
    ==
      w * h + area;
    }
  }

  /** The width of the arms and the height of the base. */
  datatype Margins = Margins(x: real, y: real)

  /** The margins when no square chip is possible: in the ratio of one to five, the larger one
      below if the core is wide, else on its sides. */
  function RatioMargins(w: real, h: real, area: real, sqrt: real -> real): (m: Margins)
    requires w > 0.0 && h > 0.0 && area > 0.0 && IsSqrt(sqrt)
    ensures Encloses(m.x, m.y, w, h, area) && if w >= h then m.y == 5.0 * m.x else m.x == 5.0 * m.y
  {
    if w >= h then
      var sum := WRAP_L2_RATIO * w + 2.0 * h;
      var root := sqrt(sum * sum + 8.0 * WRAP_L2_RATIO * area);
      var x := (root - sum) / (4.0 * WRAP_L2_RATIO);
      MarginRoot(sum, area, root, x);
      EnclosesWide(w, h, area, x);
      Margins(x, WRAP_L2_RATIO * x)
    else
      var sum := w + 2.0 * WRAP_L2_RATIO * h;
      var root := sqrt(sum * sum + 8.0 * WRAP_L2_RATIO * area);
      var y := (root - sum) / (4.0 * WRAP_L2_RATIO);
      MarginRoot(sum, area, root, y);
      EnclosesTall(w, h, area, y);
      Margins(WRAP_L2_RATIO * y, y)
  }

  /** The margins around a core of the given size. The chip is a square exactly if a square of
      that area is wider and higher than the core; otherwise they are in the ratio of one to five. */
  function L2Margins(w: real, h: real, area: real, sqrt: real -> real): (m: Margins)
    requires w > 0.0 && h > 0.0 && area > 0.0 && IsSqrt(sqrt)
    ensures Encloses(m.x, m.y, w, h, area)
    ensures if w * w < w * h + area && h * h < w * h + area then 2.0 * m.x + w == m.y + h
            else if w >= h then m.y == 5.0 * m.x else m.x == 5.0 * m.y
  {
    var side := sqrt(w * h + area);
    SideOrder(w, h, w * h + area, sqrt);
    var x, y := (side - w) / 2.0, side - h;
    if x <= 0.0 || y <= 0.0 then RatioMargins(w, h, area, sqrt) else Margins(x, y)
  }

  lemma SideOrder(w: real, h: real, total: real, sqrt: real -> real)
    requires w > 0.0 && h > 0.0 && total > 0.0 && IsSqrt(sqrt)
    ensures sqrt(total) * sqrt(total) == total
    ensures w * w < total <==> w < sqrt(total)
    ensures h * h < total <==> h < sqrt(total)
  {
    SquareOrder(w, sqrt(total));
    SquareOrder(h, sqrt(total));
  }

  /** The pieces of the cache, in the order of their slots: base, left arm, right arm. */
  function L2Pieces(x: real, y: real, w: real, h: real): seq<Rect> {
    [Rect(0.0, 0.0, 2.0 * x + w, y), Rect(0.0, y, x, h), Rect(x + w, y, x, h)]
  }

  lemma TotalOfThree(f: Measure, a: Rect, b: Rect, c: Rect)
    ensures Total(f, [a, b, c]) == f(a) + f(b) + f(c)
  {
    assert [a, b, c] == [a] + [b] + [c];
    TotalConcat(f, [a] + [b], [c]);
    TotalConcat(f, [a], [b]);
    TotalOfOne(f, a);
    TotalOfOne(f, b);
    TotalOfOne(f, c);
  }

  /** The outline of core and cache together. */
  function Outer(x: real, y: real, w: real, h: real): Rect {
    Rect(0.0, 0.0, 2.0 * x + w, y + h)
  }

  /** Core and cache fill the outline. */
  lemma L2Fills(core: seq<Rect>, x: real, y: real, w: real, h: real, solid: bool)
    requires Floored(core, Rect(x, y, w, h), solid) && x > 0.0 && y > 0.0
    ensures Floored(core + L2Pieces(x, y, w, h), Outer(x, y, w, h), solid)
  {
    var pieces := L2Pieces(x, y, w, h);
    forall f | Additive(f)
      ensures Total(f, core + pieces) == f(Outer(x, y, w, h))
    {
      TotalConcat(f, core, pieces);
      TotalOfThree(f, pieces[0], pieces[1], pieces[2]);
      assert SplitsY(f, 0.0, 0.0, 2.0 * x + w, y, h);
      assert SplitsX(f, 0.0, y, x, w + x, h);
      assert SplitsX(f, 0.0 + x, y, w, x, h);
    }
  }

  /** The cache has its own area. */
  lemma L2PiecesArea(x: real, y: real, w: real, h: real, area: real)
    requires Encloses(x, y, w, h, area)
    ensures Total(Area, L2Pieces(x, y, w, h)) == area
  {
    var p := L2Pieces(x, y, w, h);
    TotalOfThree(Area, p[0], p[1], p[2]);
    assert (2.0 * x + w) * (y + h) == (2.0 * x + w) * y + (2.0 * x) * h + w * h;
  }

  /** A core that fills the box, with the cache around it. */
  function WithL2(core: seq<Rect>, box: Rect, area: real, sqrt: real -> real): seq<Rect>
    requires box.width > 0.0 && box.height > 0.0 && area > 0.0 && IsSqrt(sqrt)
  {
    var m := L2Margins(box.width, box.height, area, sqrt);
    Moved(core, m.x - box.leftx, m.y - box.bottomy) + L2Pieces(m.x, m.y, box.width, box.height)
  }

  lemma OuterArea(m: Margins, box: Rect, area: real)
    requires Encloses(m.x, m.y, box.width, box.height, area)
    ensures Area(Outer(m.x, m.y, box.width, box.height)) == Area(box) + area
  {
  }

  /** The outline of such a chip. */
  function L2Outer(box: Rect, area: real, sqrt: real -> real): (r: Rect)
    requires box.width > 0.0 && box.height > 0.0 && area > 0.0 && IsSqrt(sqrt)
    ensures r.width > box.width && r.height > box.height && Area(r) == Area(box) + area
  {
    var m := L2Margins(box.width, box.height, area, sqrt);
    OuterArea(m, box, area);
    Outer(m.x, m.y, box.width, box.height)
  }

  /** flp_wrap_l2. A core that fills a box becomes a chip that fills a rectangle of the area of
      core and cache together; the pieces of the cache have just the area of the cache. */
  method FlpWrapL2(flp: Floorplan, area: real, sqrt: real -> real, ghost box: Rect, ghost solid: bool)
    requires flp.nUnits + L2_ARMS + 1 <= flp.units.Length && Floored(Counted(flp), box, solid)
    requires box.width > 0.0 && box.height > 0.0 && area > 0.0 && IsSqrt(sqrt)
    modifies flp, flp.units
    ensures flp.nUnits == old(flp.nUnits) + L2_ARMS + 1 && flp.nUnits <= flp.units.Length
    ensures Counted(flp) == WithL2(old(Counted(flp)), box, area, sqrt)
    ensures Floored(Counted(flp), L2Outer(box, area, sqrt), solid)
    ensures Total(Area, flp.units[old(flp.nUnits)..flp.nUnits]) == area
  {
    var coreArea, coreWidth, coreHeight := CoreSize(flp, box, solid);
    var m := L2Margins(coreWidth, coreHeight, area, sqrt);
    FlpTranslate(flp, m.x, m.y, box, solid);
    L2Fills(Counted(flp), m.x, m.y, coreWidth, coreHeight, solid);
    L2PiecesArea(m.x, m.y, coreWidth, coreHeight, area);
    AppendL2(flp, m.x, m.y, coreWidth, coreHeight, 2.0 * m.x + coreWidth);
  }

  method CoreSize(flp: Floorplan, ghost box: Rect, ghost solid: bool) returns (area: real, width: real, height: real)
    requires flp.nUnits <= flp.units.Length && Floored(Counted(flp), box, solid)
    ensures width == box.width && height == box.height && area == width * height
  {
    hide Fills;
    assert Total(Area, Counted(flp)) == box.width * box.height by {
      FillsTiles(Counted(flp), box);
    }
    area := GetTotalArea(flp);
    width := GetTotalWidth(flp, box, solid);
    height := GetTotalHeight(flp, box, solid);
  }

  /** The end of flp_wrap_l2: the slots of the base and the arms. */
  method AppendL2(flp: Floorplan, x: real, y: real, coreWidth: real, coreHeight: real, side: real)
    requires flp.nUnits + L2_ARMS + 1 <= flp.units.Length && side == 2.0 * x + coreWidth
    modifies flp, flp.units
    ensures flp.nUnits == old(flp.nUnits) + L2_ARMS + 1
    ensures Counted(flp) == old(Counted(flp)) + L2Pieces(x, y, coreWidth, coreHeight)
    ensures flp.units[old(flp.nUnits)..flp.nUnits] == L2Pieces(x, y, coreWidth, coreHeight)
  {
    flp.nUnits := flp.nUnits + L2_ARMS + 1;
    flp.units[flp.nUnits - 1 - L2_ARMS] := Rect(0.0, 0.0, side, y);
    flp.units[flp.nUnits - L2_ARMS + 0] := Rect(0.0, y, x, coreHeight);
    flp.units[flp.nUnits - L2_ARMS + 1] := Rect(x + coreWidth, y, x, coreHeight);
  }
}
