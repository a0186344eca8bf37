/** Totals over a floorplan, and its translation (HotSpot/flp.c). */
module FloorplanExtents {
  import opened Numbers
  import opened Geometry
  import opened Placement
  import opened SizingSpec

  // ----- extents -----

  const LeftEdge: Measure := (r: Rect) => r.leftx
  const RightEdge: Measure := (r: Rect) => r.leftx + r.width
  const BottomEdge: Measure := (r: Rect) => r.bottomy
  const TopEdge: Measure := (r: Rect) => r.bottomy + r.height

  ghost predicate IsLeast(f: Measure, rects: seq<Rect>, v: real) {
    (exists i :: 0 <= i < |rects| && f(rects[i]) == v) && forall i | 0 <= i < |rects| :: v <= f(rects[i])
  }

  ghost predicate IsMost(f: Measure, rects: seq<Rect>, v: real) {
    (exists i :: 0 <= i < |rects| && f(rects[i]) == v) && forall i | 0 <= i < |rects| :: f(rects[i]) <= v
  }

  /** The first units of a floorplan: those that count. */
  ghost function Counted(flp: Floorplan): (r: seq<Rect>)
    requires flp.nUnits <= flp.units.Length
    reads flp, flp.units
    ensures |r| == flp.nUnits
  {
    flp.units[..flp.nUnits]
  }

  /** One end of get_total_width and get_total_height. */
  method LeastOf(f: Measure, flp: Floorplan) returns (v: real)
    requires 1 <= flp.nUnits <= flp.units.Length
    ensures IsLeast(f, Counted(flp), v)
  {
    v := f(flp.units[0]);
    for i := 1 to flp.nUnits
      invariant IsLeast(f, flp.units[..i], v)
    {
      assert flp.units[..i + 1] == flp.units[..i] + [flp.units[i]];
      if f(flp.units[i]) < v {
        v := f(flp.units[i]);
        assert f(flp.units[..i + 1][i]) == v;
      }
    }
  }

  method MostOf(f: Measure, flp: Floorplan) returns (v: real)
    requires 1 <= flp.nUnits <= flp.units.Length
    ensures IsMost(f, Counted(flp), v)
  {
    v := f(flp.units[0]);
    for i := 1 to flp.nUnits
      invariant IsMost(f, flp.units[..i], v)
    {
      assert flp.units[..i + 1] == flp.units[..i] + [flp.units[i]];
      if f(flp.units[i]) > v {
        v := f(flp.units[i]);
        assert f(flp.units[..i + 1][i]) == v;
      }
    }
  }

  /** Rectangles inside a box that fill it, the box having an inside. */
  ghost predicate Floored(rects: seq<Rect>, box: Rect, solid: bool) {
    Fills(rects, box) && AllInside(rects, box, solid) && Solid(box)
  }

  /** Such rectangles reach all four edges of the box. */
  lemma FlooredExtents(rects: seq<Rect>, box: Rect, solid: bool)
    requires Floored(rects, box, solid)
    ensures rects != []
    ensures IsLeast(LeftEdge, rects, box.leftx) && IsMost(RightEdge, rects, box.leftx + box.width)
    ensures IsLeast(BottomEdge, rects, box.bottomy) && IsMost(TopEdge, rects, box.bottomy + box.height)
  {
    hide Fills, IsMost, Total;
    FillsTiles(rects, box);
    assert TiledAt(rects, box, box.leftx, box.bottomy);
    assert forall i | 0 <= i < |rects| :: rects[i] in rects;
    ReachesEdge(RightEdge, rects, box);
    ReachesEdge(TopEdge, rects, box);
  }

  lemma {:induction false} GreatestOf(f: Measure, rects: seq<Rect>) returns (v: real)
    requires rects != []
    ensures IsMost(f, rects, v)
  {
    if |rects| == 1 {
      v := f(rects[0]);
    } else {
      var m := |rects| - 1;
      v := GreatestOf(f, rects[..m]);
      assert forall i | 0 <= i < m :: rects[..m][i] == rects[i];
      v := Max(v, f(rects[m]));
    }
  }

  lemma ReachesEdge(f: Measure, rects: seq<Rect>, box: Rect)
    requires Tiles(rects, box) && AllInside(rects, box, false) && Solid(box) && rects != []
    requires f == RightEdge || f == TopEdge
    ensures IsMost(f, rects, f(box))
  {
    var v := GreatestOf(f, rects);
    assert forall i | 0 <= i < |rects| :: rects[i] in rects;
    assert TiledAt(rects, box, Max(v, box.leftx), box.bottomy);
    assert TiledAt(rects, box, box.leftx, Max(v, box.bottomy));
  }

  /** get_total_width. */
  method GetTotalWidth(flp: Floorplan, ghost box: Rect, ghost solid: bool) returns (width: real)
    requires flp.nUnits <= flp.units.Length && Floored(Counted(flp), box, solid)
    ensures width == box.width
  {
    FlooredExtents(Counted(flp), box, solid);
    var minX := LeastOf(LeftEdge, flp);
    var maxX := MostOf(RightEdge, flp);
    width := maxX - minX;
  }

  /** get_total_height. */
  method GetTotalHeight(flp: Floorplan, ghost box: Rect, ghost solid: bool) returns (height: real)
    requires flp.nUnits <= flp.units.Length && Floored(Counted(flp), box, solid)
    ensures height == box.height
  {
    FlooredExtents(Counted(flp), box, solid);
    var minY := LeastOf(BottomEdge, flp);
    var maxY := MostOf(TopEdge, flp);
    height := maxY - minY;
  }

  /** get_total_area. */
  method GetTotalArea(flp: Floorplan) returns (area: real)
    requires flp.nUnits <= flp.units.Length
    ensures area == Total(Area, Counted(flp))
  {
    area := 0.0;
    for i := 0 to flp.nUnits
      invariant area == Total(Area, flp.units[..i])
    {
      assert flp.units[..i + 1][..i] == flp.units[..i];
      area := area + flp.units[i].width * flp.units[i].height;
    }
  }

  // ----- translation -----

  function Shifted(r: Rect, dx: real, dy: real): Rect {
    Rect(r.leftx + dx, r.bottomy + dy, r.width, r.height)
  }

  function Moved(rects: seq<Rect>, dx: real, dy: real): (m: seq<Rect>)
    ensures |m| == |rects| && forall i | 0 <= i < |rects| :: m[i] == Shifted(rects[i], dx, dy)
  {
    seq(|rects|, i requires 0 <= i < |rects| => Shifted(rects[i], dx, dy))
  }

  /** f, measured where the rectangle is moved to. */
  function After(f: Measure, dx: real, dy: real): Measure {
    (r: Rect) => f(Shifted(r, dx, dy))
  }

  lemma AfterAdditive(f: Measure, dx: real, dy: real)
    requires Additive(f)
    ensures Additive(After(f, dx, dy))
  {
    var g := After(f, dx, dy);
    forall l: real, b: real, w1: real, w2: real, h: real | w1 >= 0.0 && w2 >= 0.0 && h >= 0.0
      ensures SplitsX(g, l, b, w1, w2, h)
    {
      assert SplitsX(f, l + dx, b + dy, w1, w2, h);
      AfterAt(f, dx, dy, l, b, w1 + w2, h);
      AfterAt(f, dx, dy, l, b, w1, h);
      AfterAt(f, dx, dy, l + w1, b, w2, h);
    }
    forall l: real, b: real, w: real, h1: real, h2: real | w >= 0.0 && h1 >= 0.0 && h2 >= 0.0
      ensures SplitsY(g, l, b, w, h1, h2)
    {
      assert SplitsY(f, l + dx, b + dy, w, h1, h2);
      AfterAt(f, dx, dy, l, b, w, h1 + h2);
      AfterAt(f, dx, dy, l, b, w, h1);
      AfterAt(f, dx, dy, l, b + h1, w, h2);
    }
  }

  lemma AfterAt(f: Measure, dx: real, dy: real, l: real, b: real, w: real, h: real)
    ensures After(f, dx, dy)(Rect(l, b, w, h)) == f(Rect(l + dx, b + dy, w, h))
  {
    var r := Rect(l, b, w, h);
    assert After(f, dx, dy)(r) == f(Shifted(r, dx, dy));
  }

  lemma {:induction false} TotalMoved(f: Measure, rects: seq<Rect>, dx: real, dy: real)
    ensures Total(f, Moved(rects, dx, dy)) == Total(After(f, dx, dy), rects)
  {
    if rects != [] {
      var m := |rects| - 1;
      TotalMoved(f, rects[..m], dx, dy);
      assert Moved(rects, dx, dy)[..m] == Moved(rects[..m], dx, dy);
    }
  }

  /** A floor that is moved is a floor of the moved box. */
  lemma MovedFloored(rects: seq<Rect>, box: Rect, solid: bool, dx: real, dy: real)
    requires Floored(rects, box, solid)
    ensures Floored(Moved(rects, dx, dy), Rect(box.leftx + dx, box.bottomy + dy, box.width, box.height), solid)
  {
    forall f | Additive(f)
      ensures Total(f, Moved(rects, dx, dy)) == f(Shifted(box, dx, dy))
    {
      AfterAdditive(f, dx, dy);
      TotalMoved(f, rects, dx, dy);
    }
    forall r | r in Moved(rects, dx, dy)
      ensures Inside(r, Shifted(box, dx, dy)) && (solid ==> Solid(r))
    {
      var i :| 0 <= i < |rects| && r == Moved(rects, dx, dy)[i];
      assert rects[i] in rects;
    }
  }

  /** The first loop of flp_translate. */
  method LeastCorner(flp: Floorplan, ghost box: Rect, ghost solid: bool) returns (minx: real, miny: real)
    requires flp.nUnits <= flp.units.Length && Floored(Counted(flp), box, solid)
    ensures minx == box.leftx && miny == box.bottomy
  {
    FlooredExtents(Counted(flp), box, solid);
    minx := LeastOf(LeftEdge, flp);
    miny := LeastOf(BottomEdge, flp);
  }

  /** flp_translate: the lower left corner of the floorplan goes to (x, y). */
  method FlpTranslate(flp: Floorplan, x: real, y: real, ghost box: Rect, ghost solid: bool)
    requires flp.nUnits <= flp.units.Length && Floored(Counted(flp), box, solid)
    modifies flp.units
    ensures Counted(flp) == Moved(old(Counted(flp)), x - box.leftx, y - box.bottomy)
    ensures Floored(Counted(flp), Rect(x, y, box.width, box.height), solid)
    ensures flp.units[flp.nUnits..] == old(flp.units[flp.nUnits..])
  {
    MovedFloored(Counted(flp), box, solid, x - box.leftx, y - box.bottomy);
    var minx, miny := LeastCorner(flp, box, solid);
    ShiftAll(flp, x - minx, y - miny);
  }

  /** The second loop of flp_translate. */
  method ShiftAll(flp: Floorplan, dx: real, dy: real)
    requires flp.nUnits <= flp.units.Length
    modifies flp.units
    ensures Counted(flp) == Moved(old(Counted(flp)), dx, dy)
    ensures flp.units[flp.nUnits..] == old(flp.units[flp.nUnits..])
  {
    for i := 0 to flp.nUnits
      invariant forall k | 0 <= k < i :: flp.units[k] == Shifted(old(flp.units[k]), dx, dy)
      invariant forall k | i <= k < flp.units.Length :: flp.units[k] == old(flp.units[k])
    {
      flp.units[i] := Shifted(flp.units[i], dx, dy);
    }
  }
}
