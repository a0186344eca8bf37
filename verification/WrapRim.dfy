/** Wrapping rim strips around a floorplan (flp_wrap_rim, HotSpot/flp.c): one strip for each edge
    on which a unit abuts the border, the corners going to the strips in a clockwise fashion. */
module WrapRim {
  import opened Geometry
  import opened Placement
  import opened SizingSpec
  import opened FloorplanExtents

  // ----- the strips of one unit -----

  predicate OnWest(u: Rect, t: real) { u.leftx == t }
  predicate OnEast(u: Rect, x1: real) { u.leftx + u.width == x1 }
  predicate OnNorth(u: Rect, y1: real) { u.bottomy + u.height == y1 }
  predicate OnSouth(u: Rect, t: real) { u.bottomy == t }

  function WestStrip(u: Rect, t: real, y1: real): seq<Rect> {
    if !OnWest(u, t) then []
    else [Rect(0.0, u.bottomy, t, if OnNorth(u, y1) then u.height + t else u.height)]
  }

  function EastStrip(u: Rect, t: real, x1: real): seq<Rect> {
    if !OnEast(u, x1) then []
    else if OnSouth(u, t) then [Rect(u.leftx + u.width, 0.0, t, u.height + t)]
    else [Rect(u.leftx + u.width, u.bottomy, t, u.height)]
  }

  function NorthStrip(u: Rect, t: real, x1: real, y1: real): seq<Rect> {
    if !OnNorth(u, y1) then []
    else [Rect(u.leftx, u.bottomy + u.height, if OnEast(u, x1) then u.width + t else u.width, t)]
  }

  function SouthStrip(u: Rect, t: real): seq<Rect> {
    if !OnSouth(u, t) then []
    else if OnWest(u, t) then [Rect(0.0, 0.0, u.width + t, t)]
    else [Rect(u.leftx, 0.0, u.width, t)]
  }

  /** The strips that a unit gets; the units lie between t and (x1, y1). */
  function RimOf(u: Rect, t: real, x1: real, y1: real): seq<Rect> {
    WestStrip(u, t, y1) + EastStrip(u, t, x1) + NorthStrip(u, t, x1, y1) + SouthStrip(u, t)
  }

  function Rim(units: seq<Rect>, t: real, x1: real, y1: real): seq<Rect> {
    if units == [] then []
    else Rim(units[..|units| - 1], t, x1, y1) + RimOf(units[|units| - 1], t, x1, y1)
  }

  // ----- the strips of a floor fill the frame -----

  /** 1 for an interval that starts at the point, among those that do not start before it. */
  function StartsAt(p: real): Length {
    (a, w) => if a <= p < a + w then 1.0 else 0.0
  }

  /** 1 for an interval that ends at the point, among those that do not end after it. */
  function EndsAt(p: real): Length {
    (a, w) => if a < p <= a + w then 1.0 else 0.0
  }

  /** f of the strip on each side of a rectangle, with the corner if the rectangle has it. */
  function WestLength(f: Measure, t: real, y1: real): Length {
    (b, h) => f(Rect(0.0, b, t, h)) + EndsAt(y1)(b, h) * f(Rect(0.0, y1, t, t))
  }

  function EastLength(f: Measure, t: real, x1: real): Length {
    (b, h) => f(Rect(x1, b, t, h)) + StartsAt(t)(b, h) * f(Rect(x1, 0.0, t, t))
  }

  function NorthLength(f: Measure, t: real, x1: real, y1: real): Length {
    (l, w) => f(Rect(l, y1, w, t)) + EndsAt(x1)(l, w) * f(Rect(x1, y1, t, t))
  }

  function SouthLength(f: Measure, t: real): Length {
    (l, w) => f(Rect(l, 0.0, w, t)) + StartsAt(t)(l, w) * f(Rect(0.0, 0.0, t, t))
  }

  lemma {:induction false} WestAdditive(f: Measure, t: real, y1: real)
    requires Additive(f) && t >= 0.0
    ensures LengthAdditive(WestLength(f, t, y1))
  {
    forall b: real, p: real, q: real | p >= 0.0 && q >= 0.0
      ensures Splits(WestLength(f, t, y1), b, p, q)
    {
      assert SplitsY(f, 0.0, b, t, p, q);
    }
  }

  lemma {:induction false} EastAdditive(f: Measure, t: real, x1: real)
    requires Additive(f) && t >= 0.0
    ensures LengthAdditive(EastLength(f, t, x1))
  {
    forall b: real, p: real, q: real | p >= 0.0 && q >= 0.0
      ensures Splits(EastLength(f, t, x1), b, p, q)
    {
      assert SplitsY(f, x1, b, t, p, q);
    }
  }

  lemma {:induction false} NorthAdditive(f: Measure, t: real, x1: real, y1: real)
    requires Additive(f) && t >= 0.0
    ensures LengthAdditive(NorthLength(f, t, x1, y1))
  {
    forall l: real, p: real, q: real | p >= 0.0 && q >= 0.0
      ensures Splits(NorthLength(f, t, x1, y1), l, p, q)
    {
      assert SplitsX(f, l, y1, p, q, t);
    }
  }

  lemma {:induction false} SouthAdditive(f: Measure, t: real)
    requires Additive(f) && t >= 0.0
    ensures LengthAdditive(SouthLength(f, t))
  {
    forall l: real, p: real, q: real | p >= 0.0 && q >= 0.0
      ensures Splits(SouthLength(f, t), l, p, q)
    {
      assert SplitsX(f, l, 0.0, p, q, t);
    }
  }

  /** f of the strips on the west side of a rectangle, as a measure of the rectangle. */
  function West(f: Measure, t: real, y1: real): Measure {
    Product(StartsAt(t), WestLength(f, t, y1))
  }

  function East(f: Measure, t: real, x1: real): Measure {
    Product(EndsAt(x1), EastLength(f, t, x1))
  }

  function North(f: Measure, t: real, x1: real, y1: real): Measure {
    Product(NorthLength(f, t, x1, y1), EndsAt(y1))
  }

  function South(f: Measure, t: real): Measure {
    Product(SouthLength(f, t), StartsAt(t))
  }

  lemma SidesAdditive(f: Measure, t: real, x1: real, y1: real)
    requires Additive(f) && t >= 0.0
    ensures Additive(West(f, t, y1)) && Additive(East(f, t, x1)) && Additive(North(f, t, x1, y1))
    ensures Additive(South(f, t))
  {
    WestAdditive(f, t, y1);
    EastAdditive(f, t, x1);
    NorthAdditive(f, t, x1, y1);
    SouthAdditive(f, t);
    ProductAdditive(StartsAt(t), WestLength(f, t, y1));
    ProductAdditive(EndsAt(x1), EastLength(f, t, x1));
    ProductAdditive(NorthLength(f, t, x1, y1), EndsAt(y1));
    ProductAdditive(SouthLength(f, t), StartsAt(t));
  }

  /** The unit is not degenerate and lies between t and (x1, y1). */
  ghost predicate Within(u: Rect, t: real, x1: real, y1: real) {
    Solid(u) && t <= u.leftx && t <= u.bottomy && u.leftx + u.width <= x1 && u.bottomy + u.height <= y1
  }

  ghost predicate AllWithin(units: seq<Rect>, t: real, x1: real, y1: real) {
    forall i | 0 <= i < |units| :: Within(units[i], t, x1, y1)
  }

  lemma WestTotal(f: Measure, u: Rect, t: real, x1: real, y1: real)
    requires Additive(f) && t >= 0.0 && Within(u, t, x1, y1)
    ensures Total(f, WestStrip(u, t, y1)) == West(f, t, y1)(u)
  {
    if OnWest(u, t) {
      TotalOfOne(f, WestStrip(u, t, y1)[0]);
      assert SplitsY(f, 0.0, u.bottomy, t, u.height, t);
    }
  }

  lemma EastTotal(f: Measure, u: Rect, t: real, x1: real, y1: real)
    requires Additive(f) && t >= 0.0 && Within(u, t, x1, y1)
    ensures Total(f, EastStrip(u, t, x1)) == East(f, t, x1)(u)
  {
    if OnEast(u, x1) {
      TotalOfOne(f, EastStrip(u, t, x1)[0]);
      assert SplitsY(f, x1, 0.0, t, t, u.height);
    }
  }

  lemma NorthTotal(f: Measure, u: Rect, t: real, x1: real, y1: real)
    requires Additive(f) && t >= 0.0 && Within(u, t, x1, y1)
    ensures Total(f, NorthStrip(u, t, x1, y1)) == North(f, t, x1, y1)(u)
  {
    if OnNorth(u, y1) {
      TotalOfOne(f, NorthStrip(u, t, x1, y1)[0]);
      assert SplitsX(f, u.leftx, y1, u.width, t, t);
    }
  }

  lemma SouthTotal(f: Measure, u: Rect, t: real, x1: real, y1: real)
    requires Additive(f) && t >= 0.0 && Within(u, t, x1, y1)
    ensures Total(f, SouthStrip(u, t)) == South(f, t)(u)
  {
    if OnSouth(u, t) {
      TotalOfOne(f, SouthStrip(u, t)[0]);
      assert SplitsX(f, 0.0, 0.0, t, u.width, t);
    }
  }

  /** f of all the strips of a rectangle. */
  function Around(f: Measure, t: real, x1: real, y1: real): Measure {
    (r: Rect) => West(f, t, y1)(r) + East(f, t, x1)(r) + North(f, t, x1, y1)(r) + South(f, t)(r)
  }

  lemma UnitTotal(f: Measure, u: Rect, t: real, x1: real, y1: real)
    requires Additive(f) && t >= 0.0 && Within(u, t, x1, y1)
    ensures Total(f, RimOf(u, t, x1, y1)) == Around(f, t, x1, y1)(u)
  {
    WestTotal(f, u, t, x1, y1);
    EastTotal(f, u, t, x1, y1);
    NorthTotal(f, u, t, x1, y1);
    SouthTotal(f, u, t, x1, y1);
    var w, e, n, s := WestStrip(u, t, y1), EastStrip(u, t, x1), NorthStrip(u, t, x1, y1), SouthStrip(u, t);
    TotalConcat(f, w + e + n, s);
    TotalConcat(f, w + e, n);
    TotalConcat(f, w, e);
  }

  lemma SumAdditive(f: Measure, g: Measure, sum: Measure)
    requires Additive(f) && Additive(g) && forall r :: sum(r) == f(r) + g(r)
    ensures Additive(sum)
  {
    forall l: real, b: real, w1: real, w2: real, h: real | w1 >= 0.0 && w2 >= 0.0 && h >= 0.0
      ensures SplitsX(sum, l, b, w1, w2, h)
    {
      assert SplitsX(f, l, b, w1, w2, h) && SplitsX(g, l, b, w1, w2, h);
    }
    forall l: real, b: real, w: real, h1: real, h2: real | w >= 0.0 && h1 >= 0.0 && h2 >= 0.0
      ensures SplitsY(sum, l, b, w, h1, h2)
    {
      assert SplitsY(f, l, b, w, h1, h2) && SplitsY(g, l, b, w, h1, h2);
    }
  }

  lemma AroundAdditive(f: Measure, t: real, x1: real, y1: real)
    requires Additive(f) && t >= 0.0
    ensures Additive(Around(f, t, x1, y1))
  {
    SidesAdditive(f, t, x1, y1);
    var w, e, n, s := West(f, t, y1), East(f, t, x1), North(f, t, x1, y1), South(f, t);
    var we: Measure := (r: Rect) => w(r) + e(r);
    var wen: Measure := (r: Rect) => we(r) + n(r);
    SumAdditive(w, e, we);
    SumAdditive(we, n, wen);
    SumAdditive(wen, s, Around(f, t, x1, y1));
  }

  lemma {:induction false} RimTotal(f: Measure, units: seq<Rect>, t: real, x1: real, y1: real)
    requires Additive(f) && t >= 0.0 && AllWithin(units, t, x1, y1)
    ensures Total(f, Rim(units, t, x1, y1)) == Total(Around(f, t, x1, y1), units)
  {
    if units != [] {
      var m := |units| - 1;
      RimTotal(f, units[..m], t, x1, y1);
      UnitTotal(f, units[m], t, x1, y1);
      TotalConcat(f, Rim(units[..m], t, x1, y1), RimOf(units[m], t, x1, y1));
    }
  }

  /** The box of the units, and the box with the rim. */
  function CoreBox(t: real, w: real, h: real): Rect {
    Rect(t, t, w, h)
  }

  function Frame(t: real, w: real, h: real): Rect {
    Rect(0.0, 0.0, w + 2.0 * t, h + 2.0 * t)
  }

  /** A single unit that is as large as the box: its four strips go round it like a pinwheel. */
  lemma BoxFramed(f: Measure, t: real, w: real, h: real)
    requires Additive(f) && t >= 0.0 && w > 0.0 && h > 0.0
    ensures f(CoreBox(t, w, h)) + Around(f, t, t + w, t + h)(CoreBox(t, w, h)) == f(Frame(t, w, h))
  {
    var u, x1, y1 := CoreBox(t, w, h), t + w, t + h;
    UnitTotal(f, u, t, x1, y1);
    var a, b, c, d := Rect(0.0, t, t, h + t), Rect(x1, 0.0, t, h + t), Rect(t, y1, w + t, t), Rect(0.0, 0.0, w + t, t);
    assert RimOf(u, t, x1, y1) == [a] + [b] + [c] + [d];
    TotalConcat(f, [a] + [b] + [c], [d]);
    TotalConcat(f, [a] + [b], [c]);
    TotalConcat(f, [a], [b]);
    TotalOfOne(f, a);
    TotalOfOne(f, b);
    TotalOfOne(f, c);
    TotalOfOne(f, d);
    Pinwheel(f, t, w, h);
  }

  lemma Pinwheel(f: Measure, t: real, w: real, h: real)
    requires Additive(f) && t >= 0.0 && w > 0.0 && h > 0.0
    ensures f(Rect(t, t, w, h)) + f(Rect(0.0, t, t, h + t)) + f(Rect(t + w, 0.0, t, h + t)) +
            f(Rect(t, t + h, w + t, t)) +
            f(Rect(0.0, 0.0, w + t, t)) == f(Frame(t, w, h))
  {
    assert SplitsX(f, 0.0, 0.0, t, w + t, h + 2.0 * t) && t + (w + t) == w + 2.0 * t && 0.0 + t == t;
    assert SplitsY(f, 0.0, 0.0, t, t, h + t) && t + (h + t) == h + 2.0 * t;
    assert SplitsY(f, t, 0.0, w + t, t + h, t) && 0.0 + (t + h) == t + h && t + h + t == h + 2.0 * t;
    assert SplitsX(f, t, 0.0, w, t, t + h);
    assert SplitsY(f, t, 0.0, w, t, h);
    assert SplitsX(f, 0.0, 0.0, t, w, t) && t + w == w + t;
  }

  ghost predicate Bordered(units: seq<Rect>, t: real, w: real, h: real) {
    t >= 0.0 && Floored(units, CoreBox(t, w, h), true)
  }

  lemma BorderedWithin(units: seq<Rect>, t: real, w: real, h: real)
    requires Bordered(units, t, w, h)
    ensures w > 0.0 && h > 0.0 && AllWithin(units, t, t + w, t + h)
  {
    assert forall i | 0 <= i < |units| :: units[i] in units;
  }

  /** Whatever adds up, the units have as much of it as their box. */
  lemma BorderedTotal(f: Measure, units: seq<Rect>, t: real, w: real, h: real)
    requires Bordered(units, t, w, h) && Additive(f)
    ensures Total(f, units) == f(CoreBox(t, w, h))
  {
  }

  lemma FrameTotal(f: Measure, units: seq<Rect>, t: real, w: real, h: real)
    requires Bordered(units, t, w, h) && Additive(f)
    ensures Total(f, units + Rim(units, t, t + w, t + h)) == f(Frame(t, w, h))
  {
    TotalConcat(f, units, Rim(units, t, t + w, t + h));
    assert Total(f, Rim(units, t, t + w, t + h)) == Around(f, t, t + w, t + h)(CoreBox(t, w, h)) by {
      StripsTotal(f, units, t, w, h);
    }
    assert f(CoreBox(t, w, h)) + Around(f, t, t + w, t + h)(CoreBox(t, w, h)) == f(Frame(t, w, h)) by {
      BorderedWithin(units, t, w, h);
      BoxFramed(f, t, w, h);
    }
    BorderedTotal(f, units, t, w, h);
  }

  /** All the strips together have as much as the strips of a single unit as large as the box. */
  lemma StripsTotal(f: Measure, units: seq<Rect>, t: real, w: real, h: real)
    requires Bordered(units, t, w, h) && Additive(f)
    ensures Total(f, Rim(units, t, t + w, t + h)) == Around(f, t, t + w, t + h)(CoreBox(t, w, h))
  {
    hide Additive, Fills;
    BorderedWithin(units, t, w, h);
    RimTotal(f, units, t, t + w, t + h);
    AroundAdditive(f, t, t + w, t + h);
    BorderedTotal(Around(f, t, t + w, t + h), units, t, w, h);
  }

  /** Units that fill their box, and their rim, fill the frame: no gap and no overlap anywhere on
      the four sides or in the four corners. */
  lemma RimFills(units: seq<Rect>, t: real, w: real, h: real)
    requires Bordered(units, t, w, h)
    ensures Fills(units + Rim(units, t, t + w, t + h), Frame(t, w, h))
  {
    forall f | Additive(f)
      ensures Total(f, units + Rim(units, t, t + w, t + h)) == f(Frame(t, w, h))
    {
      FrameTotal(f, units, t, w, h);
    }
  }

  lemma UnitRimInside(u: Rect, t: real, w: real, h: real)
    requires t >= 0.0 && Within(u, t, t + w, t + h)
    ensures AllInside(RimOf(u, t, t + w, t + h), Frame(t, w, h), t > 0.0)
  {
    var a, b, c, d := WestStrip(u, t, t + h), EastStrip(u, t, t + w), NorthStrip(u, t, t + w, t + h), SouthStrip(u, t);
    var frame := Frame(t, w, h);
    assert AllInside(a, frame, t > 0.0) && AllInside(b, frame, t > 0.0) && AllInside(c, frame, t > 0.0) &&
           AllInside(d, frame, t > 0.0);
  }

  lemma InsideBoth(a: seq<Rect>, b: seq<Rect>, box: Rect, solid: bool)
    requires AllInside(a, box, solid) && AllInside(b, box, solid)
    ensures AllInside(a + b, box, solid)
  {
  }

  lemma {:induction false} RimInside(units: seq<Rect>, t: real, w: real, h: real)
    requires t >= 0.0 && AllWithin(units, t, t + w, t + h)
    ensures AllInside(Rim(units, t, t + w, t + h), Frame(t, w, h), t > 0.0)
  {
    if units != [] {
      var m := |units| - 1;
      RimInside(units[..m], t, w, h);
      UnitRimInside(units[m], t, w, h);
      InsideBoth(Rim(units[..m], t, t + w, t + h), RimOf(units[m], t, t + w, t + h), Frame(t, w, h), t > 0.0);
    }
  }

  // ----- how many strips -----

  /** How many of the two ends of the interval from t to p it has. */
  function EndsOf(t: real, p: real): Length {
    (a, w) => (if a <= t < a + w then 1.0 else 0.0) + (if a < p <= a + w then 1.0 else 0.0)
  }

  /** How many corners of the box a unit has. */
  function Corners(t: real, x1: real, y1: real): Measure {
    Product(EndsOf(t, x1), EndsOf(t, y1))
  }

  /** The unit goes from one border to the opposite one. */
  predicate Spans(u: Rect, t: real, x1: real, y1: real) {
    (OnWest(u, t) && OnEast(u, x1)) || (OnNorth(u, y1) && OnSouth(u, t))
  }

  ghost predicate AllSpan(units: seq<Rect>, t: real, x1: real, y1: real) {
    forall i | 0 <= i < |units| :: Spans(units[i], t, x1, y1)
  }

  /** With a and b borders in the two directions a unit has a * b corners, and (2 - a) * (2 - b)
      cannot be negative. */
  lemma UnitSides(u: Rect, t: real, x1: real, y1: real)
    requires Within(u, t, x1, y1)
    ensures var twice := 2.0 * |RimOf(u, t, x1, y1)| as real;
            twice <= 4.0 + Corners(t, x1, y1)(u) && (twice == 4.0 + Corners(t, x1, y1)(u) <==> Spans(u, t, x1, y1))
  {
    var a, b := EndsOf(t, x1)(u.leftx, u.width), EndsOf(t, y1)(u.bottomy, u.height);
    assert a == (if OnWest(u, t) then 1.0 else 0.0) + (if OnEast(u, x1) then 1.0 else 0.0);
    assert b == (if OnSouth(u, t) then 1.0 else 0.0) + (if OnNorth(u, y1) then 1.0 else 0.0);
    assert |RimOf(u, t, x1, y1)| as real == a + b;
  }

  lemma {:induction false} RimSides(units: seq<Rect>, t: real, x1: real, y1: real)
    requires AllWithin(units, t, x1, y1)
    ensures var twice, most := 2.0 * |Rim(units, t, x1, y1)| as real,
            4.0 * |units| as real + Total(Corners(t, x1, y1), units);
            twice <= most && (twice == most <==> AllSpan(units, t, x1, y1))
  {
    hide RimOf;
    if units != [] {
      var m := |units| - 1;
      RimSides(units[..m], t, x1, y1);
      UnitSides(units[m], t, x1, y1);
    }
  }

  lemma CornersAdditive(t: real, x1: real, y1: real)
    ensures Additive(Corners(t, x1, y1))
  {
    EndsAdditive(t, x1);
    EndsAdditive(t, y1);
    ProductAdditive(EndsOf(t, x1), EndsOf(t, y1));
  }

  lemma EndsAdditive(t: real, p: real)
    ensures LengthAdditive(EndsOf(t, p))
  {
  }

  lemma CountFromCorners(units: seq<Rect>, t: real, x1: real, y1: real)
    requires AllWithin(units, t, x1, y1) && Total(Corners(t, x1, y1), units) == 4.0
    ensures RimCounted(units, t, x1, y1)
  {
    RimSides(units, t, x1, y1);
  }

  /** At most 2n + 2 strips for n units, and just so many exactly if every unit spans the
      floorplan in one direction. */
  ghost predicate RimCounted(units: seq<Rect>, t: real, x1: real, y1: real) {
    var rim := |Rim(units, t, x1, y1)|;
    rim <= 2 * |units| + 2 && (rim == 2 * |units| + 2 <==> AllSpan(units, t, x1, y1))
  }

  /** n units get at most 2n + 2 strips, the number of slots set aside for them. */
  lemma RimCount(units: seq<Rect>, t: real, w: real, h: real)
    requires Bordered(units, t, w, h)
    ensures RimCounted(units, t, t + w, t + h)
  {
    hide Floored;
    BorderedWithin(units, t, w, h);
    CornersTotal(units, t, w, h);
    CountFromCorners(units, t, t + w, t + h);
  }

  lemma CornersTotal(units: seq<Rect>, t: real, w: real, h: real)
    requires Bordered(units, t, w, h)
    ensures Total(Corners(t, t + w, t + h), units) == 4.0 && Additive(Corners(t, t + w, t + h))
  {
    CornersAdditive(t, t + w, t + h);
    BorderedTotal(Corners(t, t + w, t + h), units, t, w, h);
    BorderedWithin(units, t, w, h);
    BoxCorners(t, w, h);
  }

  lemma BoxCorners(t: real, w: real, h: real)
    requires w > 0.0 && h > 0.0
    ensures Corners(t, t + w, t + h)(CoreBox(t, w, h)) == 4.0
  {
    assert EndsOf(t, t + w)(t, w) == 2.0 && EndsOf(t, t + h)(t, h) == 2.0;
  }

  // ----- the in-place form -----

  /** A block on the western border; the northwest corner is its strip's. */
  method AppendWest(units: array<Rect>, k: nat, unit: Rect, t: real, height: real) returns (k': nat)
    requires k + |WestStrip(unit, t, height - t)| <= units.Length
    modifies units
    ensures k' == k + |WestStrip(unit, t, height - t)|
    ensures units[..k'] == old(units[..k]) + WestStrip(unit, t, height - t)
  {
    k' := k;
    if unit.leftx == t {
      units[k] := Rect(0.0, unit.bottomy, t, unit.height);
      if unit.bottomy + unit.height == height - t {
        units[k] := Rect(0.0, unit.bottomy, t, unit.height + t);
      }
      k' := k + 1;
    }
  }

  /** A block on the eastern border; the southeast corner is its strip's. */
  method AppendEast(units: array<Rect>, k: nat, unit: Rect, t: real, width: real) returns (k': nat)
    requires k + |EastStrip(unit, t, width - t)| <= units.Length
    modifies units
    ensures k' == k + |EastStrip(unit, t, width - t)| && units[..k'] == old(units[..k]) + EastStrip(unit, t, width - t)
  {
    k' := k;
    if unit.leftx + unit.width == width - t {
      units[k] := Rect(unit.leftx + unit.width, unit.bottomy, t, unit.height);
      if unit.bottomy == t {
        units[k] := Rect(unit.leftx + unit.width, 0.0, t, unit.height + t);
      }
      k' := k + 1;
    }
  }

  /** A block on the northern border; the northeast corner is its strip's. */
  method AppendNorth(units: array<Rect>, k: nat, unit: Rect, t: real, width: real, height: real) returns (k': nat)
    requires k + |NorthStrip(unit, t, width - t, height - t)| <= units.Length
    modifies units
    ensures k' == k + |NorthStrip(unit, t, width - t, height - t)|
    ensures units[..k'] == old(units[..k]) + NorthStrip(unit, t, width - t, height - t)
  {
    k' := k;
    if unit.bottomy + unit.height == height - t {
      units[k] := Rect(unit.leftx, unit.bottomy + unit.height, unit.width, t);
      if unit.leftx + unit.width == width - t {
        units[k] := Rect(unit.leftx, unit.bottomy + unit.height, unit.width + t, t);
      }
      k' := k + 1;
    }
  }

  /** A block on the southern border; the southwest corner is its strip's. */
  method AppendSouth(units: array<Rect>, k: nat, unit: Rect, t: real) returns (k': nat)
    requires k + |SouthStrip(unit, t)| <= units.Length
    modifies units
    ensures k' == k + |SouthStrip(unit, t)| && units[..k'] == old(units[..k]) + SouthStrip(unit, t)
  {
    k' := k;
    if unit.bottomy == t {
      units[k] := Rect(unit.leftx, 0.0, unit.width, t);
      if unit.leftx == t {
        units[k] := Rect(0.0, 0.0, unit.width + t, t);
      }
      k' := k + 1;
    }
  }

  /** The strips of one unit are appended after the first k slots. */
  method AppendStrips(units: array<Rect>, k: nat, unit: Rect, t: real, width: real, height: real) returns (k': nat)
    requires k + |RimOf(unit, t, width - t, height - t)| <= units.Length
    modifies units
    ensures k' == k + |RimOf(unit, t, width - t, height - t)|
    ensures units[..k'] == old(units[..k]) + RimOf(unit, t, width - t, height - t)
  {
    k' := AppendWest(units, k, unit, t, height);
    k' := AppendEast(units, k', unit, t, width);
    k' := AppendNorth(units, k', unit, t, width, height);
    k' := AppendSouth(units, k', unit, t);
  }

  lemma {:induction false} RimPrefix(units: seq<Rect>, i: nat, t: real, x1: real, y1: real)
    requires i < |units|
    ensures Rim(units[..i + 1], t, x1, y1) == Rim(units[..i], t, x1, y1) + RimOf(units[i], t, x1, y1)
    ensures |Rim(units[..i + 1], t, x1, y1)| <= |Rim(units, t, x1, y1)|
    decreases |units| - i
  {
    assert units[..i + 1][..i] == units[..i];
    if i + 1 < |units| {
      RimPrefix(units, i + 1, t, x1, y1);
    } else {
      assert units[..i + 1] == units;
    }
  }

  /** After i units: the units, and the strips of those i. */
  ghost function Rimmed(core: seq<Rect>, i: nat, t: real, x1: real, y1: real): seq<Rect>
    requires i <= |core|
  {
    core + Rim(core[..i], t, x1, y1)
  }

  lemma RimmedNext(core: seq<Rect>, i: nat, t: real, x1: real, y1: real)
    requires i < |core|
    ensures Rimmed(core, i, t, x1, y1)[i] == core[i]
    ensures Rimmed(core, i + 1, t, x1, y1) == Rimmed(core, i, t, x1, y1) + RimOf(core[i], t, x1, y1)
    ensures |Rimmed(core, i + 1, t, x1, y1)| <= |core| + |Rim(core, t, x1, y1)|
  {
    hide RimOf;
    RimPrefix(core, i, t, x1, y1);
    var a, b := Rim(core[..i], t, x1, y1), RimOf(core[i], t, x1, y1);
    assert core + (a + b) == (core + a) + b;
  }

  /** The loop of flp_wrap_rim. */
  method AppendRim(units: array<Rect>, n: nat, t: real, width: real, height: real, ghost core: seq<Rect>)
    returns (k: nat)
    requires n <= units.Length && core == units[..n] && n + |Rim(core, t, width - t, height - t)| <= units.Length
    modifies units
    ensures n <= k <= units.Length && units[..k] == core + Rim(core, t, width - t, height - t)
  {
    hide RimOf;
    k := n;
    for i := 0 to n
      invariant n <= k <= units.Length && units[..k] == Rimmed(core, i, t, width - t, height - t)
    {
      RimmedNext(core, i, t, width - t, height - t);
      assert units[i] == units[..k][i];
      k := AppendStrips(units, k, units[i], t, width, height);
    }
    assert core[..n] == core;
  }

  /** The start of flp_wrap_rim: the size of the frame, and the floorplan in the middle of it. */
  method CenterInFrame(flp: Floorplan, t: real, ghost box: Rect) returns (width: real, height: real)
    requires flp.nUnits <= flp.units.Length && Floored(Counted(flp), box, true)
    modifies flp.units
    ensures width - t == t + box.width && height - t == t + box.height
    ensures Counted(flp) == Moved(old(Counted(flp)), t - box.leftx, t - box.bottomy)
    ensures Floored(Counted(flp), Rect(t, t, box.width, box.height), true)
  {
    width := GetTotalWidth(flp, box, true);
    height := GetTotalHeight(flp, box, true);
    width, height := width + 2.0 * t, height + 2.0 * t;
    FlpTranslate(flp, t, t, box, true);
  }

  /** flp_wrap_rim. The floorplan moves to (t, t), and a rim is appended to it that completes it
      to a frame; at most 2n + 2 slots are used. */
  method FlpWrapRim(flp: Floorplan, t: real, ghost box: Rect) returns (j: nat)
    requires 3 * flp.nUnits + 2 <= flp.units.Length && Floored(Counted(flp), box, true) && t >= 0.0
    modifies flp, flp.units
    ensures flp.nUnits == old(flp.nUnits) + j && j <= 2 * old(flp.nUnits) + 2 && flp.nUnits <= flp.units.Length
    ensures Counted(flp) == WithRim(Moved(old(Counted(flp)), t - box.leftx, t - box.bottomy), t, box.width, box.height)
    ensures Floored(Counted(flp), Frame(t, box.width, box.height), t > 0.0)
  {
    var width, height := CenterInFrame(flp, t, box);
    ghost var core := Counted(flp);
    RimFloored(core, t, box.width, box.height);
    var k := AppendRim(flp.units, flp.nUnits, t, width, height, core);
    j := k - flp.nUnits;
    flp.nUnits := flp.nUnits + j;
  }

  /** The units with their rim. */
  function WithRim(units: seq<Rect>, t: real, w: real, h: real): seq<Rect> {
    units + Rim(units, t, t + w, t + h)
  }

  lemma RimFloored(units: seq<Rect>, t: real, w: real, h: real)
    requires t >= 0.0 && Floored(units, Rect(t, t, w, h), true)
    ensures |WithRim(units, t, w, h)| <= 3 * |units| + 2
    ensures Floored(WithRim(units, t, w, h), Frame(t, w, h), t > 0.0)
  {
    RimCount(units, t, w, h);
    RimFills(units, t, w, h);
    BorderedWithin(units, t, w, h);
    RimInside(units, t, w, h);
    UnitsInFrame(units, t, w, h);
    InsideBoth(units, Rim(units, t, t + w, t + h), Frame(t, w, h), t > 0.0);
  }

  lemma UnitsInFrame(units: seq<Rect>, t: real, w: real, h: real)
    requires t >= 0.0 && AllWithin(units, t, t + w, t + h)
    ensures AllInside(units, Frame(t, w, h), t > 0.0)
  {
  }
}
