/** The temperatures that the steady-state solver of the grid model starts from (set_heuristic_temp,
    HotSpot/temperature_grid.c): as if heat only flowed from layer to layer. */
module GridGuess {
  import opened GridNetwork
  import opened GridSweep
  import opened GridTransfer

  /** The power of the layers up to l, at one place. */
  function Upto(p: Temps, l: int, i: int, j: int): real
    decreases l
  {
    if l < 0 then 0.0 else Upto(p, l - 1, i, j) + p(Cell(l, i, j))
  }

  function Guess(m: Model, p: Temps, l: nat, i: int, j: int): real
    requires l < |m.layers|
    decreases |m.layers| - l
  {
    (if l == |m.layers| - 1 then m.ambient else Guess(m, p, l + 1, i, j)) + Drop(Upto(p, l, i, j), m.layers[l].rz)
  }

  /** The temperature difference that a flow makes at a resistance. */
  function Drop(flow: real, r: real): real {
    flow * r
  }

  function Guessed(m: Model, p: Temps): Temps {
    (x: Node) => if x.Cell? && IsNode(m, x) then Guess(m, p, x.l, x.i, x.j) else m.ambient
  }

  // ----- what the guess solves -----

  /** The flow from a node to a neighbour. */
  function OutOf(t: Temps, here: real): Weight {
    (k: Link) => Scaled(here - t(k.to), k.r)
  }

  /** The conductance to ambient through the sink. */
  function ThroughSink(m: Model, l: int): real
    requires Tall(m) && 0 <= l < |m.layers|
  {
    if l == HsIdx(m) then Inverse(m.layers[l].rz) else 0.0
  }

  /** The balance of a cell without its links to cells of the same layer, or to the rings, or from the
      board to ambient: heat goes up and down, and out through the sink. */
  ghost predicate VerticallyBalanced(m: Model, p: Temps, t: Temps, x: Node)
    requires Tall(m) && IsNode(m, x) && x.Cell?
  {
    (t(x) - m.ambient) * ThroughSink(m, x.l) + LinkSum(Above(m, x.l, x.i, x.j), OutOf(t, t(x))) +
    LinkSum(Below(m, x.l, x.i, x.j), OutOf(t, t(x))) == p(x)
  }

  ghost predicate AllVertical(m: Model, p: Temps, t: Temps)
    requires Tall(m)
  {
    forall l, i, j | IsNode(m, Cell(l, i, j)) :: VerticallyBalanced(m, p, t, Cell(l, i, j))
  }

  /** What flows from a cell to the one below, or to ambient. */
  function Down(m: Model, t: Temps, l: int, i: int, j: int): real
    requires 0 <= l < |m.layers|
  {
    Scaled(t(Cell(l, i, j)) - (if l == |m.layers| - 1 then m.ambient else t(Cell(l + 1, i, j))), m.layers[l].rz)
  }

  /** The balance of a cell: what flows out below came in above or is its own. */
  lemma VerticalIs(m: Model, p: Temps, t: Temps, l: int, i: int, j: int)
    requires Tall(m) && IsNode(m, Cell(l, i, j))
    ensures VerticallyBalanced(m, p, t, Cell(l, i, j)) <==>
            Down(m, t, l, i, j) - (if l == 0 then 0.0 else Down(m, t, l - 1, i, j)) == p(Cell(l, i, j))
  {
    var f := OutOf(t, t(Cell(l, i, j)));
    if l > 0 {
      LinkSumOne(Link(Cell(l - 1, i, j), m.layers[l - 1].rz), f);
      Opposite(t(Cell(l, i, j)), t(Cell(l - 1, i, j)), m.layers[l - 1].rz);
    }
    if l < |m.layers| - 1 {
      LinkSumOne(Link(Cell(l + 1, i, j), m.layers[l].rz), f);
    }
  }

  lemma Opposite(a: real, b: real, r: real)
    ensures Scaled(a - b, r) == -Scaled(b - a, r)
  {
  }

  lemma DropInverts(d: real, flow: real, r: real)
    requires r > 0.0
    ensures Scaled(d, r) == flow <==> d == Drop(flow, r)
  {
    assert Scaled(d, r) == d / r;
    assert d / r * r == d;
  }

  /** In a balanced column the flow grows by the power of each layer. */
  lemma {:induction false} FlowIsUpto(m: Model, p: Temps, t: Temps, l: int, i: int, j: int)
    requires Proper(m) && AllVertical(m, p, t) && IsNode(m, Cell(l, i, j))
    ensures Down(m, t, l, i, j) == Upto(p, l, i, j)
    decreases l
  {
    hide Down, VerticallyBalanced;
    assert VerticallyBalanced(m, p, t, Cell(l, i, j));
    VerticalIs(m, p, t, l, i, j);
    if l > 0 {
      FlowIsUpto(m, p, t, l - 1, i, j);
    } else {
      assert Upto(p, -1, i, j) == 0.0;
    }
  }

  lemma {:induction false} BalancedIsGuess(m: Model, p: Temps, t: Temps, l: int, i: int, j: int)
    requires Proper(m) && AllVertical(m, p, t) && IsNode(m, Cell(l, i, j))
    ensures t(Cell(l, i, j)) == Guess(m, p, l, i, j)
    decreases |m.layers| - l
  {
    hide AllVertical, Upto, Scaled, Drop;
    FlowIsUpto(m, p, t, l, i, j);
    var below := if l == |m.layers| - 1 then m.ambient else t(Cell(l + 1, i, j));
    DropInverts(t(Cell(l, i, j)) - below, Upto(p, l, i, j), m.layers[l].rz);
    if l < |m.layers| - 1 {
      BalancedIsGuess(m, p, t, l + 1, i, j);
    }
  }

  ghost predicate IsGuess(m: Model, p: Temps, t: Temps) {
    forall l, i, j | IsNode(m, Cell(l, i, j)) :: t(Cell(l, i, j)) == Guess(m, p, l, i, j)
  }

  lemma GuessFlow(m: Model, p: Temps, t: Temps, l: int, i: int, j: int)
    requires Proper(m) && IsGuess(m, p, t) && IsNode(m, Cell(l, i, j))
    ensures Down(m, t, l, i, j) == Upto(p, l, i, j)
  {
    hide Upto, Scaled, Drop;
    assert l < |m.layers| - 1 ==> IsNode(m, Cell(l + 1, i, j));
    var below := if l == |m.layers| - 1 then m.ambient else t(Cell(l + 1, i, j));
    DropInverts(t(Cell(l, i, j)) - below, Upto(p, l, i, j), m.layers[l].rz);
  }

  /** The guess solves the vertical balance of every cell, and nothing else does. */
  lemma GuessExact(m: Model, p: Temps, t: Temps)
    requires Proper(m)
    ensures AllVertical(m, p, t) <==> IsGuess(m, p, t)
  {
    hide VerticallyBalanced, Guess, Down;
    if AllVertical(m, p, t) {
      forall l, i, j | IsNode(m, Cell(l, i, j))
        ensures t(Cell(l, i, j)) == Guess(m, p, l, i, j)
      {
        BalancedIsGuess(m, p, t, l, i, j);
      }
    }
    if IsGuess(m, p, t) {
      forall l, i, j | IsNode(m, Cell(l, i, j))
        ensures VerticallyBalanced(m, p, t, Cell(l, i, j))
      {
        GuessFlow(m, p, t, l, i, j);
        VerticalIs(m, p, t, l, i, j);
        if l > 0 {
          GuessFlow(m, p, t, l - 1, i, j);
        } else {
          assert Upto(p, -1, i, j) == 0.0;
        }
      }
    }
  }

  lemma {:induction false} GuessWarm(m: Model, p: Temps, l: nat, i: int, j: int)
    requires Proper(m) && IsNode(m, Cell(l, i, j)) && forall x :: p(x) >= 0.0
    ensures Guess(m, p, l, i, j) >= m.ambient
    decreases |m.layers| - l
  {
    UptoPositive(p, l, i, j);
    if l < |m.layers| - 1 {
      GuessWarm(m, p, l + 1, i, j);
    }
  }

  lemma {:induction false} UptoPositive(p: Temps, l: int, i: int, j: int)
    requires forall x :: p(x) >= 0.0
    ensures Upto(p, l, i, j) >= 0.0
    decreases l
  {
    if l >= 0 {
      UptoPositive(p, l - 1, i, j);
    }
  }

  // ----- the loops -----

  ghost predicate SumIs(m: Model, p: Temps, sum: array2<real>, l: int)
    reads sum
  {
    sum.Length0 == m.nr && sum.Length1 == m.nc &&
    forall i, j | 0 <= i < m.nr && 0 <= j < m.nc :: sum[i, j] == Upto(p, l, i, j)
  }

  /** scaleadd_dvector on a layer of the power: the layer is added or, with sign -1, taken away. */
  method AddLayer(m: Model, p: array<real>, sum: array2<real>, l: nat, sign: real)
    requires p.Length == Size(m) && l < |m.layers| && (sign == 1.0 || sign == -1.0)
    requires SumIs(m, TempOf(m, p[..]), sum, if sign == 1.0 then l - 1 else l)
    modifies sum
    ensures SumIs(m, TempOf(m, p[..]), sum, if sign == 1.0 then l else l - 1)
  {
    hide TempOf, Size;
    ghost var before, after := if sign == 1.0 then l - 1 else l, if sign == 1.0 then l else l - 1;
    ghost var power := TempOf(m, p[..]);
    for i := 0 to m.nr
      invariant forall r, q | 0 <= r < m.nr && 0 <= q < m.nc ::
                sum[r, q] == Upto(power, if r < i then after else before, r, q)
    {
      for j := 0 to m.nc
        invariant forall r, q | 0 <= r < m.nr && 0 <= q < m.nc ::
                    sum[r, q] == Upto(power, if r < i || (r == i && q < j) then after else before, r, q)
      {
        var own := Fetch(m, p, Cell(l, i, j));
        assert Upto(power, l, i, j) == Upto(power, l - 1, i, j) + own;
        sum[i, j] := sum[i, j] + sign * own;
      }
    }
  }

  /** One layer of the guess, from the one below. */
  method GuessLayer(m: Model, v: array<real>, sum: array2<real>, l: nat, ghost power: Temps)
    requires v.Length == Size(m) && l < |m.layers| && SumIs(m, power, sum, l)
    requires Agree(m, TempOf(m, v[..]), Guessed(m, power), LayersFrom(l + 1))
    modifies v
    ensures Agree(m, TempOf(m, v[..]), Guessed(m, power), LayersFrom(l))
  {
    hide TempOf, Size, Upto;
    ghost var want := Guessed(m, power);
    for i := 0 to m.nr
      invariant Agree(m, TempOf(m, v[..]), want, LayerUpTo(l, i, 0))
    {
      for j := 0 to m.nc
        invariant Agree(m, TempOf(m, v[..]), want, LayerUpTo(l, i, j))
      {
        var below := m.ambient;
        if l < |m.layers| - 1 {
          below := Fetch(m, v, Cell(l + 1, i, j));
        }
        Write(m, v, Cell(l, i, j), below + Drop(sum[i, j], m.layers[l].rz), want, LayerUpTo(l, i, j),
              LayerUpTo(l, i, j + 1));
      }
      AgreeFewer(m, TempOf(m, v[..]), want, LayerUpTo(l, i, m.nc), LayerUpTo(l, i + 1, 0));
    }
    AgreeFewer(m, TempOf(m, v[..]), want, LayerUpTo(l, m.nr, 0), LayersFrom(l));
  }

  /** The nodes around the grid, and the layers from l on. */
  function LayersFrom(l: int): Node -> bool {
    (x: Node) => x.Extra? || x.l >= l
  }

  function LayerUpTo(l: int, i: int, j: int): Node -> bool {
    (x: Node) => x.Extra? || x.l > l || (x.l == l && (x.i < i || (x.i == i && x.j < j)))
  }

  function ExtrasUpTo(k: int): Node -> bool {
    (x: Node) => x.Extra? && x.e < k
  }

  /** set_heuristic_temp. */
  method SetHeuristicTemp(m: Model, p: array<real>, v: array<real>)
    requires Proper(m) && v.Length == p.Length == Size(m) && v != p
    modifies v
    ensures forall x | IsNode(m, x) :: TempOf(m, v[..])(x) == Guessed(m, TempOf(m, p[..]))(x)
  {
    hide TempOf, Size, Guess, Upto;
    ghost var power := TempOf(m, p[..]);
    ghost var want := Guessed(m, power);
    for e := 0 to ExtraCount(m)
      invariant Agree(m, TempOf(m, v[..]), want, ExtrasUpTo(e))
    {
      Write(m, v, Extra(e), m.ambient, want, ExtrasUpTo(e), ExtrasUpTo(e + 1));
    }
    var sum := SumLayers(m, p);
    var l := |m.layers|;
    AgreeFewer(m, TempOf(m, v[..]), want, ExtrasUpTo(ExtraCount(m)), LayersFrom(l));
    while l > 0
      invariant 0 <= l <= |m.layers| && SumIs(m, power, sum, l - 1) && fresh(sum)
      invariant Agree(m, TempOf(m, v[..]), want, LayersFrom(l))
    {
      l := l - 1;
      GuessLayer(m, v, sum, l, power);
      AddLayer(m, p, sum, l, -1.0);
    }
  }

  /** The power of all layers, cell by cell. */
  method SumLayers(m: Model, p: array<real>) returns (sum: array2<real>)
    requires p.Length == Size(m)
    ensures fresh(sum) && SumIs(m, TempOf(m, p[..]), sum, |m.layers| - 1)
  {
    hide TempOf, Size;
    sum := new real[m.nr, m.nc]((_, _) => 0.0);
    for l := 0 to |m.layers|
      invariant SumIs(m, TempOf(m, p[..]), sum, l - 1)
    {
      AddLayer(m, p, sum, l, 1.0);
    }
  }
}
