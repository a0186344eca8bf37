/** The right-hand side of the steady-state system (build_steady_rhs_vector,
    HotSpot/temperature_grid.c): at each node its power and what comes from ambient. */
module GridRhs {
  import opened GridNetwork
  import opened GridSweep
  import opened GridMatrix
  import opened GridTransfer

  function Wanted(m: Model, p: Temps): Temps {
    (x: Node) => if Tall(m) && IsNode(m, x) then RhsAt(m, p, x) else 0.0
  }

  method CellRhs(m: Model, p: array<real>, l: nat, i: nat, j: nat) returns (r: real)
    requires Proper(m) && p.Length == Size(m) && IsNode(m, Cell(l, i, j))
    ensures r == RhsAt(m, PowerOf(m, p[..]), Cell(l, i, j))
  {
    hide Size, PowerOf, BoardResistance, PrimaryPositive, SecondaryPositive;
    r := PowerAt(m, p, l, i, j);
    if l == HsIdx(m) {
      DivideIs(m.ambient, m.layers[l].rz);
      r := Over(m.ambient, m.layers[l].rz) + r;
    } else if m.secondary && l == LAYER_PCB {
      var board := BoardToAmbient(m);
      DivideIs(m.ambient, board);
      r := r + Over(m.ambient, board);
    }
  }

  /** Sink and board are linked to ambient, the other rings are not. */
  method PackRhs(m: Model, ring: Ring, side: Side, ghost p: Temps) returns (r: real)
    requires Proper(m) && Present(m, ring) && p(Extra(At(ring, side))) == 0.0
    ensures r == RhsAt(m, p, Extra(At(ring, side)))
  {
    RingAmbient(m, ring, side);
    hide At, PrimaryPositive, SecondaryPositive;
    DivideIs(m.ambient, AmbientResistance(m, ring, side));
    match ring {
      case SinkIn => r := Over(m.ambient, Along(side, m.pack.rHsCPerX, m.pack.rHsCPerY) +
                               Along(side, m.pack.rAmbCPerX, m.pack.rAmbCPerY));
      case SinkOut => r := Over(m.ambient, m.pack.rHsPer + m.pack.rAmbPer);
      case PcbIn => r := Over(m.ambient, Along(side, m.pack.rAmbSecCPerX, m.pack.rAmbSecCPerY));
      case PcbOut => r := Over(m.ambient, m.pack.rAmbSecPer);
      case _ => r := 0.0;
    }
  }

  /** build_steady_rhs_vector. */
  method BuildSteadyRhsVector(m: Model, p: array<real>) returns (rhs: array<real>)
    requires Proper(m) && p.Length == Size(m)
    ensures fresh(rhs) && rhs.Length == Size(m)
    ensures forall x | IsNode(m, x) :: TempOf(m, rhs[..])(x) == RhsAt(m, PowerOf(m, p[..]), x)
  {
    hide TempOf, Size, RhsAt, PowerOf, Amb, PrimaryPositive, SecondaryPositive;
    rhs := new real[Size(m)];
    ghost var power := PowerOf(m, p[..]);
    ghost var want := Wanted(m, power);
    for l := 0 to |m.layers|
      invariant Agree(m, TempOf(m, rhs[..]), want, CellsUpTo(l, 0, 0))
    {
      for i := 0 to m.nr
        invariant Agree(m, TempOf(m, rhs[..]), want, CellsUpTo(l, i, 0))
      {
        for j := 0 to m.nc
          invariant Agree(m, TempOf(m, rhs[..]), want, CellsUpTo(l, i, j))
        {
          var r := CellRhs(m, p, l, i, j);
          Write(m, rhs, Cell(l, i, j), r, want, CellsUpTo(l, i, j), CellsUpTo(l, i, j + 1));
        }
        AgreeFewer(m, TempOf(m, rhs[..]), want, CellsUpTo(l, i, m.nc), CellsUpTo(l, i + 1, 0));
      }
      AgreeFewer(m, TempOf(m, rhs[..]), want, CellsUpTo(l, m.nr, 0), CellsUpTo(l + 1, 0, 0));
    }
    AgreeFewer(m, TempOf(m, rhs[..]), want, CellsUpTo(|m.layers|, 0, 0), CellsAndExtras(0));
    for e := 0 to ExtraCount(m)
      invariant Agree(m, TempOf(m, rhs[..]), want, CellsAndExtras(e))
    {
      NoPower(m, p[..], e);
      var r := ExtraRhs(m, e, power);
      Write(m, rhs, Extra(e), r, want, CellsAndExtras(e), CellsAndExtras(e + 1));
    }
  }

  lemma NoPower(m: Model, p: seq<real>, e: int)
    ensures PowerOf(m, p)(Extra(e)) == 0.0
  {
  }

  method ExtraRhs(m: Model, e: nat, ghost p: Temps) returns (r: real)
    requires Proper(m) && e < ExtraCount(m) && p(Extra(e)) == 0.0
    ensures r == RhsAt(m, p, Extra(e))
  {
    AtRingAndSide(e);
    hide RhsAt, At, PrimaryPositive, SecondaryPositive;
    r := PackRhs(m, RingOf(e), SideOf(e), p);
  }
}
