/** The block thermal model (HotSpot/temperature_block.c): the conductance matrix built in place from
    the conductances between nodes, its decomposition, and the steady state solved with it. */
module BlockModel {
  import opened Numbers
  import opened LinearAlgebra
  import opened LupFactors
  import opened Substitution
  import opened ThermalNetwork
  import opened Lup

  /** Layers of functional blocks, and the nodes of spreader and sink around them. */
  const NL: nat := 4
  const IFACE: nat := 1
  const HSP: nat := 2
  const HSINK: nat := 3
  const EXTRA: nat := 12
  const SINK_C_W: nat := 4
  const SINK_W: nat := 8

  /** -1/(1/x + 1/y): two conductances in series, as an entry off the diagonal. */
  function Series(x: real, y: real): (v: real)
    requires x >= 0.0 && y >= 0.0
    ensures v <= 0.0 && (v < 0.0 <==> x > 0.0 && y > 0.0)
  {
    if x == 0.0 || y == 0.0 then 0.0
    else
      SeriesDefined(x, y);
      -1.0 / ((1.0 / x) + (1.0 / y))
  }

  lemma SeriesDefined(x: real, y: real)
    requires x > 0.0 && y > 0.0
    ensures (1.0 / x) + (1.0 / y) > 0.0
    ensures -1.0 / ((1.0 / x) + (1.0 / y)) < 0.0
  {
  }

  lemma SeriesSymmetric(x: real, y: real)
    requires x >= 0.0 && y >= 0.0
    ensures Series(x, y) == Series(y, x)
  {
  }

  class Model {
    const n: nat            // functional blocks
    const nodes: nat
    const ambient: real
    const g: array2<real>   // conductances: g[i, j] is the part of node i in the link to j
    const gAmb: array<real> // from the sink blocks, and the nodes around them, to ambient
    const b: array2<real>
    const lu: array2<real>
    const p: array<int>
    var ready: bool         // r_ready

    ghost predicate Shaped() {
      n >= 1 && nodes == NL * n + EXTRA && gAmb.Length == n + EXTRA && p.Length == nodes &&
      IsSquareArray(g, nodes) && IsSquareArray(b, nodes) && IsSquareArray(lu, nodes) &&
      g != b && g != lu && b != lu
    }

    /** What populate_R_model_block has put into g and g_amb: no conductance is negative, and the
        nodes of the spreader have none to ambient. */
    ghost predicate Filled()
      requires Shaped()
      reads g, gAmb
    {
      (forall i, j | 0 <= i < nodes && 0 <= j < nodes :: g[i, j] >= 0.0) &&
      (forall i | 0 <= i < n + EXTRA :: gAmb[i] >= 0.0) &&
      (forall i | n <= i < n + SINK_C_W :: gAmb[i] == 0.0)
    }

    /** The conductance from a node to ambient. */
    ghost function AmbientOf(): Vec
      requires Shaped()
      reads gAmb
    {
      AmbientFrom(gAmb[..], n)
    }

    /** The entries off the diagonal; both of a pair are set at once. */
    method FillOffDiagonal()
      requires Shaped() && Filled()
      modifies b
      ensures Filled()
      ensures forall i, j | 0 <= i < nodes && 0 <= j < nodes && i != j :: b[i, j] == Series(g[i, j], g[j, i])
    {
      for i := 0 to nodes
        invariant Filled()
        invariant forall r, c | 0 <= r < i && 0 <= c < i && r != c :: b[r, c] == Series(g[r, c], g[c, r])
      {
        for j := 0 to i
          invariant Filled()
          invariant forall r, c | 0 <= r < i && 0 <= c < i && r != c :: b[r, c] == Series(g[r, c], g[c, r])
          invariant forall c | 0 <= c < j :: b[i, c] == Series(g[i, c], g[c, i]) && b[c, i] == Series(g[c, i], g[i, c])
        {
          SeriesSymmetric(g[i, j], g[j, i]);
          var v := Series(g[i, j], g[j, i]);
          b[i, j], b[j, i] := v, v;
        }
      }
    }

    /** One entry on the diagonal: the conductance to ambient less all the others of the row. */
    method FillDiagonalEntry(i: nat)
      requires Shaped() && i < nodes && Filled()
      modifies b
      ensures forall r, c | 0 <= r < nodes && 0 <= c < nodes && !(r == c == i) :: b[r, c] == old(b[r, c])
      ensures Sum(nodes, RowOf(AsMat(Values(b)), i)) == AmbientOf()(i)
    {
      hide Values, RowValues;
      ghost var amb := AmbientOf()(i);
      SinkIndex(n, i);
      if HSINK * n <= i < NL * n {
        b[i, i] := gAmb[i % n];
      } else if i >= NL * n + SINK_C_W {
        b[i, i] := gAmb[n + i - NL * n];
      } else {
        b[i, i] := 0.0;
      }
      assert b[i, i] == amb;
      ghost var others := AsVec(RowValues(b, i)[i := 0.0]);
      for j := 0 to nodes
        invariant forall r, c | 0 <= r < nodes && 0 <= c < nodes && !(r == c == i) :: b[r, c] == old(b[r, c])
        invariant forall c | 0 <= c < nodes && c != i :: others(c) == b[i, c]
        invariant b[i, i] == amb - Sum(j, others)
      {
        if i != j {
          b[i, i] := b[i, i] - b[i, j];
        }
      }
      SumApart(nodes, i, RowOf(AsMat(Values(b)), i), others);
    }

    /** The rows done so far sum to the conductance to ambient. */
    ghost predicate RowsSum(i: nat)
      requires Shaped() && i <= nodes
      reads b, gAmb
    {
      forall r | 0 <= r < i :: Sum(nodes, RowOf(AsMat(Values(b)), r)) == AmbientOf()(r)
    }

    ghost predicate OffDiagonal()
      requires Shaped() && Filled()
      reads g, gAmb, b
    {
      forall i, j | 0 <= i < nodes && 0 <= j < nodes && i != j :: b[i, j] == Series(g[i, j], g[j, i])
    }

    method FillDiagonal()
      requires Shaped() && Filled() && OffDiagonal()
      modifies b
      ensures Filled() && OffDiagonal() && RowsSum(nodes)
    {
      hide Sum;
      for i := 0 to nodes
        invariant Filled() && OffDiagonal() && RowsSum(i)
      {
        ghost var before := Values(b);
        FillDiagonalEntry(i);
        ghost var after := Values(b);
        forall r | 0 <= r < i
          ensures Sum(nodes, RowOf(AsMat(after), r)) == Sum(nodes, RowOf(AsMat(before), r))
        {
          SumSame(nodes, RowOf(AsMat(after), r), RowOf(AsMat(before), r));
        }
      }
    }

    /** The matrix B is the conductance matrix of a network. */
    method FillMatrix()
      requires Shaped() && Filled()
      modifies b
      ensures Filled() && OffDiagonal()
      ensures IsNetwork(Values(b), AmbientOf(), nodes)
    {
      FillOffDiagonal();
      FillDiagonal();
      forall i, j | 0 <= i < nodes && 0 <= j < nodes && i != j
        ensures b[i, j] == b[j, i] <= 0.0
      {
        SeriesSymmetric(g[i, j], g[j, i]);
      }
    }

    /** The decomposition belongs to the matrix, once there is one. */
    ghost predicate Valid()
      reads this, g, gAmb, b, lu, p
    {
      Shaped() && Filled() &&
      (ready ==> IsNetwork(Values(b), AmbientOf(), nodes) && OffDiagonal() &&
                 Factors(Values(lu), p[..], Values(b), nodes) && Tame(Values(lu), nodes - 1, nodes))
    }

    /** The abort of lupdcmp: the elimination of B has come as far as this column, and has no pivot in it. */
    ghost predicate NoPivot(column: nat)
      requires Shaped()
      reads b, lu, p
    {
      column < nodes - 1 && Stands(Values(lu), column, Values(b), p[..], nodes) &&
      forall i | column <= i < nodes :: Abs(lu[i, column]) < DELTA
    }

    /** The end of populate_R_model_block: B, and its decomposition in lu and p. */
    method Populate() returns (outcome: LupOutcome)
      requires Shaped() && Filled()
      modifies this, b, lu, p
      ensures Valid() && (ready <==> outcome.Decomposed?)
      ensures IsNetwork(Values(b), AmbientOf(), nodes) && OffDiagonal()
      ensures outcome.Singular? ==> NoPivot(outcome.column)
    {
      FillMatrix();
      CopyMatrix(lu, b, nodes);
      outcome := Lupdcmp(lu, nodes, p);
      ready := outcome.Decomposed?;
    }

    /** set_internal_power_block: only the silicon has power of its own; the sink, and the nodes
        around it, are fed by ambient. */
    method SetInternalPower(power: array<real>)
      requires Shaped() && power.Length == nodes && power != gAmb
      modifies power
      ensures SameVec(nodes, AsVec(power[..]), Fed(UnitPower(old(power[..]), n), AmbientOf(), ambient))
    {
      for i := IFACE * n to HSINK * n
        invariant forall k | 0 <= k < n :: power[k] == old(power[k])
        invariant forall k | n <= k < i :: power[k] == 0.0
      {
        power[i] := 0.0;
      }
      for i := 0 to n + EXTRA
        invariant forall k | 0 <= k < n :: power[k] == old(power[k])
        invariant forall k | n <= k < HSINK * n :: power[k] == 0.0
        invariant forall k | 0 <= k < i :: power[HSINK * n + k] == ambient * gAmb[k]
      {
        power[HSINK * n + i] := ambient * gAmb[i];
      }
      forall k | 0 <= k < nodes
        ensures AsVec(power[..])(k) == Fed(UnitPower(old(power[..]), n), AmbientOf(), ambient)(k)
      {
        if k >= HSINK * n {
          assert power[HSINK * n + (k - HSINK * n)] == ambient * gAmb[k - HSINK * n];
        }
      }
    }

    /** With the links that populate_R_model_block makes, SteadyState needs no further condition. */
    lemma AlwaysConnected()
      requires Valid() && ready && Stacked(Values(g), gAmb[..], n, nodes)
      ensures Connected(Values(b), AmbientOf(), nodes)
    {
      assert FromLinks(Values(b), Values(g), nodes);
      StackConnected(Values(b), Values(g), gAmb[..], n, nodes);
    }

    /** steady_state_temp_block. Once the model is ready, and if every node has a path to ambient,
        the temperatures found solve the network; the heat that goes to ambient is the power of the
        units; and if no unit has negative power, nothing is colder than ambient. */
    method SteadyState(power: array<real>, temp: array<real>) returns (ok: bool)
      requires Valid() && power.Length == temp.Length == nodes && power != gAmb && temp != gAmb
      requires ready ==> Connected(Values(b), AmbientOf(), nodes)
      modifies power, temp
      ensures Valid() && (ok <==> ready)
      ensures ok ==> Solves(Values(b), AsVec(temp[..]), Fed(UnitPower(old(power[..]), n), AmbientOf(), ambient), nodes)
      ensures ok ==> Sum(nodes, HeatLost(AsVec(temp[..]), AmbientOf(), ambient)) == Sum(n, AsVec(old(power[..])))
      ensures ok && (forall i | 0 <= i < n :: old(power[i]) >= 0.0) ==> forall i | 0 <= i < nodes :: temp[i] >= ambient
    {
      hide OffDiagonal, Series, Tame, Factors, Solves, Connected;
      if !ready {
        return false;
      }
      SetInternalPower(power);
      ghost var fed := AsVec(power[..]);
      LastPivotNotZero(Values(lu), p[..], Values(b), AmbientOf(), nodes);
      Lusolve(lu, nodes, p, power, temp, Values(b));
      SteadyFacts(Values(b), AmbientOf(), nodes, n, temp[..], old(power[..]), fed, ambient);
      return true;
    }
  }

  /** What any solution of the network of the block model means. */
  lemma SteadyFacts(b: Grid, amb: Vec, nodes: nat, n: nat, temp: seq<real>, power: seq<real>, fed: Vec, ambient: real)
    requires IsNetwork(b, amb, nodes) && Connected(b, amb, nodes) && n <= nodes == |temp| == |power|
    requires Solves(b, AsVec(temp), fed, nodes) && SameVec(nodes, fed, Fed(UnitPower(power, n), amb, ambient))
    ensures Solves(b, AsVec(temp), Fed(UnitPower(power, n), amb, ambient), nodes)
    ensures Sum(nodes, HeatLost(AsVec(temp), amb, ambient)) == Sum(n, AsVec(power))
    ensures (forall i | 0 <= i < n :: power[i] >= 0.0) ==> forall i | 0 <= i < nodes :: temp[i] >= ambient
  {
    var units := UnitPower(power, n);
    SolvesSame(b, AsVec(temp), AsVec(temp), fed, Fed(units, amb, ambient), nodes);
    EnergyConserved(b, amb, nodes, AsVec(temp), units, ambient);
    UnitPowerSum(power, n, nodes);
    if forall i | 0 <= i < n :: power[i] >= 0.0 {
      NotBelowAmbient(b, amb, nodes, AsVec(temp), units, ambient);
      assert forall i | 0 <= i < nodes :: AsVec(temp)(i) == temp[i];
    }
  }

  /** The power of the units, and none elsewhere. */
  function UnitPower(power: seq<real>, n: nat): Vec {
    i => if 0 <= i < n && i < |power| then power[i] else 0.0
  }

  lemma UnitPowerSum(power: seq<real>, n: nat, nodes: nat)
    requires n <= nodes == |power|
    ensures Sum(nodes, UnitPower(power, n)) == Sum(n, AsVec(power))
  {
    SumCut(n, nodes, UnitPower(power, n));
    SumSame(n, UnitPower(power, n), AsVec(power));
  }

  method CopyMatrix(dst: array2<real>, src: array2<real>, n: nat)
    requires IsSquareArray(dst, n) && IsSquareArray(src, n) && dst != src
    modifies dst
    ensures Values(dst) == Values(src)
  {
    for i := 0 to n
      invariant forall r, c | 0 <= r < i && 0 <= c < n :: dst[r, c] == src[r, c]
    {
      for j := 0 to n
        invariant forall r, c | 0 <= r < i && 0 <= c < n :: dst[r, c] == src[r, c]
        invariant forall c | 0 <= c < j :: dst[i, c] == src[i, c]
      {
        dst[i, j] := src[i, j];
      }
    }
    SameRows(Values(dst), Values(src));
  }

  /** Node i is in the sink layer, or around it, just if it has an entry of its own in g_amb. */
  function AmbientFrom(gAmb: seq<real>, n: nat): Vec {
    i => if HSINK * n <= i < HSINK * n + |gAmb| then gAmb[i - HSINK * n] else 0.0
  }

  lemma SinkIndex(n: nat, i: nat)
    requires n >= 1
    ensures HSINK * n <= i < NL * n ==> i % n == i - HSINK * n
  {
    if HSINK * n <= i < NL * n {
      ModuloOf(n, i - HSINK * n, HSINK);
    }
  }

  lemma ModuloOf(n: nat, r: nat, k: nat)
    requires r < n
    ensures (k * n + r) % n == r
  {
    var x := k * n + r;
    var d := k - x / n;
    assert x == (x / n) * n + x % n;
    assert d * n == x % n - r;
    SmallMultiple(d, n);
  }

  lemma SmallMultiple(d: int, n: int)
    requires -n < d * n < n
    ensures d == 0
  {
    assert d >= 1 ==> d * n >= n;
    assert d <= -1 ==> d * n <= -n;
  }

  // ----- every node has a path to ambient -----

  /** Both nodes have a conductance in the link between them. */
  ghost predicate Linked(g: Grid, i: nat, j: nat, nodes: nat)
    requires Square(g, nodes)
  {
    i < nodes && j < nodes && i != j && g[i][j] > 0.0 && g[j][i] > 0.0
  }

  /** The vertical links that populate_R_model_block always makes: each block through interface and
      spreader to the sink and on to ambient; each node around the spreader to one around the sink,
      which has its own conductance to ambient. */
  ghost predicate Stacked(g: Grid, gAmb: seq<real>, n: nat, nodes: nat) {
    Square(g, nodes) && nodes == NL * n + EXTRA && |gAmb| == n + EXTRA &&
    (forall i: nat | i < n :: BlockLinked(g, gAmb, n, nodes, i)) &&
    forall d: nat | d < 4 :: AroundLinked(g, gAmb, n, nodes, d)
  }

  ghost predicate BlockLinked(g: Grid, gAmb: seq<real>, n: nat, nodes: nat, i: nat)
    requires Square(g, nodes) && |gAmb| == n + EXTRA && i < n
  {
    Linked(g, i, IFACE * n + i, nodes) && Linked(g, IFACE * n + i, HSP * n + i, nodes) &&
    Linked(g, HSP * n + i, HSINK * n + i, nodes) && gAmb[i] > 0.0
  }

  /** The same on one of the four sides around spreader and sink. */
  ghost predicate AroundLinked(g: Grid, gAmb: seq<real>, n: nat, nodes: nat, d: nat)
    requires Square(g, nodes) && |gAmb| == n + EXTRA && d < 4
  {
    Linked(g, NL * n + d, NL * n + SINK_C_W + d, nodes) && gAmb[n + SINK_C_W + d] > 0.0 && gAmb[n + SINK_W + d] > 0.0
  }

  /** The matrix off the diagonal, as FillMatrix leaves it. */
  ghost predicate FromLinks(b: Grid, g: Grid, nodes: nat) {
    Square(b, nodes) && Square(g, nodes) &&
    (forall i, j | 0 <= i < nodes && 0 <= j < nodes :: g[i][j] >= 0.0) &&
    forall i, j | 0 <= i < nodes && 0 <= j < nodes && i != j :: b[i][j] == Series(g[i][j], g[j][i])
  }

  lemma LinksSquare(b: Grid, g: Grid, nodes: nat)
    requires FromLinks(b, g, nodes)
    ensures Square(b, nodes) && Square(g, nodes)
  {
  }

  lemma OneFurther(b: Grid, g: Grid, amb: Vec, nodes: nat, i: nat, j: nat)
    requires Square(b, nodes) && Square(g, nodes) && i < nodes && j < nodes
    requires FromLinks(b, g, nodes) && Linked(g, i, j, nodes) && HasPath(b, amb, nodes, j)
    ensures HasPath(b, amb, nodes, i)
  {
    var k: nat :| Reaches(b, amb, nodes, j, k);
    assert b[i][j] < 0.0;
    assert Reaches(b, amb, nodes, i, k + 1);
  }

  /** With these links the network of the block model is connected, so that the steady state needs
      no further condition. */
  lemma StackConnected(b: Grid, g: Grid, gAmb: seq<real>, n: nat, nodes: nat)
    requires FromLinks(b, g, nodes) && Stacked(g, gAmb, n, nodes)
    ensures Connected(b, AmbientFrom(gAmb, n), nodes)
  {
    forall i: nat | i < nodes
      ensures HasPath(b, AmbientFrom(gAmb, n), nodes, i)
    {
      NodeReaches(b, g, gAmb, n, nodes, i);
    }
  }

  lemma NodeReaches(b: Grid, g: Grid, gAmb: seq<real>, n: nat, nodes: nat, i: nat)
    requires FromLinks(b, g, nodes) && Stacked(g, gAmb, n, nodes) && i < nodes
    ensures HasPath(b, AmbientFrom(gAmb, n), nodes, i)
  {
    assert nodes == 4 * n + 12;
    LinksSquare(b, g, nodes);
    hide *;
    if i < n {
      BlockReaches(b, g, gAmb, n, nodes, i, i);
    } else if i < 2 * n {
      BlockReaches(b, g, gAmb, n, nodes, i - n, i);
    } else if i < 3 * n {
      BlockReaches(b, g, gAmb, n, nodes, i - 2 * n, i);
    } else if i < 4 * n {
      BlockReaches(b, g, gAmb, n, nodes, i - 3 * n, i);
    } else if i < 4 * n + 4 {
      AroundReaches(b, g, gAmb, n, nodes, i - 4 * n, i);
    } else if i < 4 * n + 8 {
      AroundReaches(b, g, gAmb, n, nodes, i - 4 * n - 4, i);
    } else {
      AroundReaches(b, g, gAmb, n, nodes, i - 4 * n - 8, i);
    }
  }

  lemma BlockLinks(g: Grid, gAmb: seq<real>, n: nat, nodes: nat, u: nat)
    requires Stacked(g, gAmb, n, nodes) && u < n
    ensures AmbientFrom(gAmb, n)(3 * n + u) > 0.0 && 3 * n + u < nodes && Square(g, nodes)
    ensures Linked(g, u, n + u, nodes) && Linked(g, n + u, 2 * n + u, nodes)
    ensures Linked(g, 2 * n + u, 3 * n + u, nodes)
  {
    assert BlockLinked(g, gAmb, n, nodes, u);
  }

  lemma AroundLinks(g: Grid, gAmb: seq<real>, n: nat, nodes: nat, d: nat)
    requires Stacked(g, gAmb, n, nodes) && d < 4
    ensures AmbientFrom(gAmb, n)(4 * n + 4 + d) > 0.0 && AmbientFrom(gAmb, n)(4 * n + 8 + d) > 0.0
    ensures 4 * n + 8 + d < nodes && Square(g, nodes) && Linked(g, 4 * n + d, 4 * n + 4 + d, nodes)
  {
    assert AroundLinked(g, gAmb, n, nodes, d);
  }

  lemma AtAmbient(b: Grid, amb: Vec, nodes: nat, i: nat)
    requires Square(b, nodes) && i < nodes && amb(i) > 0.0
    ensures HasPath(b, amb, nodes, i)
  {
    assert Reaches(b, amb, nodes, i, 0);
  }

  /** Each block, in each of the four layers. */
  lemma BlockReaches(b: Grid, g: Grid, gAmb: seq<real>, n: nat, nodes: nat, u: nat, at: nat)
    requires FromLinks(b, g, nodes) && Stacked(g, gAmb, n, nodes) && u < n && at < nodes
    requires at == u || at == n + u || at == 2 * n + u || at == 3 * n + u
    ensures HasPath(b, AmbientFrom(gAmb, n), nodes, at)
  {
    hide FromLinks, Stacked, Linked, AmbientFrom, HasPath, Square, AroundLinked, Series;
    LinksSquare(b, g, nodes);
    var amb := AmbientFrom(gAmb, n);
    BlockLinks(g, gAmb, n, nodes, u);
    AtAmbient(b, amb, nodes, 3 * n + u);
    OneFurther(b, g, amb, nodes, 2 * n + u, 3 * n + u);
    OneFurther(b, g, amb, nodes, n + u, 2 * n + u);
    OneFurther(b, g, amb, nodes, u, n + u);
  }

  /** Each side of the three rings around the blocks. */
  lemma AroundReaches(b: Grid, g: Grid, gAmb: seq<real>, n: nat, nodes: nat, d: nat, at: nat)
    requires FromLinks(b, g, nodes) && Stacked(g, gAmb, n, nodes) && d < 4 && at < nodes
    requires at == 4 * n + d || at == 4 * n + 4 + d || at == 4 * n + 8 + d
    ensures HasPath(b, AmbientFrom(gAmb, n), nodes, at)
  {
    hide FromLinks, Stacked, Linked, AmbientFrom, HasPath, Square, AroundLinked, Series;
    LinksSquare(b, g, nodes);
    var amb := AmbientFrom(gAmb, n);
    AroundLinks(g, gAmb, n, nodes, d);
    if at == 4 * n + d {
      AtAmbient(b, amb, nodes, 4 * n + 4 + d);
      OneFurther(b, g, amb, nodes, 4 * n + d, 4 * n + 4 + d);
    } else {
      AtAmbient(b, amb, nodes, at);
    }
  }

  // ----- the transient model -----

  /** matvectmult. */
  method MatVecMult(vout: array<real>, m: array2<real>, vin: array<real>, n: nat)
    requires IsSquareArray(m, n) && vin.Length == vout.Length == n && vout != vin
    modifies vout
    ensures SameVec(n, AsVec(vout[..]), TimesVec(n, AsMat(Values(m)), AsVec(vin[..])))
  {
    ghost var a, x := AsMat(Values(m)), AsVec(vin[..]);
    for i := 0 to n
      invariant forall r | 0 <= r < i :: vout[r] == TimesVec(n, a, x)(r)
    {
      vout[i] := 0.0;
      for j := 0 to n
        invariant forall r | 0 <= r < i :: vout[r] == TimesVec(n, a, x)(r)
        invariant vout[i] == Sum(j, Terms(a, x, i))
      {
        assert a(i, j) == m[i, j] && x(j) == vin[j];
        vout[i] := vout[i] + m[i, j] * vin[j];
      }
    }
  }

  /** slope_fn_block: dy = p - Cy. */
  method SlopeFn(c: array2<real>, n: nat, y: array<real>, p: array<real>, dy: array<real>)
    requires IsSquareArray(c, n) && y.Length == p.Length == dy.Length == n && dy != y && dy != p
    modifies dy
    ensures forall i | 0 <= i < n :: dy[i] == p[i] - TimesVec(n, AsMat(Values(c)), AsVec(y[..]))(i)
  {
    hide TimesVec;
    var t := new real[n](_ => 0.0);
    MatVecMult(t, c, y, n);
    ghost var cy := TimesVec(n, AsMat(Values(c)), AsVec(y[..]));
    assert forall i | 0 <= i < n :: t[i] == AsVec(t[..])(i) == cy(i);
    for i := 0 to n
      invariant forall r | 0 <= r < n :: t[r] == cy(r)
      invariant forall r | 0 <= r < i :: dy[r] == p[r] - cy(r)
    {
      dy[i] := p[i] - t[i];
    }
  }

  /** Each row of B, and the power of the node, over the capacitance of the node. */
  ghost predicate Scaled(c: Mat, p: Vec, b: Mat, power: Vec, inva: Vec, n: nat) {
    (forall i, j | 0 <= i < n && 0 <= j < n :: c(i, j) == inva(i) * b(i, j)) &&
    (forall i | 0 <= i < n :: p(i) == inva(i) * power(i) && inva(i) != 0.0)
  }

  /** diagmatmult: each row times an entry of a vector. */
  method DiagMatMult(c: array2<real>, a: array<real>, b: array2<real>, n: nat)
    requires a.Length == n && IsSquareArray(b, n) && IsSquareArray(c, n) && c != b
    modifies c
    ensures forall i, j | 0 <= i < n && 0 <= j < n :: c[i, j] == a[i] * b[i, j]
  {
    for i := 0 to n
      invariant forall r, s | 0 <= r < i && 0 <= s < n :: c[r, s] == a[r] * b[r, s]
    {
      ghost var d := a[i];
      for j := 0 to n
        invariant forall r, s | 0 <= r < i && 0 <= s < n :: c[r, s] == a[r] * b[r, s]
        invariant forall s | 0 <= s < j :: c[i, s] == d * b[i, s]
      {
        c[i, j] := a[i] * b[i, j];
      }
    }
  }

  /** The end of populate_C_model_block: the inverse capacitances, and C. */
  method ScaleRows(a: array<real>, b: array2<real>, n: nat, inva: array<real>, c: array2<real>)
    requires a.Length == inva.Length == n && IsSquareArray(b, n) && IsSquareArray(c, n) && c != b && inva != a
    requires forall i | 0 <= i < n :: a[i] > 0.0
    modifies inva, c
    ensures forall i | 0 <= i < n :: inva[i] == 1.0 / a[i]
    ensures forall i, j | 0 <= i < n && 0 <= j < n :: c[i, j] == inva[i] * b[i, j]
  {
    for i := 0 to n
      invariant forall r | 0 <= r < i :: inva[r] == 1.0 / a[r]
    {
      inva[i] := 1.0 / a[i];
    }
    DiagMatMult(c, inva, b, n);
  }

  /** diagmatvectmult, for the power that compute_temp_block hands to the solver. */
  method DiagMatVecMult(vout: array<real>, m: array<real>, vin: array<real>, n: nat)
    requires vout.Length == m.Length == vin.Length == n && vout != m && vout != vin
    modifies vout
    ensures forall i | 0 <= i < n :: vout[i] == m[i] * vin[i]
  {
    for i := 0 to n
      invariant forall r | 0 <= r < i :: vout[r] == m[r] * vin[r]
    {
      vout[i] := m[i] * vin[i];
    }
  }

  /** What the two leave is a scaled network. */
  lemma RowsScaled(a: array<real>, b: array2<real>, n: nat, inva: array<real>, c: array2<real>, power: array<real>,
                   t: array<real>)
    requires a.Length == inva.Length == power.Length == t.Length == n && IsSquareArray(b, n) && IsSquareArray(c, n)
    requires forall i | 0 <= i < n :: a[i] > 0.0 && inva[i] == 1.0 / a[i] && t[i] == inva[i] * power[i]
    requires forall i, j | 0 <= i < n && 0 <= j < n :: c[i, j] == inva[i] * b[i, j]
    ensures Scaled(AsMat(Values(c)), AsVec(t[..]), AsMat(Values(b)), AsVec(power[..]), AsVec(inva[..]), n)
  {
    forall i | 0 <= i < n
      ensures inva[i] != 0.0
    {
      NotZero(a[i]);
    }
  }

  /** The start of compute_temp_block: the virtual nodes get their power, and the scratch pad the power
      over the capacitances. The equation that the solver is then given, dT + CT = t, is at rest exactly in
      the steady states of the network. */
  method StartTransient(model: Model, power: array<real>, a: array<real>, inva: array<real>, c: array2<real>,
                        t: array<real>)
    requires model.Shaped() && power.Length == a.Length == inva.Length == t.Length == model.nodes
    requires IsSquareArray(c, model.nodes)
    requires power != model.gAmb && power != a && power != inva && t != a && t != inva && t != power && t != model.gAmb
    requires forall i | 0 <= i < model.nodes :: a[i] > 0.0 && inva[i] == 1.0 / a[i]
    requires forall i, j | 0 <= i < model.nodes && 0 <= j < model.nodes :: c[i, j] == inva[i] * model.b[i, j]
    modifies power, t
    ensures forall x: Vec ::
              SameVec(model.nodes, AsVec(t[..]), TimesVec(model.nodes, AsMat(Values(c)), x)) <==>
              Solves(Values(model.b), x, Fed(UnitPower(old(power[..]), model.n), model.AmbientOf(), model.ambient),
                     model.nodes)
  {
    hide Solves, TimesVec, Scaled, Fed, UnitPower;
    ghost var fed := Fed(UnitPower(power[..], model.n), model.AmbientOf(), model.ambient);
    model.SetInternalPower(power);
    DiagMatVecMult(t, inva, power, model.nodes);
    RowsScaled(a, model.b, model.nodes, inva, c, power, t);
    forall x: Vec
      ensures SameVec(model.nodes, AsVec(t[..]), TimesVec(model.nodes, AsMat(Values(c)), x)) <==>
              Solves(Values(model.b), x, fed, model.nodes)
    {
      AtRest(AsMat(Values(c)), AsVec(t[..]), Values(model.b), AsVec(power[..]), fed, AsVec(inva[..]), model.nodes, x);
    }
  }

  lemma AtRest(c: Mat, p: Vec, b: Grid, power: Vec, fed: Vec, inva: Vec, n: nat, t: Vec)
    requires Scaled(c, p, AsMat(b), power, inva, n) && SameVec(n, power, fed)
    ensures SameVec(n, p, TimesVec(n, c, t)) <==> Solves(b, t, fed, n)
  {
    hide TimesVec, Scaled;
    RestIsSteady(c, p, b, power, inva, n, t);
  }

  lemma NotZero(a: real)
    requires a > 0.0
    ensures 1.0 / a != 0.0
  {
  }

  /** The transient model is at rest exactly in the steady states. */
  lemma RestIsSteady(c: Mat, p: Vec, b: Grid, power: Vec, inva: Vec, n: nat, t: Vec)
    requires Scaled(c, p, AsMat(b), power, inva, n)
    ensures (forall i | 0 <= i < n :: p(i) - TimesVec(n, c, t)(i) == 0.0) <==> Solves(b, t, power, n)
  {
    forall i | 0 <= i < n
      ensures p(i) - TimesVec(n, c, t)(i) == 0.0 <==> TimesVec(n, AsMat(b), t)(i) == power(i)
    {
      SumTimes(n, inva(i), Terms(AsMat(b), t, i), Terms(c, t, i));
      SameScaled(inva(i), power(i), TimesVec(n, AsMat(b), t)(i));
    }
  }

  lemma SameScaled(d: real, u: real, v: real)
    requires d != 0.0
    ensures d * u - d * v == 0.0 <==> u == v
  {
    assert d * u - d * v == d * (u - v);
  }
}
