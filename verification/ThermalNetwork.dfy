/** Networks of conductances to each other and to ambient: what a symmetric matrix with the right
    row sums implies for every solution, whatever the network. The matrix of the block model
    (HotSpot/temperature_block.c) is one. */
module ThermalNetwork {
  import opened LinearAlgebra
  import opened LupFactors
  import opened Substitution

  /** A conductance matrix: symmetric, nothing positive off the diagonal, and each row sums to the
      conductance from that node to ambient. */
  ghost predicate IsNetwork(b: Grid, amb: Vec, n: nat) {
    Square(b, n) &&
    (forall i, j | 0 <= i < n && 0 <= j < n :: b[i][j] == b[j][i]) &&
    (forall i, j | 0 <= i < n && 0 <= j < n && i != j :: b[i][j] <= 0.0) &&
    (forall i | 0 <= i < n :: amb(i) >= 0.0 && Sum(n, RowOf(AsMat(b), i)) == amb(i))
  }

  /** Some path of at most k links leads from node i to ambient. */
  ghost predicate Reaches(b: Grid, amb: Vec, n: nat, i: nat, k: nat)
    requires Square(b, n) && i < n
    decreases k
  {
    amb(i) > 0.0 || (k > 0 && exists j: nat :: j < n && j != i && b[i][j] < 0.0 && Reaches(b, amb, n, j, k - 1))
  }

  ghost predicate HasPath(b: Grid, amb: Vec, n: nat, i: nat)
    requires Square(b, n) && i < n
  {
    exists k: nat :: Reaches(b, amb, n, i, k)
  }

  /** Every node has a path to ambient. */
  ghost predicate Connected(b: Grid, amb: Vec, n: nat)
    requires Square(b, n)
  {
    forall i: nat | i < n :: HasPath(b, amb, n, i)
  }

  /** What a node is fed: its own power, and ambient through its conductance. */
  function Fed(power: Vec, amb: Vec, ambient: real): Vec {
    i => power(i) + ambient * amb(i)
  }

  function HeatLost(t: Vec, amb: Vec, ambient: real): Vec {
    i => amb(i) * (t(i) - ambient)
  }

  /** Conservation of energy: in every steady state all the power goes to ambient. */
  lemma EnergyConserved(b: Grid, amb: Vec, n: nat, t: Vec, power: Vec, ambient: real)
    requires IsNetwork(b, amb, n) && Solves(b, t, Fed(power, amb, ambient), n)
    ensures Sum(n, HeatLost(t, amb, ambient)) == Sum(n, power)
  {
    hide Sum;
    var flows: Mat := (i, j) => AsMat(b)(i, j) * t(j);
    var held: Vec := i => amb(i) * t(i);
    SumExchange(n, n, flows);
    forall i | 0 <= i < n
      ensures RowSums(n, n, flows)(i) == Fed(power, amb, ambient)(i)
    {
      SumSame(n, RowOf(flows, i), Terms(AsMat(b), t, i));
      assert TimesVec(n, AsMat(b), t)(i) == Fed(power, amb, ambient)(i);
    }
    forall j | 0 <= j < n
      ensures ColumnSums(n, n, flows)(j) == held(j)
    {
      ColumnHeld(b, amb, n, t, flows, j);
    }
    SumSame(n, RowSums(n, n, flows), Fed(power, amb, ambient));
    SumSame(n, ColumnSums(n, n, flows), held);
    LostAndFed(n, t, power, amb, ambient, held);
  }

  lemma ColumnHeld(b: Grid, amb: Vec, n: nat, t: Vec, flows: Mat, j: nat)
    requires IsNetwork(b, amb, n) && j < n && forall i, j :: flows(i, j) == AsMat(b)(i, j) * t(j)
    ensures Sum(n, ColumnOf(flows, j)) == amb(j) * t(j)
  {
    forall i | 0 <= i < n
      ensures ColumnOf(flows, j)(i) == t(j) * RowOf(AsMat(b), j)(i)
    {
      assert b[i][j] == b[j][i];
      assert AsMat(b)(i, j) == AsMat(b)(j, i);
    }
    SumTimes(n, t(j), RowOf(AsMat(b), j), ColumnOf(flows, j));
  }

  lemma {:induction false} LostAndFed(n: nat, t: Vec, power: Vec, amb: Vec, ambient: real, held: Vec)
    requires forall i | 0 <= i < n :: held(i) == amb(i) * t(i)
    ensures Sum(n, HeatLost(t, amb, ambient)) - Sum(n, power) == Sum(n, held) - Sum(n, Fed(power, amb, ambient))
  {
    if n > 0 {
      var k := n - 1;
      LostAndFed(k, t, power, amb, ambient, held);
      assert HeatLost(t, amb, ambient)(k) == amb(k) * t(k) - ambient * amb(k);
    }
  }

  // ----- the coldest node -----

  /** No node is colder. */
  ghost predicate Coldest(t: Vec, n: nat, i: nat) {
    i < n && forall j | 0 <= j < n :: t(i) <= t(j)
  }

  lemma {:induction false} ColdestExists(t: Vec, n: nat) returns (i: nat)
    requires n > 0
    ensures Coldest(t, n, i)
  {
    if n == 1 {
      i := 0;
    } else {
      i := ColdestExists(t, n - 1);
      if t(n - 1) < t(i) {
        i := n - 1;
      }
    }
  }

  /** What flows into node i from the others. */
  function Inflow(b: Grid, t: Vec, i: int): Vec {
    j => AsMat(b)(i, j) * (t(j) - t(i))
  }

  lemma {:induction false} InflowSum(n: nat, b: Grid, t: Vec, i: int, m: nat)
    requires m <= n
    ensures Sum(m, Inflow(b, t, i)) == Sum(m, Terms(AsMat(b), t, i)) - t(i) * Sum(m, RowOf(AsMat(b), i))
  {
    if m > 0 {
      InflowSum(n, b, t, i, m - 1);
      var c, u, v := AsMat(b)(i, m - 1), t(m - 1), t(i);
      assert c * (u - v) == c * u - v * c;
      Distribute(v, Sum(m - 1, RowOf(AsMat(b), i)), c);
    }
  }

  lemma Distribute(v: real, s: real, c: real)
    ensures v * (s + c) == v * s + v * c
  {
  }

  /** A coldest node below ambient, if no node is cooled: it has no link to ambient itself, and its
      neighbours are just as cold. */
  lemma ColdestRow(b: Grid, amb: Vec, n: nat, t: Vec, power: Vec, ambient: real, i: nat)
    requires IsNetwork(b, amb, n) && Solves(b, t, Fed(power, amb, ambient), n)
    requires (forall j | 0 <= j < n :: power(j) >= 0.0) && Coldest(t, n, i) && t(i) < ambient
    ensures amb(i) == 0.0
    ensures forall j | 0 <= j < n && b[i][j] < 0.0 && j != i :: t(j) == t(i)
  {
    var f := Inflow(b, t, i);
    InflowSum(n, b, t, i, n);
    assert TimesVec(n, AsMat(b), t)(i) == Fed(power, amb, ambient)(i);
    Balance(Sum(n, f), power(i), amb(i), ambient, t(i));
    forall j | 0 <= j < n
      ensures f(j) <= 0.0
    {
      Downhill(AsMat(b)(i, j), t(j) - t(i), i == j);
    }
    SumOfNonPositive(n, f);
    forall j | 0 <= j < n && b[i][j] < 0.0 && j != i
      ensures t(j) == t(i)
    {
      assert f(j) == 0.0 && AsMat(b)(i, j) == b[i][j];
      NoFlow(b[i][j], t(j) - t(i));
    }
  }

  lemma Balance(inflow: real, power: real, amb: real, ambient: real, t: real)
    requires inflow == power + ambient * amb - t * amb && power >= 0.0 && amb >= 0.0 && t < ambient
    ensures inflow >= 0.0 && (inflow <= 0.0 ==> amb == 0.0)
  {
    assert ambient * amb - t * amb == (ambient - t) * amb;
    assert amb > 0.0 ==> (ambient - t) * amb > 0.0;
  }

  lemma Downhill(c: real, d: real, same: bool)
    requires d >= 0.0 && (c <= 0.0 || d == 0.0)
    ensures c * d <= 0.0
  {
  }

  lemma NoFlow(c: real, d: real)
    requires c < 0.0 && c * d == 0.0
    ensures d == 0.0
  {
  }

  /** So a coldest node below ambient has no path to ambient, however long. */
  lemma {:induction false} ColdestUnreached(b: Grid, amb: Vec, n: nat, t: Vec, power: Vec, ambient: real, i: nat,
                                            k: nat)
    requires IsNetwork(b, amb, n) && Solves(b, t, Fed(power, amb, ambient), n)
    requires (forall j | 0 <= j < n :: power(j) >= 0.0) && Coldest(t, n, i) && t(i) < ambient
    ensures !Reaches(b, amb, n, i, k)
    decreases k
  {
    ColdestRow(b, amb, n, t, power, ambient, i);
    if k > 0 {
      forall j: nat | j < n && j != i && b[i][j] < 0.0
        ensures !Reaches(b, amb, n, j, k - 1)
      {
        ColdestUnreached(b, amb, n, t, power, ambient, j, k - 1);
      }
    }
  }

  /** The minimum principle: with no node cooled and every node connected, nothing is colder than
      ambient. */
  lemma NotBelowAmbient(b: Grid, amb: Vec, n: nat, t: Vec, power: Vec, ambient: real)
    requires IsNetwork(b, amb, n) && Connected(b, amb, n) && Solves(b, t, Fed(power, amb, ambient), n)
    requires forall j | 0 <= j < n :: power(j) >= 0.0
    ensures forall i | 0 <= i < n :: t(i) >= ambient
  {
    if n > 0 {
      var i := ColdestExists(t, n);
      if t(i) < ambient {
        assert HasPath(b, amb, n, i);
        forall k: nat
          ensures !Reaches(b, amb, n, i, k)
        {
          ColdestUnreached(b, amb, n, t, power, ambient, i, k);
        }
      }
    }
  }

  // ----- the matrix can be inverted -----

  /** A connected network without power is at ambient, zero here: the matrix is not singular. */
  lemma OnlyZero(b: Grid, amb: Vec, n: nat, x: Vec)
    requires IsNetwork(b, amb, n) && Connected(b, amb, n) && Solves(b, x, Zero, n)
    ensures SameVec(n, x, Zero)
  {
    var y: Vec := i => -x(i);
    forall r | 0 <= r < n
      ensures TimesVec(n, AsMat(b), x)(r) == Fed(Zero, amb, 0.0)(r)
      ensures TimesVec(n, AsMat(b), y)(r) == Fed(Zero, amb, 0.0)(r)
    {
      assert TimesVec(n, AsMat(b), x)(r) == 0.0;
      SumTimes(n, -1.0, Terms(AsMat(b), x, r), Terms(AsMat(b), y, r));
    }
    NotBelowAmbient(b, amb, n, x, Zero, 0.0);
    NotBelowAmbient(b, amb, n, y, Zero, 0.0);
    forall i | 0 <= i < n
      ensures x(i) == 0.0
    {
      assert y(i) == -x(i);
    }
  }

  /** lupdcmp never looks at its last pivot; on the matrix of a connected network it need not. */
  lemma LastPivotNotZero(m: Grid, p: seq<int>, b: Grid, amb: Vec, n: nat)
    requires n >= 1 && IsNetwork(b, amb, n) && Connected(b, amb, n)
    requires Factors(m, p, b, n) && Tame(m, n - 1, n)
    ensures Regular(m, n)
  {
    TameRegular(m, n);
    if m[n - 1][n - 1] == 0.0 {
      assert forall i | 0 <= i < n - 1 :: m[i][i] != 0.0;
      var x := NullVector(m, n, 0);
      NullSolves(m, p, b, n, x);
      LastEntry(x, n);
      OnlyZero(b, amb, n, AsVec(x));
    }
  }
}
