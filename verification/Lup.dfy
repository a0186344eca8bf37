/** The solver of HotSpot/RCutil.c in its in-place form: lupdcmp, lusolve and matinv on arrays,
    proved against LupFactors.dfy and Substitution.dfy. */
module Lup {
  import opened Numbers
  import opened LinearAlgebra
  import opened LupFactors
  import opened Substitution

  ghost predicate IsSquareArray(a: array2<real>, n: nat) {
    a.Length0 == n && a.Length1 == n
  }

  function RowValues(a: array2<real>, i: nat): (r: seq<real>)
    requires i < a.Length0
    reads a
    ensures |r| == a.Length1 && forall j | 0 <= j < a.Length1 :: r[j] == a[i, j]
  {
    seq(a.Length1, j requires 0 <= j < a.Length1 reads a => a[i, j])
  }

  /** The contents of an array. */
  function Values(a: array2<real>): (m: Grid)
    reads a
    ensures |m| == a.Length0 && forall i | 0 <= i < a.Length0 :: m[i] == RowValues(a, i)
  {
    seq(a.Length0, i requires 0 <= i < a.Length0 reads a => RowValues(a, i))
  }

  /** The search for the largest entry of a column at or below the diagonal. */
  method FindPivot(a: array2<real>, n: nat, k: nat, last: nat) returns (max: real, pivot: nat)
    requires IsSquareArray(a, n) && k < n
    ensures max >= 0.0 && forall i | k <= i < n :: Abs(a[i, k]) <= max
    ensures max > 0.0 ==> k <= pivot < n && max == Abs(a[pivot, k]) && forall i | k <= i < pivot :: Abs(a[i, k]) < max
  {
    max, pivot := 0.0, last;
    for i := k to n
      invariant max >= 0.0 && forall r | k <= r < i :: Abs(a[r, k]) <= max
      invariant max > 0.0 ==>
                k <= pivot < i && max == Abs(a[pivot, k]) && forall r | k <= r < pivot :: Abs(a[r, k]) < max
    {
      if Abs(a[i, k]) > max {
        max := Abs(a[i, k]);
        pivot := i;
      }
    }
  }

  /** Two rows change places, entry by entry. */
  method SwapRows(a: array2<real>, n: nat, k: nat, q: nat)
    requires IsSquareArray(a, n) && k < n && q < n
    modifies a
    ensures Values(a) == Swapped(old(Values(a)), k, q)
  {
    for j := 0 to n
      invariant forall r, c | 0 <= r < n && 0 <= c < n ::
                  a[r, c] == if c < j && r == k then old(a[q, c]) else if c < j && r == q then old(a[k, c])
                             else old(a[r, c])
    {
      a[k, j], a[q, j] := a[q, j], a[k, j];
    }
    SameRows(Values(a), Swapped(old(Values(a)), k, q));
  }

  lemma SameRows(m: Grid, m': Grid)
    requires |m| == |m'| && forall i | 0 <= i < |m| :: |m[i]| == |m'[i]|
    requires forall i, j | 0 <= i < |m| && 0 <= j < |m[i]| :: m[i][j] == m'[i][j]
    ensures m == m'
  {
    forall i | 0 <= i < |m|
      ensures m[i] == m'[i]
    {
    }
  }

  /** One row below the pivot. */
  method EliminateRow(a: array2<real>, n: nat, k: nat, i: nat)
    requires IsSquareArray(a, n) && k < i < n && a[k, k] != 0.0
    modifies a
    ensures RowValues(a, i) == Reduced(old(RowValues(a, i)), old(RowValues(a, k)), k)
    ensures forall r, c | 0 <= r < n && 0 <= c < n && r != i :: a[r, c] == old(a[r, c])
  {
    hide Values;
    a[i, k] := a[i, k] / a[k, k];
    ghost var c := a[i, k];
    for j := k + 1 to n
      invariant forall r, c | 0 <= r < n && 0 <= c < n && r != i :: a[r, c] == old(a[r, c])
      invariant a[i, k] == c && forall s | 0 <= s < n && s != k && !(k < s < j) :: a[i, s] == old(a[i, s])
      invariant forall s | k < s < j :: a[i, s] == old(a[i, s]) - c * old(a[k, s])
    {
      a[i, j] := a[i, j] - a[i, k] * a[k, j];
    }
    RowReduced(RowValues(a, i), old(RowValues(a, i)), old(RowValues(a, k)), n, k);
  }

  lemma RowReduced(row: seq<real>, was: seq<real>, pivot: seq<real>, n: nat, k: nat)
    requires |row| == |was| == |pivot| == n && k < n && pivot[k] != 0.0 && row[k] == was[k] / pivot[k]
    requires forall s | 0 <= s < n && s < k :: row[s] == was[s]
    requires forall s | k < s < n :: row[s] == was[s] - row[k] * pivot[s]
    ensures row == Reduced(was, pivot, k)
  {
    var r := Reduced(was, pivot, k);
    assert forall s | 0 <= s < n :: row[s] == r[s];
  }

  /** All the rows below the pivot. */
  method EliminateBelow(a: array2<real>, n: nat, k: nat)
    requires IsSquareArray(a, n) && k < n && a[k, k] != 0.0
    modifies a
    ensures Values(a) == ReducedBelow(old(Values(a)), k)
  {
    for i := k + 1 to n
      invariant forall r | 0 <= r < n && !(k < r < i) :: RowValues(a, r) == old(RowValues(a, r))
      invariant forall r | k < r < i :: RowValues(a, r) == Reduced(old(RowValues(a, r)), old(RowValues(a, k)), k)
    {
      label before:
      assert RowValues(a, k) == old(RowValues(a, k)) && RowValues(a, k)[k] == a[k, k];
      EliminateRow(a, n, k, i);
      assert forall r | 0 <= r < n && r != i :: RowValues(a, r) == old@before(RowValues(a, r));
    }
  }

  /** How the decomposition ended: with the factors, or with the abort on a column that has nothing
      of at least DELTA left. */
  datatype LupOutcome = Decomposed | Singular(column: nat)

  /** One column of lupdcmp: the pivot is brought to the diagonal, and the rows below are reduced. */
  method Column(a: array2<real>, n: nat, p: array<int>, k: nat, last: nat, ghost a0: Grid)
    returns (ok: bool, pivot: nat)
    requires IsSquareArray(a, n) && p.Length == n && k < n
    requires Stands(Values(a), k, a0, p[..], n) && Tame(Values(a), k, n)
    modifies a, p
    ensures ok ==> Stands(Values(a), k + 1, a0, p[..], n) && Tame(Values(a), k + 1, n)
    ensures !ok ==> Values(a) == old(Values(a)) && p[..] == old(p[..]) && forall i | k <= i < n :: Abs(a[i, k]) < DELTA
  {
    var max;
    max, pivot := FindPivot(a, n, k, last);
    if max < DELTA {
      return false, pivot;
    }
    SwapStands(Values(a), k, pivot, a0, p[..], n);
    SwapTame(Values(a), k, pivot, n);
    p[k], p[pivot] := p[pivot], p[k];
    SwapRows(a, n, k, pivot);
    assert Values(a)[k] == old(RowValues(a, pivot));
    ReduceStands(Values(a), k, a0, p[..], n);
    ReduceTame(Values(a), k, n);
    EliminateBelow(a, n, k);
    return true, pivot;
  }

  /** lupdcmp. On success p is a permutation, and the two factors that share the array have the
      product that the original matrix has with its rows in that order; no multiplier exceeds one,
      and every pivot but the last, which is never looked at, is at least DELTA. */
  method Lupdcmp(a: array2<real>, n: nat, p: array<int>) returns (outcome: LupOutcome)
    requires IsSquareArray(a, n) && p.Length == n && n >= 1
    modifies a, p
    ensures outcome.Decomposed? ==> Factors(Values(a), p[..], old(Values(a)), n) && Tame(Values(a), n - 1, n)
    ensures outcome.Singular? ==>
            outcome.column < n - 1 && Stands(Values(a), outcome.column, old(Values(a)), p[..], n) &&
                                  forall i | outcome.column <= i < n :: Abs(a[i, outcome.column]) < DELTA
  {
    ghost var a0 := Values(a);
    for i := 0 to n
      invariant Values(a) == a0 && forall j | 0 <= j < i :: p[j] == j
    {
      p[i] := i;
    }
    StandsAtFirst(a0, p[..], n);
    var pivot := 0;
    for k := 0 to n - 1
      invariant Stands(Values(a), k, a0, p[..], n) && Tame(Values(a), k, n)
    {
      var ok;
      ok, pivot := Column(a, n, p, k, pivot, a0);
      if !ok {
        return Singular(k);
      }
    }
    StandsFactors(Values(a), a0, p[..], n);
    return Decomposed;
  }

  // ----- substitution -----

  /** One sum of the forward substitution. */
  method ForwardSum(a: array2<real>, n: nat, y: array<real>, i: nat) returns (sum: real)
    requires IsSquareArray(a, n) && y.Length == n && i < n
    ensures sum == Sum(i, Terms(Lower(Values(a)), AsVec(y[..]), i))
  {
    sum := 0.0;
    for j := 0 to i
      invariant sum == Sum(j, Terms(Lower(Values(a)), AsVec(y[..]), i))
    {
      sum := sum + y[j] * a[i, j];
      LowerTerm(Values(a), y[..], i, j, n);
    }
  }

  lemma LowerTerm(m: Grid, y: seq<real>, i: nat, j: nat, n: nat)
    requires Square(m, n) && |y| == n && j < i < n
    ensures Terms(Lower(m), AsVec(y), i)(j) == y[j] * m[i][j]
  {
    assert AsMat(m)(i, j) == m[i][j];
    assert Lower(m)(i, j) == AsMat(m)(i, j);
  }

  lemma UpperTerm(m: Grid, x: seq<real>, i: nat, j: nat, n: nat)
    requires Square(m, n) && |x| == n && i <= j < n
    ensures Terms(Upper(m), AsVec(x), i)(j) == x[j] * m[i][j]
  {
    assert AsMat(m)(i, j) == m[i][j];
    assert Upper(m)(i, j) == AsMat(m)(i, j);
  }

  /** One sum of the backward substitution. */
  method BackSum(a: array2<real>, n: nat, x: array<real>, i: nat) returns (sum: real)
    requires IsSquareArray(a, n) && x.Length == n && i < n
    ensures sum == SumFrom(i + 1, n, Terms(Upper(Values(a)), AsVec(x[..]), i))
  {
    sum := 0.0;
    for j := i + 1 to n
      invariant sum == SumFrom(i + 1, j, Terms(Upper(Values(a)), AsVec(x[..]), i))
    {
      sum := sum + x[j] * a[i, j];
      UpperTerm(Values(a), x[..], i, j, n);
    }
  }

  /** Solves Ly = Pb. */
  method Forward(a: array2<real>, n: nat, p: array<int>, b: array<real>, ghost m: Grid) returns (y: array<real>)
    requires IsSquareArray(a, n) && p.Length == b.Length == n && IsPermutation(p[..], n) && m == Values(a)
    ensures fresh(y) && Forwarded(m, p[..], b[..], y[..], n, n)
  {
    hide Lower, Terms, AsVec, Values;
    y := new real[n](_ => 0.0);
    for i := 0 to n
      invariant Forwarded(m, p[..], b[..], y[..], i, n)
    {
      var sum := ForwardSum(a, n, y, i);
      ForwardStep(m, p[..], b[..], y[..], i, n, b[p[i]] - sum);
      y[i] := b[p[i]] - sum;
    }
  }

  /** Solves Ux = y. */
  method Backward(a: array2<real>, n: nat, y: array<real>, x: array<real>, ghost m: Grid)
    requires IsSquareArray(a, n) && y.Length == x.Length == n && y != x && m == Values(a) && Regular(m, n)
    modifies x
    ensures Backed(m, y[..], x[..], 0, n)
  {
    for i := n downto 0
      invariant Backed(m, y[..], x[..], i, n)
    {
      var sum := BackSum(a, n, x, i);
      BackStep(m, y[..], x[..], i, n, (y[i] - sum) / a[i, i]);
      x[i] := (y[i] - sum) / a[i, i];
    }
  }

  /** lusolve. With the factors of a0, and no zero among the pivots, x solves a0 x = b. */
  method Lusolve(a: array2<real>, n: nat, p: array<int>, b: array<real>, x: array<real>, ghost a0: Grid)
    requires IsSquareArray(a, n) && p.Length == b.Length == x.Length == n
    requires Factors(Values(a), p[..], a0, n) && Regular(Values(a), n)
    modifies x
    ensures Solves(a0, AsVec(x[..]), AsVec(old(b[..])), n)
  {
    var y := Forward(a, n, p, b, Values(a));
    Backward(a, n, y, x, Values(a));
    SubstitutionSolves(Values(a), p[..], a0, n, old(b[..]), y[..], x[..]);
  }

  // ----- the inverse -----

  /** Column j of the second array is the image, by the inverse of the first, of a unit vector. */
  ghost predicate InverseColumns(a0: Grid, inv: array2<real>, j: nat, n: nat)
    requires IsSquareArray(inv, n)
    reads inv
  {
    forall c | 0 <= c < j :: Solves(a0, ColumnOf(AsMat(Values(inv)), c), ColumnOf(Identity, c), n)
  }

  method UnitVector(col: array<real>, n: nat, j: nat)
    requires col.Length == n && j < n
    modifies col
    ensures SameVec(n, AsVec(col[..]), ColumnOf(Identity, j))
  {
    for i := 0 to n
      invariant forall r | 0 <= r < i :: col[r] == 0.0
    {
      col[i] := 0.0;
    }
    col[j] := 1.0;
  }

  method StoreColumn(inv: array2<real>, n: nat, j: nat, work: array<real>)
    requires IsSquareArray(inv, n) && work.Length == n && j < n
    modifies inv
    ensures forall r | 0 <= r < n :: inv[r, j] == work[r]
    ensures forall r, c | 0 <= r < n && 0 <= c < n && c != j :: inv[r, c] == old(inv[r, c])
  {
    for i := 0 to n
      invariant forall r | 0 <= r < i :: inv[r, j] == work[r]
      invariant forall r, c | 0 <= r < n && 0 <= c < n && c != j :: inv[r, c] == old(inv[r, c])
    {
      inv[i, j] := work[i];
    }
  }

  lemma SolvesSame(a: Grid, x: Vec, x': Vec, b: Vec, b': Vec, n: nat)
    requires Solves(a, x, b, n) && SameVec(n, x, x') && SameVec(n, b, b')
    ensures Solves(a, x', b', n)
  {
    TimesVecSame(n, AsMat(a), AsMat(a), x, x');
    forall r | 0 <= r < n
      ensures TimesVec(n, AsMat(a), x')(r) == b'(r)
    {
      assert TimesVec(n, AsMat(a), x)(r) == TimesVec(n, AsMat(a), x')(r);
    }
  }

  /** One round of the loop of matinv. */
  method InverseColumn(m: array2<real>, n: nat, p: array<int>, inv: array2<real>, col: array<real>, work: array<real>,
                       j: nat, ghost a0: Grid)
    requires IsSquareArray(m, n) && IsSquareArray(inv, n) && p.Length == col.Length == work.Length == n && j < n
    requires m != inv && col != work && Factors(Values(m), p[..], a0, n) && Regular(Values(m), n)
    requires InverseColumns(a0, inv, j, n)
    modifies inv, col, work
    ensures InverseColumns(a0, inv, j + 1, n)
  {
    ghost var before := Values(inv);
    UnitVector(col, n, j);
    Lusolve(m, n, p, col, work, a0);
    StoreColumn(inv, n, j, work);
    ghost var after := Values(inv);
    forall c | 0 <= c < j + 1
      ensures Solves(a0, ColumnOf(AsMat(after), c), ColumnOf(Identity, c), n)
    {
      if c < j {
        SolvesSame(a0, ColumnOf(AsMat(before), c), ColumnOf(AsMat(after), c), ColumnOf(Identity, c),
                   ColumnOf(Identity, c), n);
      } else {
        SolvesSame(a0, AsVec(work[..]), ColumnOf(AsMat(after), j), AsVec(col[..]), ColumnOf(Identity, j), n);
      }
    }
  }

  /** The loop of matinv. */
  method InverseColumnsAll(m: array2<real>, n: nat, p: array<int>, inv: array2<real>, ghost a0: Grid)
    requires IsSquareArray(m, n) && IsSquareArray(inv, n) && p.Length == n && m != inv
    requires Factors(Values(m), p[..], a0, n) && Regular(Values(m), n)
    modifies inv
    ensures InverseColumns(a0, inv, n, n)
  {
    var work, col := new real[n](_ => 0.0), new real[n](_ => 0.0);
    for j := 0 to n
      invariant InverseColumns(a0, inv, j, n)
    {
      InverseColumn(m, n, p, inv, col, work, j, a0);
    }
  }

  /** How an inversion ended. ZeroPivot is a last pivot of zero, which lupdcmp lets pass: from
      there on the source would divide by zero. */
  datatype InverseOutcome = Inverted | Aborted(column: nat) | ZeroPivot

  /** matinv: m is decomposed in place, and the columns of its inverse are found one by one. A last
      pivot of zero is met only if there is no inverse. */
  method Matinv(inv: array2<real>, m: array2<real>, n: nat) returns (outcome: InverseOutcome)
    requires IsSquareArray(m, n) && IsSquareArray(inv, n) && m != inv && n >= 1
    modifies inv, m
    ensures outcome.Inverted? ==>
              IsInverse(AsMat(old(Values(m))), AsMat(Values(inv)), n) &&
              IsInverse(AsMat(Values(inv)), AsMat(old(Values(m))), n)
    ensures outcome.ZeroPivot? ==> forall other: Mat :: !IsInverse(other, AsMat(old(Values(m))), n)
    ensures outcome.Aborted? ==>
            outcome.column < n - 1 && forall i | outcome.column <= i < n :: Abs(m[i, outcome.column]) < DELTA
  {
    ghost var a0 := Values(m);
    var p := new int[n];
    var lup := Lupdcmp(m, n, p);
    if lup.Singular? {
      return Aborted(lup.column);
    }
    if m[n - 1, n - 1] == 0.0 {
      forall other: Mat
        ensures !IsInverse(other, AsMat(a0), n)
      {
        ZeroPivotSingular(Values(m), p[..], a0, n, other);
      }
      return ZeroPivot;
    }
    TameRegular(Values(m), n);
    InverseColumnsAll(m, n, p, inv, a0);
    ColumnsInverse(a0, AsMat(Values(inv)), n);
    InverseFromLeft(Values(m), p[..], a0, AsMat(Values(inv)), n);
    return Inverted;
  }
}
