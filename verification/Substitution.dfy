/** Forward and backward substitution (lusolve, HotSpot/RCutil.c) as properties of values, and what
    they give together with the factors: a solution, and the only one. */
module Substitution {
  import opened LinearAlgebra
  import opened LupFactors

  function AsVec(s: seq<real>): Vec {
    i => if 0 <= i < |s| then s[i] else 0.0
  }

  /** The first i entries of y solve the first i rows of Ly = Pb. */
  ghost predicate Forwarded(m: Grid, p: seq<int>, b: seq<real>, y: seq<real>, i: nat, n: nat) {
    Square(m, n) && IsPermutation(p, n) && |b| == n && |y| == n && i <= n &&
    forall r | 0 <= r < i :: Sum(r, Terms(Lower(m), AsVec(y), r)) + y[r] == b[p[r]]
  }

  lemma ForwardStep(m: Grid, p: seq<int>, b: seq<real>, y: seq<real>, i: nat, n: nat, v: real)
    requires Forwarded(m, p, b, y, i, n) && i < n
    requires v == b[p[i]] - Sum(i, Terms(Lower(m), AsVec(y), i))
    ensures Forwarded(m, p, b, y[i := v], i + 1, n)
  {
    hide Lower, Terms, AsVec;
    var y' := y[i := v];
    forall r | 0 <= r < i + 1
      ensures Sum(r, Terms(Lower(m), AsVec(y'), r)) + y'[r] == b[p[r]]
    {
      EntryUnread(Lower(m), y, i, v, r);
    }
  }

  /** An entry that is not among the first r does not matter for their sum. */
  lemma EntryUnread(a: Mat, y: seq<real>, i: nat, v: real, r: nat)
    requires r <= i < |y|
    ensures Sum(r, Terms(a, AsVec(y[i := v]), r)) == Sum(r, Terms(a, AsVec(y), r))
  {
    SumSame(r, Terms(a, AsVec(y[i := v]), r), Terms(a, AsVec(y), r));
  }

  /** The sum from lo on. */
  function SumFrom(lo: nat, hi: nat, f: Vec): real {
    Sum(hi, f) - Sum(lo, f)
  }

  /** The entries of x from i on solve the rows of Ux = y from i on. */
  ghost predicate Backed(m: Grid, y: seq<real>, x: seq<real>, i: nat, n: nat) {
    Square(m, n) && |y| == n && |x| == n && i <= n &&
    forall r | i <= r < n :: SumFrom(r + 1, n, Terms(Upper(m), AsVec(x), r)) + m[r][r] * x[r] == y[r]
  }

  lemma BackStep(m: Grid, y: seq<real>, x: seq<real>, i: nat, n: nat, v: real)
    requires Backed(m, y, x, i + 1, n) && m[i][i] != 0.0
    requires v == (y[i] - SumFrom(i + 1, n, Terms(Upper(m), AsVec(x), i))) / m[i][i]
    ensures Backed(m, y, x[i := v], i, n)
  {
    var x' := x[i := v];
    forall r | i <= r < n
      ensures SumFrom(r + 1, n, Terms(Upper(m), AsVec(x'), r)) == SumFrom(r + 1, n, Terms(Upper(m), AsVec(x), r))
    {
      SumFromSame(r + 1, n, Terms(Upper(m), AsVec(x'), r), Terms(Upper(m), AsVec(x), r));
    }
    assert m[i][i] * v == y[i] - SumFrom(i + 1, n, Terms(Upper(m), AsVec(x), i));
  }

  lemma {:induction false} SumFromSame(lo: nat, hi: nat, f: Vec, g: Vec)
    requires lo <= hi && forall i | lo <= i < hi :: f(i) == g(i)
    ensures SumFrom(lo, hi, f) == SumFrom(lo, hi, g)
    decreases hi
  {
    if lo < hi {
      SumFromSame(lo, hi - 1, f, g);
    }
  }

  // ----- the two triangular systems -----

  lemma ForwardSolves(m: Grid, p: seq<int>, b: seq<real>, y: seq<real>, n: nat, r: nat)
    requires Forwarded(m, p, b, y, n, n) && r < n
    ensures TimesVec(n, Lower(m), AsVec(y))(r) == b[p[r]]
  {
    hide IsPermutation, Sum, AsMat;
    LowerRow(m, AsVec(y), n, r);
    assert Terms(Lower(m), AsVec(y), r)(r) == y[r];
  }

  /** The row of a lower triangular matrix ends at the diagonal. */
  lemma LowerRow(m: Grid, y: Vec, n: nat, r: nat)
    requires r < n
    ensures TimesVec(n, Lower(m), y)(r) == Sum(r, Terms(Lower(m), y, r)) + Terms(Lower(m), y, r)(r)
  {
    SumCut(r + 1, n, Terms(Lower(m), y, r));
  }

  lemma DiagonalTerm(m: Grid, x: Vec, r: nat, n: nat)
    requires Square(m, n) && r < n
    ensures Terms(Upper(m), x, r)(r) == m[r][r] * x(r)
  {
    assert AsMat(m)(r, r) == m[r][r];
    assert Upper(m)(r, r) == AsMat(m)(r, r);
  }

  lemma BackSolves(m: Grid, y: seq<real>, x: seq<real>, n: nat, r: nat)
    requires Backed(m, y, x, 0, n) && r < n
    ensures TimesVec(n, Upper(m), AsVec(x))(r) == y[r]
  {
    var f := Terms(Upper(m), AsVec(x), r);
    SumZero(r, f);
    DiagonalTerm(m, AsVec(x), r, n);
    assert Sum(r + 1, f) == Sum(r, f) + f(r);
  }

  /** No pivot is zero. */
  ghost predicate Regular(m: Grid, n: nat)
    requires Square(m, n)
  {
    forall i | 0 <= i < n :: m[i][i] != 0.0
  }

  // ----- the whole system -----

  /** x solves Ax = b. */
  ghost predicate Solves(a: Grid, x: Vec, b: Vec, n: nat) {
    forall r | 0 <= r < n :: TimesVec(n, AsMat(a), x)(r) == b(r)
  }

  /** Row r of LU times x is row p[r] of A times x. */
  lemma FactorsTimes(m: Grid, p: seq<int>, a: Grid, n: nat, x: Vec, r: nat)
    requires Factors(m, p, a, n) && r < n
    ensures TimesVec(n, Lower(m), TimesVec(n, Upper(m), x))(r) == TimesVec(n, AsMat(a), x)(p[r])
  {
    var lu := Times(n, Lower(m), Upper(m));
    TimesAssociates(n, Lower(m), Upper(m), x, r);
    forall j | 0 <= j < n
      ensures Terms(lu, x, r)(j) == Terms(AsMat(a), x, p[r])(j)
    {
      assert lu(r, j) == a[p[r]][j];
    }
    SumSame(n, Terms(lu, x, r), Terms(AsMat(a), x, p[r]));
  }

  function Numbers(n: nat): (s: set<int>)
    ensures |s| == n && forall k :: k in s <==> 0 <= k < n
  {
    if n == 0 then {} else Numbers(n - 1) + {n - 1}
  }

  /** As many different members as there are members are all of them. */
  lemma {:induction false} AllTaken(p: seq<int>, t: set<int>)
    requires |p| == |t| && forall i | 0 <= i < |p| :: p[i] in t
    requires forall i, j | 0 <= i < j < |p| :: p[i] != p[j]
    ensures forall q | q in t :: q in p
  {
    if |p| > 0 {
      var k := |p| - 1;
      assert p[k] in t && |t - {p[k]}| == k;
      AllTaken(p[..k], t - {p[k]});
      assert p == p[..k] + [p[k]];
    }
  }

  /** A permutation takes every value. */
  lemma PermutationOnto(p: seq<int>, n: nat, q: nat) returns (r: nat)
    requires IsPermutation(p, n) && q < n
    ensures r < n && p[r] == q
  {
    AllTaken(p, Numbers(n));
    assert q in p;
    r :| 0 <= r < n && p[r] == q;
  }

  /** Both substitutions done, the original system is solved. */
  lemma SubstitutionSolves(m: Grid, p: seq<int>, a: Grid, n: nat, b: seq<real>, y: seq<real>, x: seq<real>)
    requires Factors(m, p, a, n) && Forwarded(m, p, b, y, n, n) && Backed(m, y, x, 0, n)
    ensures Solves(a, AsVec(x), AsVec(b), n)
  {
    forall q | 0 <= q < n
      ensures TimesVec(n, AsMat(a), AsVec(x))(q) == AsVec(b)(q)
    {
      var r := PermutationOnto(p, n, q);
      FactorsTimes(m, p, a, n, AsVec(x), r);
      forall t | 0 <= t < n
        ensures TimesVec(n, Upper(m), AsVec(x))(t) == AsVec(y)(t)
      {
        BackSolves(m, y, x, n, t);
      }
      TimesVecSame(n, Lower(m), Lower(m), TimesVec(n, Upper(m), AsVec(x)), AsVec(y));
      ForwardSolves(m, p, b, y, n, r);
    }
  }

  // ----- uniqueness -----

  /** The lower factor tells vectors apart. */
  lemma {:induction false} LowerInjective(m: Grid, n: nat, u: Vec, v: Vec, k: nat)
    requires Square(m, n) && k <= n
    requires SameVec(n, TimesVec(n, Lower(m), u), TimesVec(n, Lower(m), v))
    ensures SameVec(k, u, v)
  {
    if k > 0 {
      var r := k - 1;
      LowerInjective(m, n, u, v, r);
      SumCut(r + 1, n, Terms(Lower(m), u, r));
      SumCut(r + 1, n, Terms(Lower(m), v, r));
      SumSame(r, Terms(Lower(m), u, r), Terms(Lower(m), v, r));
      assert TimesVec(n, Lower(m), u)(r) == TimesVec(n, Lower(m), v)(r);
    }
  }

  /** So does the upper factor, if no pivot is zero. */
  lemma {:induction false} UpperInjective(m: Grid, n: nat, u: Vec, v: Vec, k: nat)
    requires Square(m, n) && k <= n && Regular(m, n)
    requires SameVec(n, TimesVec(n, Upper(m), u), TimesVec(n, Upper(m), v))
    ensures forall i | k <= i < n :: u(i) == v(i)
    decreases n - k
  {
    if k < n {
      UpperInjective(m, n, u, v, k + 1);
      var f, g := Terms(Upper(m), u, k), Terms(Upper(m), v, k);
      SumZero(k, f);
      SumZero(k, g);
      SumFromSame(k + 1, n, f, g);
      assert Sum(k + 1, f) == Sum(k, f) + f(k) && Sum(k + 1, g) == Sum(k, g) + g(k);
      DiagonalTerm(m, u, k, n);
      DiagonalTerm(m, v, k, n);
      assert Sum(n, f) == TimesVec(n, Upper(m), u)(k) == TimesVec(n, Upper(m), v)(k) == Sum(n, g);
      SameFactor(m[k][k], u(k), v(k));
    }
  }

  lemma SameFactor(d: real, u: real, v: real)
    requires d != 0.0 && d * u == d * v
    ensures u == v
  {
    assert d * (u - v) == 0.0;
  }

  /** The system has no other solution. */
  lemma SolutionUnique(m: Grid, p: seq<int>, a: Grid, n: nat, b: Vec, x: Vec, z: Vec)
    requires Factors(m, p, a, n) && Regular(m, n) && Solves(a, x, b, n) && Solves(a, z, b, n)
    ensures SameVec(n, x, z)
  {
    var ux, uz := TimesVec(n, Upper(m), x), TimesVec(n, Upper(m), z);
    forall r | 0 <= r < n
      ensures TimesVec(n, Lower(m), ux)(r) == TimesVec(n, Lower(m), uz)(r)
    {
      FactorsTimes(m, p, a, n, x, r);
      FactorsTimes(m, p, a, n, z, r);
    }
    LowerInjective(m, n, ux, uz, n);
    UpperInjective(m, n, x, z, 0);
  }

  // ----- inverses -----

  /** The product is the identity. */
  ghost predicate IsInverse(a: Mat, b: Mat, n: nat) {
    SameMat(n, Times(n, a, b), Identity)
  }

  /** The images of the unit vectors, as columns, make an inverse from the right. */
  lemma ColumnsInverse(a: Grid, inv: Mat, n: nat)
    requires forall c | 0 <= c < n :: Solves(a, ColumnOf(inv, c), ColumnOf(Identity, c), n)
    ensures IsInverse(AsMat(a), inv, n)
  {
    forall i, j | 0 <= i < n && 0 <= j < n
      ensures Times(n, AsMat(a), inv)(i, j) == Identity(i, j)
    {
      ProductColumn(n, AsMat(a), inv, i, j);
      assert Solves(a, ColumnOf(inv, j), ColumnOf(Identity, j), n);
    }
  }

  /** An inverse from the right is also one from the left, as solutions are unique. */
  lemma InverseFromLeft(m: Grid, p: seq<int>, a: Grid, inv: Mat, n: nat)
    requires Factors(m, p, a, n) && Regular(m, n) && IsInverse(AsMat(a), inv, n)
    ensures IsInverse(inv, AsMat(a), n)
  {
    forall i, j | 0 <= i < n && 0 <= j < n
      ensures Times(n, inv, AsMat(a))(i, j) == Identity(i, j)
    {
      var column := ColumnOf(AsMat(a), j);
      var z := TimesVec(n, inv, column);
      assert Solves(a, z, column, n) by {
        RightInverseSolves(a, inv, column, n);
      }
      assert Solves(a, ColumnOf(Identity, j), column, n) by {
        UnitSolves(a, j, n);
      }
      SolutionUnique(m, p, a, n, column, z, ColumnOf(Identity, j));
      ProductColumn(n, inv, AsMat(a), i, j);
    }
  }

  lemma RightInverseSolves(a: Grid, inv: Mat, b: Vec, n: nat)
    requires IsInverse(AsMat(a), inv, n)
    ensures Solves(a, TimesVec(n, inv, b), b, n)
  {
    var product := Times(n, AsMat(a), inv);
    forall r | 0 <= r < n
      ensures TimesVec(n, AsMat(a), TimesVec(n, inv, b))(r) == b(r)
    {
      TimesAssociates(n, AsMat(a), inv, b, r);
      TimesVecSame(n, product, Identity, b, b);
      IdentityTimes(n, b, r);
    }
  }

  lemma UnitSolves(a: Grid, j: nat, n: nat)
    requires j < n
    ensures Solves(a, ColumnOf(Identity, j), ColumnOf(AsMat(a), j), n)
  {
    forall r | 0 <= r < n
      ensures TimesVec(n, AsMat(a), ColumnOf(Identity, j))(r) == AsMat(a)(r, j)
    {
      TimesUnit(n, AsMat(a), j, r);
    }
  }

  /** After lupdcmp only the last pivot can be zero. */
  lemma TameRegular(m: Grid, n: nat)
    requires n >= 1 && Square(m, n) && Tame(m, n - 1, n)
    ensures Regular(m, n) <==> m[n - 1][n - 1] != 0.0
  {
    assert forall i | 0 <= i < n - 1 :: m[i][i] != 0.0;
  }

  // ----- a last pivot of zero -----

  function Zeros(n: nat): (z: seq<real>)
    ensures |z| == n && forall i | 0 <= i < n :: z[i] == 0.0
  {
    seq(n, i => 0.0)
  }

  /** If the last pivot were zero, back substitution would find a vector other than zero that the
      upper factor takes to zero. */
  lemma {:induction false} NullVector(m: Grid, n: nat, k: nat) returns (x: seq<real>)
    requires n >= 1 && k < n && Square(m, n) && m[n - 1][n - 1] == 0.0 && forall i | 0 <= i < n - 1 :: m[i][i] != 0.0
    ensures Backed(m, Zeros(n), x, k, n) && x[n - 1] == 1.0
    decreases n - k
  {
    if k == n - 1 {
      x := Zeros(n)[n - 1 := 1.0];
    } else {
      x := NullVector(m, n, k + 1);
      var v := (0.0 - SumFrom(k + 1, n, Terms(Upper(m), AsVec(x), k))) / m[k][k];
      BackStep(m, Zeros(n), x, k, n, v);
      x := x[k := v];
    }
  }

  lemma LastEntry(x: seq<real>, n: nat)
    requires n >= 1 && |x| == n
    ensures AsVec(x)(n - 1) == x[n - 1]
  {
  }

  lemma NullSolves(m: Grid, p: seq<int>, b: Grid, n: nat, x: seq<real>)
    requires Factors(m, p, b, n) && Backed(m, Zeros(n), x, 0, n)
    ensures Solves(b, AsVec(x), Zero, n)
  {
    var ux := TimesVec(n, Upper(m), AsVec(x));
    forall t | 0 <= t < n
      ensures ux(t) == Zero(t)
    {
      BackSolves(m, Zeros(n), x, n, t);
    }
    forall q | 0 <= q < n
      ensures TimesVec(n, AsMat(b), AsVec(x))(q) == 0.0
    {
      var r := PermutationOnto(p, n, q);
      FactorsTimes(m, p, b, n, AsVec(x), r);
      SumZero(n, Terms(Lower(m), ux, r));
    }
  }

  /** With a zero for the last pivot the matrix takes a vector other than zero to zero, and nothing
      can take it back. */
  lemma ZeroPivotSingular(m: Grid, p: seq<int>, a: Grid, n: nat, inv: Mat)
    requires n >= 1 && Factors(m, p, a, n) && Tame(m, n - 1, n) && m[n - 1][n - 1] == 0.0
    ensures !IsInverse(inv, AsMat(a), n)
  {
    TameRegular(m, n);
    assert forall i | 0 <= i < n - 1 :: m[i][i] != 0.0;
    var x := NullVector(m, n, 0);
    NullSolves(m, p, a, n, x);
    LastEntry(x, n);
    if IsInverse(inv, AsMat(a), n) {
      TakenBack(a, inv, AsVec(x), n);
    }
  }

  lemma TakenBack(a: Grid, inv: Mat, x: Vec, n: nat)
    requires n >= 1 && IsInverse(inv, AsMat(a), n) && Solves(a, x, Zero, n)
    ensures x(n - 1) == 0.0
  {
    var r := n - 1;
    var image := TimesVec(n, AsMat(a), x);
    TimesAssociates(n, inv, AsMat(a), x, r);
    TimesVecSame(n, Times(n, inv, AsMat(a)), Identity, x, x);
    IdentityTimes(n, x, r);
    SumZero(n, Terms(inv, image, r));
  }
}
