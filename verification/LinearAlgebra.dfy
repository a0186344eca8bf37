/** Finite sums, and matrices and vectors as functions of their indices: what the proofs about the
    solver (HotSpot/RCutil.c) and the thermal networks need of linear algebra. */
module LinearAlgebra {
  type Vec = int -> real
  type Mat = (int, int) -> real

  function Sum(n: nat, f: Vec): real {
    if n == 0 then 0.0 else Sum(n - 1, f) + f(n - 1)
  }

  lemma {:induction false} SumSame(n: nat, f: Vec, g: Vec)
    requires forall i | 0 <= i < n :: f(i) == g(i)
    ensures Sum(n, f) == Sum(n, g)
  {
    if n > 0 {
      SumSame(n - 1, f, g);
    }
  }

  lemma {:induction false} SumPlus(n: nat, f: Vec, g: Vec, h: Vec)
    requires forall i | 0 <= i < n :: h(i) == f(i) + g(i)
    ensures Sum(n, h) == Sum(n, f) + Sum(n, g)
  {
    if n > 0 {
      SumPlus(n - 1, f, g, h);
    }
  }

  lemma {:induction false} SumTimes(n: nat, c: real, f: Vec, h: Vec)
    requires forall i | 0 <= i < n :: h(i) == c * f(i)
    ensures Sum(n, h) == c * Sum(n, f)
  {
    if n > 0 {
      SumTimes(n - 1, c, f, h);
    }
  }

  lemma {:induction false} SumZero(n: nat, f: Vec)
    requires forall i | 0 <= i < n :: f(i) == 0.0
    ensures Sum(n, f) == 0.0
  {
    if n > 0 {
      SumZero(n - 1, f);
    }
  }

  /** Terms after the first m that vanish may be left out. */
  lemma {:induction false} SumCut(m: nat, n: nat, f: Vec)
    requires m <= n && forall i | m <= i < n :: f(i) == 0.0
    ensures Sum(n, f) == Sum(m, f)
  {
    if m < n {
      SumCut(m, n - 1, f);
    }
  }

  /** One term apart from the others. */
  lemma {:induction false} SumApart(n: nat, k: nat, f: Vec, others: Vec)
    requires k < n && others(k) == 0.0 && forall i | 0 <= i < n && i != k :: others(i) == f(i)
    ensures Sum(n, f) == Sum(n, others) + f(k)
  {
    if k == n - 1 {
      SumSame(n - 1, f, others);
    } else {
      SumApart(n - 1, k, f, others);
    }
  }

  /** Terms of one sign that sum to nothing are nothing. */
  lemma {:induction false} SumOfNonPositive(n: nat, f: Vec)
    requires forall i | 0 <= i < n :: f(i) <= 0.0
    ensures Sum(n, f) <= 0.0
    ensures Sum(n, f) >= 0.0 ==> forall i | 0 <= i < n :: f(i) == 0.0
  {
    if n > 0 {
      SumOfNonPositive(n - 1, f);
    }
  }

  /** A sum from the other end. */
  lemma {:induction false} SumReversed(n: nat, f: Vec, g: Vec, m: nat)
    requires m <= n && forall i | 0 <= i < n :: g(i) == f(n - 1 - i)
    ensures Sum(m, g) == Sum(n, f) - Sum(n - m, f)
  {
    if m > 0 {
      SumReversed(n, f, g, m - 1);
    }
  }

  // ----- matrices -----

  function RowOf(a: Mat, i: int): Vec {
    j => a(i, j)
  }

  function ColumnOf(a: Mat, j: int): Vec {
    i => a(i, j)
  }

  function RowSums(m: nat, n: nat, a: Mat): Vec {
    i => Sum(n, RowOf(a, i))
  }

  function ColumnSums(m: nat, n: nat, a: Mat): Vec {
    j => Sum(m, ColumnOf(a, j))
  }

  /** Summing by rows or by columns. */
  lemma {:induction false} SumExchange(m: nat, n: nat, a: Mat)
    ensures Sum(m, RowSums(m, n, a)) == Sum(n, ColumnSums(m, n, a))
    decreases m
  {
    if m == 0 {
      SumZero(n, ColumnSums(0, n, a));
    } else {
      SumExchange(m - 1, n, a);
      SumSame(m - 1, RowSums(m, n, a), RowSums(m - 1, n, a));
      SumPlus(n, ColumnSums(m - 1, n, a), RowOf(a, m - 1), ColumnSums(m, n, a));
    }
  }

  function TotalSum(m: nat, n: nat, a: Mat): real {
    Sum(m, RowSums(m, n, a))
  }

  /** A vector with every entry multiplied. */
  function Multiple(k: real, f: Vec): Vec {
    i => k * f(i)
  }

  lemma SumPlusTimes(n: nat, f: Vec, g: Vec, k: real, h: Vec)
    requires forall i | 0 <= i < n :: h(i) == f(i) + Multiple(k, g)(i)
    ensures Sum(n, h) == Sum(n, f) + k * Sum(n, g)
  {
    SumTimes(n, k, g, Multiple(k, g));
    SumPlus(n, f, Multiple(k, g), h);
  }

  lemma TotalPlusTimes(m: nat, n: nat, a: Mat, b: Mat, k: real, c: Mat)
    requires forall i, j | 0 <= i < m && 0 <= j < n :: c(i, j) == a(i, j) + k * b(i, j)
    ensures TotalSum(m, n, c) == TotalSum(m, n, a) + k * TotalSum(m, n, b)
  {
    hide Sum;
    forall i | 0 <= i < m
      ensures RowSums(m, n, c)(i) == RowSums(m, n, a)(i) + Multiple(k, RowSums(m, n, b))(i)
    {
      forall j | 0 <= j < n
        ensures RowOf(c, i)(j) == RowOf(a, i)(j) + Multiple(k, RowOf(b, i))(j)
      {
        assert c(i, j) == a(i, j) + k * b(i, j);
      }
      SumPlusTimes(n, RowOf(a, i), RowOf(b, i), k, RowOf(c, i));
    }
    SumPlusTimes(m, RowSums(m, n, a), RowSums(m, n, b), k, RowSums(m, n, c));
  }

  lemma TotalSame(m: nat, n: nat, a: Mat, b: Mat)
    requires forall i, j | 0 <= i < m && 0 <= j < n :: a(i, j) == b(i, j)
    ensures TotalSum(m, n, a) == TotalSum(m, n, b)
  {
    forall i | 0 <= i < m
      ensures RowSums(m, n, a)(i) == RowSums(m, n, b)(i)
    {
      SumSame(n, RowOf(a, i), RowOf(b, i));
    }
    SumSame(m, RowSums(m, n, a), RowSums(m, n, b));
  }

  /** The terms of a row of a matrix times a vector. */
  function Terms(a: Mat, x: Vec, i: int): Vec {
    j => a(i, j) * x(j)
  }

  function TimesVec(n: nat, a: Mat, x: Vec): Vec {
    i => Sum(n, Terms(a, x, i))
  }

  function ProductTerms(a: Mat, b: Mat, i: int, j: int): Vec {
    t => a(i, t) * b(t, j)
  }

  function Times(n: nat, a: Mat, b: Mat): Mat {
    (i, j) => Sum(n, ProductTerms(a, b, i, j))
  }

  /** (AB)x is A(Bx). */
  lemma TimesAssociates(n: nat, a: Mat, b: Mat, x: Vec, i: int)
    ensures TimesVec(n, Times(n, a, b), x)(i) == TimesVec(n, a, TimesVec(n, b, x))(i)
  {
    var terms: Mat := (t, j) => a(i, t) * b(t, j) * x(j);
    forall j: int
      ensures Sum(n, ColumnOf(terms, j)) == Terms(Times(n, a, b), x, i)(j)
    {
      SumTimes(n, x(j), ProductTerms(a, b, i, j), ColumnOf(terms, j));
    }
    forall t: int
      ensures Sum(n, RowOf(terms, t)) == Terms(a, TimesVec(n, b, x), i)(t)
    {
      SumTimes(n, a(i, t), Terms(b, x, t), RowOf(terms, t));
    }
    SumExchange(n, n, terms);
    SumSame(n, RowSums(n, n, terms), Terms(a, TimesVec(n, b, x), i));
    SumSame(n, ColumnSums(n, n, terms), Terms(Times(n, a, b), x, i));
  }

  ghost predicate SameVec(n: nat, x: Vec, y: Vec) {
    forall i | 0 <= i < n :: x(i) == y(i)
  }

  ghost predicate SameMat(n: nat, a: Mat, b: Mat) {
    forall i, j | 0 <= i < n && 0 <= j < n :: a(i, j) == b(i, j)
  }

  lemma TimesVecSame(n: nat, a: Mat, b: Mat, x: Vec, y: Vec)
    requires SameMat(n, a, b) && SameVec(n, x, y)
    ensures SameVec(n, TimesVec(n, a, x), TimesVec(n, b, y))
  {
    forall i | 0 <= i < n
      ensures TimesVec(n, a, x)(i) == TimesVec(n, b, y)(i)
    {
      SumSame(n, Terms(a, x, i), Terms(b, y, i));
    }
  }

  const Zero: Vec := _ => 0.0

  const Identity: Mat := (i, j) => if i == j then 1.0 else 0.0

  /** Multiplying by the identity, from either side. */
  lemma IdentityTimes(n: nat, x: Vec, r: nat)
    requires r < n
    ensures TimesVec(n, Identity, x)(r) == x(r)
  {
    var zero: Vec := _ => 0.0;
    SumZero(n, zero);
    SumApart(n, r, Terms(Identity, x, r), zero);
  }

  lemma TimesUnit(n: nat, a: Mat, j: nat, r: nat)
    requires j < n
    ensures TimesVec(n, a, ColumnOf(Identity, j))(r) == a(r, j)
  {
    var zero: Vec := _ => 0.0;
    SumZero(n, zero);
    SumApart(n, j, Terms(a, ColumnOf(Identity, j), r), zero);
  }

  /** A column of a product is the image of a column. */
  lemma ProductColumn(n: nat, a: Mat, b: Mat, i: int, j: int)
    ensures Times(n, a, b)(i, j) == TimesVec(n, a, ColumnOf(b, j))(i)
  {
    SumSame(n, ProductTerms(a, b, i, j), Terms(a, ColumnOf(b, j), i));
  }
}
