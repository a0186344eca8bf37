/** LUP decomposition of a matrix held in one array (lupdcmp, HotSpot/RCutil.c), step by step as
    functions on values: what the array means after k columns, and why each step keeps it. */
module LupFactors {
  import opened Numbers
  import opened LinearAlgebra

  type Grid = seq<seq<real>>

  ghost predicate Square(m: Grid, n: nat) {
    |m| == n && forall i | 0 <= i < n :: |m[i]| == n
  }

  function AsMat(m: Grid): Mat {
    (i, j) => if 0 <= i < |m| && 0 <= j < |m[i]| then m[i][j] else 0.0
  }

  /** The lower factor: the multipliers below the diagonal, ones on it. */
  function Lower(m: Grid): Mat {
    (i, j) => if i == j then 1.0 else if j < i then AsMat(m)(i, j) else 0.0
  }

  /** The upper factor: the diagonal and what is above it. */
  function Upper(m: Grid): Mat {
    (i, j) => if i <= j then AsMat(m)(i, j) else 0.0
  }

  // ----- permutations -----

  ghost predicate IsPermutation(p: seq<int>, n: nat) {
    |p| == n && (forall i | 0 <= i < n :: 0 <= p[i] < n) && forall i, j | 0 <= i < j < n :: p[i] != p[j]
  }

  function Swapped<T>(s: seq<T>, k: nat, q: nat): (r: seq<T>)
    requires k < |s| && q < |s|
    ensures |r| == |s|
    ensures forall i | 0 <= i < |s| :: r[i] == if i == k then s[q] else if i == q then s[k] else s[i]
  {
    s[k := s[q]][q := s[k]]
  }

  // ----- what the array means -----

  function Least(a: int, b: int): int {
    if a <= b then a else b
  }

  /** The entry of the original matrix that the array stands for, after k columns: the part that
      earlier steps have subtracted, and what is left in the array; below the diagonal of a
      finished column a multiplier is left, which stands for itself times the pivot. */
  function Meaning(m: Grid, k: nat, i: nat, j: nat): real {
    var s := Least(Least(i, j), k);
    Sum(s, ProductTerms(AsMat(m), AsMat(m), i, j)) +
    (if j < i && j < k then AsMat(m)(i, j) * AsMat(m)(j, j) else AsMat(m)(i, j))
  }

  /** The array stands for the rows of a in the order p. */
  ghost predicate Stands(m: Grid, k: nat, a: Grid, p: seq<int>, n: nat) {
    Square(m, n) && Square(a, n) && IsPermutation(p, n) &&
    forall i, j | 0 <= i < n && 0 <= j < n :: a[p[i]][j] == Meaning(m, k, i, j)
  }

  /** Multipliers of the first k columns are at most one, and their pivots not too small. */
  ghost predicate Tame(m: Grid, k: nat, n: nat)
    requires Square(m, n)
  {
    (forall i, j | 0 <= j < k && j < i < n :: Abs(m[i][j]) <= 1.0) &&
    (forall j | 0 <= j < k && j < n :: Abs(m[j][j]) >= DELTA)
  }

  lemma StandsAtFirst(a: Grid, p: seq<int>, n: nat)
    requires Square(a, n) && |p| == n && forall i | 0 <= i < n :: p[i] == i
    ensures Stands(a, 0, a, p, n)
  {
  }

  /** Two rows that are not yet used as pivots may change places, with their entries of p. */
  lemma SwapStands(m: Grid, k: nat, q: nat, a: Grid, p: seq<int>, n: nat)
    requires Stands(m, k, a, p, n) && k <= q < n
    ensures Stands(Swapped(m, k, q), k, a, Swapped(p, k, q), n)
  {
    var m', p' := Swapped(m, k, q), Swapped(p, k, q);
    forall i, j | 0 <= i < n && 0 <= j < n
      ensures a[p'[i]][j] == Meaning(m', k, i, j)
    {
      var was := if i == k then q else if i == q then k else i;
      SwapMeaning(m, k, q, i, was, j, n);
    }
  }

  lemma SwapMeaning(m: Grid, k: nat, q: nat, i: nat, was: nat, j: nat, n: nat)
    requires Square(m, n) && k <= q < n && i < n && j < n
    requires was == if i == k then q else if i == q then k else i
    ensures Meaning(Swapped(m, k, q), k, i, j) == Meaning(m, k, was, j)
  {
    var m' := Swapped(m, k, q);
    forall t | 0 <= t < n
      ensures AsMat(m')(i, t) == AsMat(m)(was, t) && (t < k ==> AsMat(m')(t, j) == AsMat(m)(t, j))
    {
      assert m'[i] == m[was];
    }
    SameMeaning(m, m', k, i, was, j);
  }

  /** Rows that agree mean the same, wherever they are; rows from k on are all alike. */
  lemma SameMeaning(m: Grid, m': Grid, k: nat, i: nat, was: nat, j: nat)
    requires i == was || (i >= k && was >= k)
    requires forall t | 0 <= t <= j || 0 <= t < k :: AsMat(m')(i, t) == AsMat(m)(was, t)
    requires forall t | 0 <= t < k :: AsMat(m')(t, j) == AsMat(m)(t, j)
    ensures Meaning(m', k, i, j) == Meaning(m, k, was, j)
  {
    hide AsMat;
    var s := Least(Least(i, j), k);
    SumSame(s, ProductTerms(AsMat(m'), AsMat(m'), i, j), ProductTerms(AsMat(m), AsMat(m), was, j));
  }

  lemma SwapTame(m: Grid, k: nat, q: nat, n: nat)
    requires Square(m, n) && Tame(m, k, n) && k <= q < n
    ensures Tame(Swapped(m, k, q), k, n)
  {
  }

  /** One row less its multiple of the pivot row; the multiple is left where it made a zero. */
  function Reduced(row: seq<real>, pivot: seq<real>, k: nat): (r: seq<real>)
    requires k < |row| == |pivot| && pivot[k] != 0.0
    ensures |r| == |row|
    ensures forall j | 0 <= j < |row| ::
              r[j] == if j < k then row[j] else if j == k then row[k] / pivot[k]
                      else row[j] - row[k] / pivot[k] * pivot[j]
  {
    seq(|row|, j requires 0 <= j < |row| =>
      if j < k then row[j] else if j == k then row[k] / pivot[k] else row[j] - row[k] / pivot[k] * pivot[j])
  }

  /** All the rows below the pivot reduced. */
  function ReducedBelow(m: Grid, k: nat): (r: Grid)
    requires Square(m, |m|) && k < |m| && m[k][k] != 0.0
    ensures |r| == |m|
    ensures forall i | 0 <= i < |m| :: r[i] == if i <= k then m[i] else Reduced(m[i], m[k], k)
  {
    seq(|m|, i requires 0 <= i < |m| => if i <= k then m[i] else Reduced(m[i], m[k], k))
  }

  /** A reduction moves one more column to the finished ones and does not change the meaning. */
  lemma ReduceStands(m: Grid, k: nat, a: Grid, p: seq<int>, n: nat)
    requires Stands(m, k, a, p, n) && k < n && m[k][k] != 0.0
    ensures Stands(ReducedBelow(m, k), k + 1, a, p, n)
  {
    forall i, j | 0 <= i < n && 0 <= j < n
      ensures Meaning(ReducedBelow(m, k), k + 1, i, j) == Meaning(m, k, i, j)
    {
      ReduceMeaning(m, k, i, j, n);
    }
  }

  lemma ReduceMeaning(m: Grid, k: nat, i: nat, j: nat, n: nat)
    requires Square(m, n) && k < n && m[k][k] != 0.0 && i < n && j < n
    ensures Meaning(ReducedBelow(m, k), k + 1, i, j) == Meaning(m, k, i, j)
  {
    hide Sum, ProductTerms, ReducedBelow, AsMat;
    ReduceTerms(m, k, i, j, n);
    if i > k && j >= k {
      ReduceEntry(m, k, i, j, n);
      if j > k {
        NextTerm(k, ProductTerms(AsMat(ReducedBelow(m, k)), AsMat(ReducedBelow(m, k)), i, j));
      }
    } else {
      KeptEntry(m, k, i, j, n);
      if j < k {
        KeptEntry(m, k, j, j, n);
      }
    }
  }

  lemma NextTerm(k: nat, terms: Vec)
    ensures Sum(k + 1, terms) == Sum(k, terms) + terms(k)
  {
  }

  /** The terms left of the pivot's column are not touched. */
  lemma ReduceTerms(m: Grid, k: nat, i: nat, j: nat, n: nat)
    requires Square(m, n) && k < n && m[k][k] != 0.0 && i < n && j < n
    ensures var s := Least(Least(i, j), k);
            Sum(s, ProductTerms(AsMat(ReducedBelow(m, k)), AsMat(ReducedBelow(m, k)), i, j)) ==
            Sum(s, ProductTerms(AsMat(m), AsMat(m), i, j))
  {
    hide Sum, Reduced;
    var m' := ReducedBelow(m, k);
    SumSame(Least(Least(i, j), k), ProductTerms(AsMat(m'), AsMat(m'), i, j), ProductTerms(AsMat(m), AsMat(m), i, j));
  }

  lemma KeptEntry(m: Grid, k: nat, i: nat, j: nat, n: nat)
    requires Square(m, n) && k < n && m[k][k] != 0.0 && i < n && j < n && (i <= k || j < k)
    ensures AsMat(ReducedBelow(m, k))(i, j) == AsMat(m)(i, j)
  {
  }

  /** What the reduction does at and to the right of the pivot's column. */
  lemma ReduceEntry(m: Grid, k: nat, i: nat, j: nat, n: nat)
    requires Square(m, n) && k < i < n && m[k][k] != 0.0 && k <= j < n
    ensures var m' := AsMat(ReducedBelow(m, k));
            if j == k then m'(i, k) * m'(k, k) == AsMat(m)(i, k)
            else ProductTerms(m', m', i, j)(k) + m'(i, j) == AsMat(m)(i, j)
  {
    assert ReducedBelow(m, k)[i] == Reduced(m[i], m[k], k);
    QuotientTimes(m[i][k], m[k][k]);
  }

  lemma QuotientTimes(a: real, b: real)
    requires b != 0.0
    ensures a / b * b == a
  {
  }

  lemma ReduceTame(m: Grid, k: nat, n: nat)
    requires Square(m, n) && Tame(m, k, n) && k < n && Abs(m[k][k]) >= DELTA
    requires forall i | k <= i < n :: Abs(m[i][k]) <= Abs(m[k][k])
    ensures Tame(ReducedBelow(m, k), k + 1, n)
  {
    var m' := ReducedBelow(m, k);
    forall i, j | 0 <= j < k + 1 && j < i < n
      ensures Abs(m'[i][j]) <= 1.0
    {
      if j == k {
        QuotientAtMostOne(m[i][k], m[k][k]);
      }
    }
  }

  lemma QuotientAtMostOne(a: real, b: real)
    requires b != 0.0 && Abs(a) <= Abs(b)
    ensures Abs(a / b) <= 1.0
  {
    var c := a / b;
    assert c * b == a;
    FactorAtMostOne(c, b);
  }

  lemma FactorAtMostOne(c: real, b: real)
    requires b != 0.0 && Abs(c * b) <= Abs(b)
    ensures Abs(c) <= 1.0
  {
    Excess(c, b);
    Excess(-c, b);
    assert -c * b == -(c * b);
  }

  /** A factor of more than one would make the product exceed the other factor. */
  lemma Excess(x: real, b: real)
    ensures x > 1.0 && b > 0.0 ==> x * b > b
    ensures x > 1.0 && b < 0.0 ==> x * b < b
  {
    var d := (x - 1.0) * b;
    assert d == x * b - b;
    assert x > 1.0 && b > 0.0 ==> d > 0.0;
    assert x > 1.0 && b < 0.0 ==> d < 0.0;
  }

  // ----- the finished factors -----

  /** p is a permutation, and the product of the two factors is a with its rows in the order p. */
  ghost predicate Factors(m: Grid, p: seq<int>, a: Grid, n: nat) {
    Square(m, n) && Square(a, n) && IsPermutation(p, n) &&
    forall i, j | 0 <= i < n && 0 <= j < n :: Times(n, Lower(m), Upper(m))(i, j) == a[p[i]][j]
  }

  /** After all columns but the last, nothing is left to do. */
  lemma StandsFactors(m: Grid, a: Grid, p: seq<int>, n: nat)
    requires n >= 1 && Stands(m, n - 1, a, p, n)
    ensures Factors(m, p, a, n)
  {
    forall i, j | 0 <= i < n && 0 <= j < n
      ensures Times(n, Lower(m), Upper(m))(i, j) == Meaning(m, n - 1, i, j)
    {
      ProductMeaning(m, i, j, n);
    }
  }

  lemma ProductMeaning(m: Grid, i: nat, j: nat, n: nat)
    requires Square(m, n) && i < n && j < n
    ensures Times(n, Lower(m), Upper(m))(i, j) == Meaning(m, n - 1, i, j)
  {
    hide AsMat;
    var s := Least(i, j);
    var terms := ProductTerms(Lower(m), Upper(m), i, j);
    SumCut(s + 1, n, terms);
    SumSame(s, terms, ProductTerms(AsMat(m), AsMat(m), i, j));
    assert terms(s) == Lower(m)(i, s) * Upper(m)(s, j);
  }
}
