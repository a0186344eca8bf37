/** Sparse matrices by coordinates, as build_steady_grid_matrix makes them. */
module Coordinates {

  /** An entry: row, column, value. */
  datatype Coo = Coo(x: int, y: int, v: real)
}

/** From coordinates to compressed sparse columns (coo2csc, HotSpot/util.c). */
module SparseMatrix {
  import opened Coordinates

  /** c2c_cmp: by column, then by row. */
  predicate InOrder(a: Coo, b: Coo) {
    a.y < b.y || (a.y == b.y && a.x <= b.x)
  }

  ghost predicate Sorted(s: seq<Coo>) {
    forall i, j | 0 <= i < j < |s| :: InOrder(s[i], s[j])
  }

  /** The library's sort is modelled by one that inserts entry by entry. */
  method SortColumnMajor(s: seq<Coo>) returns (r: seq<Coo>)
    ensures Sorted(r) && multiset(r) == multiset(s)
  {
    r := [];
    for n := 0 to |s|
      invariant Sorted(r) && multiset(r) == multiset(s[..n])
    {
      assert s[..n + 1] == s[..n] + [s[n]];
      r := Insert(r, s[n]);
    }
    assert s[..|s|] == s;
  }

  method Insert(s: seq<Coo>, e: Coo) returns (r: seq<Coo>)
    requires Sorted(s)
    ensures Sorted(r) && multiset(r) == multiset(s) + multiset{e}
  {
    var k := 0;
    while k < |s| && InOrder(s[k], e)
      invariant 0 <= k <= |s| && forall i | 0 <= i < k :: InOrder(s[i], e)
    {
      k := k + 1;
    }
    r := s[..k] + [e] + s[k..];
    assert s == s[..k] + s[k..];
  }

  // ----- columns -----

  /** Column c starts at k: what is before it is in lower columns, and nothing after it is. */
  ghost predicate StartsAt(s: seq<Coo>, c: int, k: int) {
    0 <= k <= |s| && (forall i | 0 <= i < k :: s[i].y < c) && (forall i | k <= i < |s| :: s[i].y >= c)
  }

  /** A pointer that was never set. */
  const UNSET: int := -1

  function LastColumn(s: seq<Coo>): int {
    if s == [] then -1 else s[|s| - 1].y
  }

  ghost predicate InRange(s: seq<Coo>, size: nat) {
    forall i | 0 <= i < |s| :: 0 <= s[i].x < size && 0 <= s[i].y < size
  }

  /** The arrays after the copy: row indices and values in order, and the pointers up to one past
      the last column that has an entry. */
  ghost predicate Copied(s: seq<Coo>, size: nat, rowInd: seq<int>, colPtr: seq<int>, val: seq<real>) {
    |rowInd| == |s| && |val| == |s| && |colPtr| == size + 1 && -1 <= LastColumn(s) < size &&
    (forall i | 0 <= i < |s| :: rowInd[i] == s[i].x && val[i] == s[i].v) &&
    (forall c | 0 <= c <= LastColumn(s) + 1 :: StartsAt(s, c, colPtr[c])) &&
    (forall c | LastColumn(s) + 1 < c <= size :: colPtr[c] == UNSET)
  }

  /** The arrays hold the entries, sorted. */
  ghost predicate Compressed(coo: seq<Coo>, size: nat, rowInd: seq<int>, colPtr: seq<int>, val: seq<real>) {
    exists s :: Copied(s, size, rowInd, colPtr, val) && Sorted(s) && multiset(s) == multiset(coo)
  }

  /** The columns up to that of the next entry start there. */
  method AdvanceColumns(colPtr: array<int>, j: int, y: int, i: nat, ghost s: seq<Coo>, ghost size: nat)
    returns (j': int)
    requires Sorted(s) && InRange(s, size) && colPtr.Length == size + 1 && i < |s| && y == s[i].y && -1 <= j <= y
    requires (i > 0 ==> j == s[i - 1].y) && (i == 0 ==> j == -1)
    requires forall c | 0 <= c <= j :: StartsAt(s, c, colPtr[c])
    requires forall c | j < c <= size :: colPtr[c] == UNSET
    modifies colPtr
    ensures j' == y && (forall c | 0 <= c <= j' :: StartsAt(s, c, colPtr[c]))
    ensures forall c | j' < c <= size :: colPtr[c] == UNSET
  {
    j' := j;
    while j' < y
      invariant j <= j' <= y
      invariant forall c | 0 <= c <= j' :: StartsAt(s, c, colPtr[c])
      invariant forall c | j' < c <= size :: colPtr[c] == UNSET
    {
      j' := j' + 1;
      colPtr[j'] := i;
      assert StartsAt(s, j', i) by {
        forall k | 0 <= k < i
          ensures s[k].y < j'
        {
          assert k < i - 1 ==> InOrder(s[k], s[i - 1]);
        }
        forall k | i <= k < |s|
          ensures s[k].y >= j'
        {
          assert i < k ==> InOrder(s[i], s[k]);
        }
      }
    }
  }

  /** The loop over the sorted entries; the column of the last of them is returned. */
  method StoreEntries(s: seq<Coo>, size: nat, rowInd: array<int>, colPtr: array<int>, val: array<real>) returns (j: int)
    requires Sorted(s) && InRange(s, size) && rowInd.Length == val.Length == |s| && colPtr.Length == size + 1
    requires rowInd != colPtr && forall c | 0 <= c <= size :: colPtr[c] == UNSET
    modifies rowInd, colPtr, val
    ensures j == LastColumn(s) && -1 <= j < size
    ensures forall k | 0 <= k < |s| :: rowInd[k] == s[k].x && val[k] == s[k].v
    ensures (forall c | 0 <= c <= j :: StartsAt(s, c, colPtr[c])) && forall c | j < c <= size :: colPtr[c] == UNSET
  {
    hide Sorted, StartsAt;
    j := -1;
    for i := 0 to |s|
      invariant (i > 0 ==> j == s[i - 1].y) && (i == 0 ==> j == -1) && -1 <= j < size
      invariant forall k | 0 <= k < i :: rowInd[k] == s[k].x && val[k] == s[k].v
      invariant forall c | 0 <= c <= j :: StartsAt(s, c, colPtr[c])
      invariant forall c | j < c <= size :: colPtr[c] == UNSET
    {
      rowInd[i], val[i] := s[i].x, s[i].v;
      NextEntry(s, i);
      j := AdvanceColumns(colPtr, j, s[i].y, i, s, size);
    }
  }

  lemma NextEntry(s: seq<Coo>, i: nat)
    requires Sorted(s) && i < |s|
    ensures i > 0 ==> s[i - 1].y <= s[i].y
  {
    assert i > 0 ==> InOrder(s[i - 1], s[i]);
  }

  lemma NoneBeyond(s: seq<Coo>)
    requires Sorted(s)
    ensures StartsAt(s, LastColumn(s) + 1, |s|)
  {
    forall k | 0 <= k < |s|
      ensures s[k].y < LastColumn(s) + 1
    {
      assert k < |s| - 1 ==> InOrder(s[k], s[|s| - 1]);
    }
  }

  /** coo2csc. */
  method Coo2Csc(size: nat, coo: seq<Coo>) returns (rowInd: array<int>, colPtr: array<int>, val: array<real>)
    requires InRange(coo, size)
    ensures Compressed(coo, size, rowInd[..], colPtr[..], val[..])
  {
    hide InRange, Sorted, StartsAt;
    var sorted := SortColumnMajor(coo);
    PermutedInRange(coo, sorted, size);
    assert |sorted| == |multiset(sorted)| == |multiset(coo)| == |coo|;
    rowInd, val, colPtr := new int[|coo|](_ => 0), new real[|coo|](_ => 0.0), new int[size + 1](_ => UNSET);
    var j := StoreEntries(sorted, size, rowInd, colPtr, val);
    NoneBeyond(sorted);
    colPtr[j + 1] := |sorted|;
    assert Copied(sorted, size, rowInd[..], colPtr[..], val[..]);
  }

  lemma PermutedInRange(coo: seq<Coo>, s: seq<Coo>, size: nat)
    requires InRange(coo, size) && multiset(s) == multiset(coo)
    ensures InRange(s, size)
  {
    forall i | 0 <= i < |s|
      ensures 0 <= s[i].x < size && 0 <= s[i].y < size
    {
      assert s[i] in multiset(coo);
    }
  }

  // ----- reading back -----

  /** The entries of a column, as its two pointers delimit them. */
  function Column(rowInd: seq<int>, val: seq<real>, c: int, first: int, last: int): (r: seq<Coo>)
    requires 0 <= first <= last <= |rowInd| == |val|
    ensures |r| == last - first && forall k | 0 <= k < |r| :: r[k] == Coo(rowInd[first + k], c, val[first + k])
  {
    seq(last - first, k requires 0 <= k < last - first => Coo(rowInd[first + k], c, val[first + k]))
  }

  /** The pointers of the first n columns are set, in order, and within the arrays. */
  ghost predicate Pointers(colPtr: seq<int>, n: nat, nnz: nat) {
    n < |colPtr| && (forall c | 0 <= c <= n :: 0 <= colPtr[c] <= nnz) &&
    (forall c, d | 0 <= c <= d <= n :: colPtr[c] <= colPtr[d])
  }

  /** The first n columns, one after the other. */
  ghost function ReadBack(rowInd: seq<int>, colPtr: seq<int>, val: seq<real>, n: nat): seq<Coo>
    requires |rowInd| == |val| && Pointers(colPtr, n, |rowInd|)
  {
    if n == 0 then [] else ReadBack(rowInd, colPtr, val, n - 1) + Column(rowInd, val, n - 1, colPtr[n - 1], colPtr[n])
  }

  ghost function ColumnAt(s: seq<Coo>, i: int): int {
    if 0 <= i < |s| then s[i].y else 0
  }

  lemma StartsOrdered(s: seq<Coo>, c: int, d: int, k: int, l: int)
    requires StartsAt(s, c, k) && StartsAt(s, d, l) && c <= d
    ensures k <= l
  {
    assert l < k ==> ColumnAt(s, l) < c;
  }

  /** Set pointers run from zero upwards. */
  lemma PointersSet(s: seq<Coo>, size: nat, rowInd: seq<int>, colPtr: seq<int>, val: seq<real>, n: nat)
    requires InRange(s, size) && Copied(s, size, rowInd, colPtr, val) && n <= LastColumn(s) + 1
    ensures Pointers(colPtr, n, |s|) && colPtr[0] == 0 && (n == LastColumn(s) + 1 ==> colPtr[n] == |s|)
  {
    forall c, d | 0 <= c <= d <= n
      ensures colPtr[c] <= colPtr[d]
    {
      StartsOrdered(s, c, d, colPtr[c], colPtr[d]);
    }
    assert StartsAt(s, 0, colPtr[0]) && StartsAt(s, n, colPtr[n]);
    assert 0 < colPtr[0] ==> ColumnAt(s, 0) < 0;
    assert colPtr[n] < |s| ==> ColumnAt(s, |s| - 1) >= n;
  }

  /** Read back column by column, the arrays give the sorted entries. */
  lemma {:induction false} ReadsBack(s: seq<Coo>, size: nat, rowInd: seq<int>, colPtr: seq<int>, val: seq<real>, n: nat)
    requires InRange(s, size) && Copied(s, size, rowInd, colPtr, val) && n <= LastColumn(s) + 1
    ensures Pointers(colPtr, n, |s|) && ReadBack(rowInd, colPtr, val, n) == s[..colPtr[n]]
  {
    PointersSet(s, size, rowInd, colPtr, val, n);
    if n > 0 {
      ReadsBack(s, size, rowInd, colPtr, val, n - 1);
      var first, last := colPtr[n - 1], colPtr[n];
      var column := Column(rowInd, val, n - 1, first, last);
      assert StartsAt(s, n - 1, first) && StartsAt(s, n, last);
      forall k | 0 <= k < |column|
        ensures column[k] == s[first + k]
      {
        assert n - 1 <= s[first + k].y < n;
      }
      assert s[..last] == s[..first] + column;
    }
  }

  /** Whether the last column is empty can be seen from the entries that are put in. */
  ghost predicate LastFilled(coo: seq<Coo>, size: nat) {
    size == 0 || exists i :: 0 <= i < |coo| && coo[i].y == size - 1
  }

  lemma LastColumnOf(coo: seq<Coo>, s: seq<Coo>, size: nat)
    requires InRange(coo, size) && multiset(s) == multiset(coo) && Sorted(s)
    ensures LastColumn(s) == size - 1 <==> LastFilled(coo, size)
  {
    PermutedInRange(coo, s, size);
    if LastColumn(s) == size - 1 && size > 0 {
      assert s[|s| - 1] in multiset(coo);
    }
    if i :| 0 <= i < |coo| && coo[i].y == size - 1 {
      assert coo[i] in multiset(s);
      var k :| 0 <= k < |s| && s[k] == coo[i];
      assert k < |s| - 1 ==> InOrder(s[k], s[|s| - 1]);
    }
  }

  /** The round trip: if the last column has an entry, and only then, all the pointers are set; and
      then reading the columns back gives just the entries that were put in, each column sorted. */
  lemma RoundTrip(coo: seq<Coo>, size: nat, rowInd: seq<int>, colPtr: seq<int>, val: seq<real>)
    requires InRange(coo, size) && Compressed(coo, size, rowInd, colPtr, val)
    ensures |rowInd| == |val| == |coo| && |colPtr| == size + 1
    ensures (forall c | 0 <= c <= size :: colPtr[c] != UNSET) <==> LastFilled(coo, size)
    ensures LastFilled(coo, size) ==>
              Pointers(colPtr, size, |coo|) && colPtr[0] == 0 && colPtr[size] == |coo| &&
              Sorted(ReadBack(rowInd, colPtr, val, size)) &&
              multiset(ReadBack(rowInd, colPtr, val, size)) == multiset(coo)
  {
    var s :| Copied(s, size, rowInd, colPtr, val) && Sorted(s) && multiset(s) == multiset(coo);
    assert |s| == |multiset(s)| == |multiset(coo)| == |coo|;
    PermutedInRange(coo, s, size);
    LastColumnOf(coo, s, size);
    if LastColumn(s) == size - 1 {
      PointersSet(s, size, rowInd, colPtr, val, size);
      ReadsBack(s, size, rowInd, colPtr, val, size);
      assert s[..|s|] == s;
    } else {
      assert colPtr[size] == UNSET;
    }
  }

  /** An input for which a pointer stays unset: two columns, and nothing in the second one. */
  lemma EmptyLastColumn(rowInd: seq<int>, colPtr: seq<int>, val: seq<real>)
    requires Copied([Coo(0, 0, 1.0)], 2, rowInd, colPtr, val)
    ensures colPtr[2] == UNSET
  {
    assert LastColumn([Coo(0, 0, 1.0)]) == 0;
  }
}
