/** The naive and the tiled matrix multiplication of benchmarks/matmul.c and benchmarks/matmul_tiled.c. */
module MatrixMultiply {
  import opened Wrappers

  /** Any addition and multiplication: no law is asked of them. */
  datatype Arithmetic<!T> = Arithmetic(zero: T, add: (T, T) -> T, mul: (T, T) -> T)

  const TILE_SIZE := 32

  lemma ProductLe(x: nat, y: nat, n: nat)
    requires x <= y
    ensures x * n <= y * n
  {
    assert (y - x) * n >= 0;
    assert y * n == x * n + (y - x) * n;
  }

  /** Row-major position of an entry. */
  function At(n: nat, i: nat, j: nat): (k: nat)
    requires i < n && j < n
    ensures k < n * n
  {
    NextRow(i, n, n);
    i * n + j
  }

  lemma AtIsInjective(n: nat, i: nat, j: nat, p: nat, q: nat)
    requires i < n && j < n && p < n && q < n && At(n, i, j) == At(n, p, q)
    ensures i == p && j == q
  {
    hide At;
    if i < p {
      RowsApart(n, i, j, p, q);
    } else if p < i {
      RowsApart(n, p, q, i, j);
    } else {
      SameRow(n, i, j, q);
    }
  }

  lemma RowsApart(n: nat, i: nat, j: nat, p: nat, q: nat)
    requires i < p < n && j < n && q < n
    ensures At(n, i, j) < At(n, p, q)
  {
    NextRow(i, p, n);
  }

  lemma NextRow(i: nat, p: nat, n: nat)
    requires i < p
    ensures i * n + n <= p * n
  {
    ProductLe(i + 1, p, n);
    assert (i + 1) * n == i * n + n;
  }

  lemma SameRow(n: nat, i: nat, j: nat, q: nat)
    requires i < n && j < n && q < n && At(n, i, j) == At(n, i, q)
    ensures j == q
  {
  }

  lemma OtherEntries(n: nat, i: nat, j: nat)
    requires i < n && j < n
    ensures forall p: nat, q: nat :: p < n && q < n && (p != i || q != j) ==> At(n, p, q) != At(n, i, j)
  {
    hide At;
    forall p: nat, q: nat | p < n && q < n && (p != i || q != j)
      ensures At(n, p, q) != At(n, i, j)
    {
      if At(n, p, q) == At(n, i, j) {
        AtIsInjective(n, p, q, i, j);
      }
    }
  }

  /** Every position belongs to an entry. */
  lemma {:induction false} AtIsOnto(n: nat, m: nat, k: nat) returns (i: nat, j: nat)
    requires k < m * n && m <= n
    ensures i < m && j < n && At(n, i, j) == k
  {
    if k >= (m - 1) * n {
      i, j := m - 1, k - (m - 1) * n;
    } else {
      i, j := AtIsOnto(n, m - 1, k);
    }
  }

  /** The products of row i and column j, added from the left, the first `k` of them. */
  function Dot<T>(o: Arithmetic<T>, n: nat, a: seq<T>, b: seq<T>, i: nat, j: nat, k: nat): T
    requires |a| == |b| == n * n && i < n && j < n && k <= n
  {
    if k == 0 then o.zero
    else o.add(Dot(o, n, a, b, i, j, k - 1), o.mul(a[At(n, i, k - 1)], b[At(n, k - 1, j)]))
  }

  /** `c` is the product of `a` and `b`, each entry added up from the left. */
  ghost predicate IsProduct<T>(o: Arithmetic<T>, n: nat, a: seq<T>, b: seq<T>, c: seq<T>) {
    && |a| == |b| == |c| == n * n
    && forall i: nat, j: nat :: i < n && j < n ==> c[At(n, i, j)] == Dot(o, n, a, b, i, j, n)
  }

  /** So there is one product only, whatever the addition: the two programs agree to the last bit. */
  lemma ProductIsUnique<T>(o: Arithmetic<T>, n: nat, a: seq<T>, b: seq<T>, c: seq<T>, d: seq<T>)
    requires IsProduct(o, n, a, b, c) && IsProduct(o, n, a, b, d)
    ensures c == d
  {
    hide Dot, At;
    forall k | 0 <= k < |c|
      ensures c[k] == d[k]
    {
      var i, j := AtIsOnto(n, n, k);
      assert c[At(n, i, j)] == d[At(n, i, j)];
    }
  }

  /** The products of a row and a column, added from the left. */
  function FoldProducts<T>(o: Arithmetic<T>, row: seq<T>, col: seq<T>): T
    requires |row| == |col|
  {
    if row == [] then o.zero
    else
      var k := |row| - 1;
      o.add(FoldProducts(o, row[..k], col[..k]), o.mul(row[k], col[k]))
  }

  lemma {:induction false} DotFolds<T>(o: Arithmetic<T>, n: nat, a: seq<T>, b: seq<T>, i: nat, j: nat, k: nat,
                                       row: seq<T>, col: seq<T>)
    requires |a| == |b| == n * n && i < n && j < n && k <= n && |row| == |col| == k
    requires forall x: nat :: x < k ==> row[x] == a[At(n, i, x)] && col[x] == b[At(n, x, j)]
    ensures Dot(o, n, a, b, i, j, k) == FoldProducts(o, row, col)
  {
    hide At;
    if k > 0 {
      DotFolds(o, n, a, b, i, j, k - 1, row[..k - 1], col[..k - 1]);
    }
  }

  /** The entry in row i and column j of a matrix, row by row. */
  predicate EntryIs<T(==)>(n: nat, m: seq<T>, i: nat, j: nat, x: T) {
    i * n + j < |m| && m[i * n + j] == x
  }

  lemma AtIsRowMajor<T>(n: nat, m: seq<T>, i: nat, j: nat, x: T)
    requires |m| == n * n && i < n && j < n
    ensures EntryIs(n, m, i, j, x) <==> m[At(n, i, j)] == x
  {
    assert At(n, i, j) == i * n + j;
  }

  /** Entry (i, j) of a product adds up, from the left, the products of the entries of row i of the first
      factor with those of column j of the second. */
  lemma EntryOfProduct<T>(o: Arithmetic<T>, n: nat, a: seq<T>, b: seq<T>, c: seq<T>, i: nat, j: nat,
                          row: seq<T>, col: seq<T>)
    requires IsProduct(o, n, a, b, c) && i < n && j < n && |row| == |col| == n
    requires forall k: nat :: k < n ==> EntryIs(n, a, i, k, row[k]) && EntryIs(n, b, k, j, col[k])
    ensures EntryIs(n, c, i, j, FoldProducts(o, row, col))
  {
    hide At, Dot, EntryIs, FoldProducts;
    forall k: nat | k < n
      ensures row[k] == a[At(n, i, k)] && col[k] == b[At(n, k, j)]
    {
      AtIsRowMajor(n, a, i, k, row[k]);
      AtIsRowMajor(n, b, k, j, col[k]);
    }
    DotFolds(o, n, a, b, i, j, n, row, col);
    AtIsRowMajor(n, c, i, j, FoldProducts(o, row, col));
  }

  // The unit matrix.

  ghost predicate HasUnit<T(!new)>(o: Arithmetic<T>, one: T) {
    && (forall x :: o.add(o.zero, x) == x && o.add(x, o.zero) == x)
    && forall x :: o.mul(one, x) == x && o.mul(x, one) == x && o.mul(o.zero, x) == o.zero && o.mul(x, o.zero) == o.zero
  }

  ghost predicate IsUnit<T>(o: Arithmetic<T>, one: T, n: nat, u: seq<T>) {
    |u| == n * n && forall i: nat, j: nat :: i < n && j < n ==> u[At(n, i, j)] == if i == j then one else o.zero
  }

  lemma {:induction false} DotFromLeft<T(!new)>(o: Arithmetic<T>, one: T, n: nat, u: seq<T>, b: seq<T>, i: nat, j: nat,
                                                k: nat)
    requires HasUnit(o, one) && IsUnit(o, one, n, u) && |b| == n * n && i < n && j < n && k <= n
    ensures Dot(o, n, u, b, i, j, k) == if i < k then b[At(n, i, j)] else o.zero
  {
    hide At;
    if k > 0 {
      DotFromLeft(o, one, n, u, b, i, j, k - 1);
      assert u[At(n, i, k - 1)] == if i == k - 1 then one else o.zero;
    }
  }

  lemma {:induction false} DotFromRight<T(!new)>(o: Arithmetic<T>, one: T, n: nat, a: seq<T>, u: seq<T>, i: nat,
                                                 j: nat, k: nat)
    requires HasUnit(o, one) && IsUnit(o, one, n, u) && |a| == n * n && i < n && j < n && k <= n
    ensures Dot(o, n, a, u, i, j, k) == if j < k then a[At(n, i, j)] else o.zero
  {
    hide At;
    if k > 0 {
      DotFromRight(o, one, n, a, u, i, j, k - 1);
      assert u[At(n, k - 1, j)] == if k - 1 == j then one else o.zero;
    }
  }

  /** The unit matrix on either side gives the other factor. */
  lemma UnitIsNeutral<T(!new)>(o: Arithmetic<T>, one: T, n: nat, u: seq<T>, m: seq<T>, c: seq<T>)
    requires HasUnit(o, one) && IsUnit(o, one, n, u)
    ensures IsProduct(o, n, u, m, c) ==> c == m
    ensures IsProduct(o, n, m, u, c) ==> c == m
  {
    hide At, Dot, HasUnit;
    if |m| == |c| == n * n {
      forall k | 0 <= k < n * n && (IsProduct(o, n, u, m, c) || IsProduct(o, n, m, u, c))
        ensures c[k] == m[k]
      {
        var i, j := AtIsOnto(n, n, k);
        DotFromLeft(o, one, n, u, m, i, j, n);
        DotFromRight(o, one, n, m, u, i, j, n);
      }
    }
  }

  /** The rows before `i`, and row `i` before column `j`, are done. */
  ghost predicate Filled<T>(o: Arithmetic<T>, n: nat, a: seq<T>, b: seq<T>, c: seq<T>, i: nat, j: nat) {
    && |a| == |b| == |c| == n * n
    && forall p: nat, q: nat :: p < n && q < n && (p < i || (p == i && q < j)) ==> Entry(o, n, a, b, c, p, q, n)
  }

  ghost predicate Entry<T>(o: Arithmetic<T>, n: nat, a: seq<T>, b: seq<T>, c: seq<T>, p: nat, q: nat, t: nat)
    requires |a| == |b| == |c| == n * n && p < n && q < n && t <= n
  {
    c[At(n, p, q)] == Dot(o, n, a, b, p, q, t)
  }

  lemma FillOne<T>(o: Arithmetic<T>, n: nat, a: seq<T>, b: seq<T>, c: seq<T>, d: seq<T>, i: nat, j: nat)
    requires Filled(o, n, a, b, c, i, j) && i < n && j < n
    requires d == c[At(n, i, j) := Dot(o, n, a, b, i, j, n)]
    ensures Filled(o, n, a, b, d, i, j + 1)
    ensures j == n - 1 ==> Filled(o, n, a, b, d, i + 1, 0)
  {
    hide Dot, At;
    OtherEntries(n, i, j);
    forall p: nat, q: nat | p < n && q < n && (p < i || (p == i && q <= j))
      ensures Entry(o, n, a, b, d, p, q, n)
    {
      assert p != i || q != j ==> Entry(o, n, a, b, c, p, q, n);
    }
  }

  lemma AllFilled<T>(o: Arithmetic<T>, n: nat, a: seq<T>, b: seq<T>, c: seq<T>)
    requires Filled(o, n, a, b, c, n, 0)
    ensures IsProduct(o, n, a, b, c)
  {
    hide Dot, At;
    forall p: nat, q: nat | p < n && q < n
      ensures c[At(n, p, q)] == Dot(o, n, a, b, p, q, n)
    {
      assert Entry(o, n, a, b, c, p, q, n);
    }
  }

  method Matmul<T>(o: Arithmetic<T>, n: nat, a: array<T>, b: array<T>, c: array<T>)
    requires a.Length == b.Length == c.Length == n * n
    requires c != a && c != b
    modifies c
    ensures IsProduct(o, n, a[..], b[..], c[..])
  {
    hide Dot, At, Entry;
    ghost var x, y := a[..], b[..];
    for i := 0 to n
      invariant a[..] == x && b[..] == y
      invariant Filled(o, n, x, y, c[..], i, 0)
    {
      for j := 0 to n
        invariant a[..] == x && b[..] == y
        invariant Filled(o, n, x, y, c[..], i, j)
        invariant j == n ==> Filled(o, n, x, y, c[..], i + 1, 0)
      {
        ghost var before := c[..];
        var sum := o.zero;
        DotNone(o, n, x, y, i, j);
        for k := 0 to n
          invariant a[..] == x && b[..] == y && c[..] == before
          invariant sum == Dot(o, n, x, y, i, j, k)
        {
          DotStep(o, n, x, y, i, j, k);
          sum := o.add(sum, o.mul(a[At(n, i, k)], b[At(n, k, j)]));
        }
        c[At(n, i, j)] := sum;
        FillOne(o, n, x, y, before, c[..], i, j);
      }
    }
    AllFilled(o, n, x, y, c[..]);
  }

  lemma DotNone<T>(o: Arithmetic<T>, n: nat, a: seq<T>, b: seq<T>, i: nat, j: nat)
    requires |a| == |b| == n * n && i < n && j < n
    ensures Dot(o, n, a, b, i, j, 0) == o.zero
  {
  }

  lemma DotStep<T>(o: Arithmetic<T>, n: nat, a: seq<T>, b: seq<T>, i: nat, j: nat, k: nat)
    requires |a| == |b| == n * n && i < n && j < n && k < n
    ensures Dot(o, n, a, b, i, j, k + 1)
            == o.add(Dot(o, n, a, b, i, j, k), o.mul(a[At(n, i, k)], b[At(n, k, j)]))
  {
  }

  // The tiled order.

  /** How many products entry (p, q) holds when the loops stand at ii, jj, kk, i and j. */
  function Terms(n: nat, ii: nat, jj: nat, kk: nat, i: nat, j: nat, p: nat, q: nat): (t: nat)
    ensures t <= n
  {
    if p < ii then n
    else if p >= Min(ii + TILE_SIZE, n) then 0
    else if q < jj then n
    else if q >= Min(jj + TILE_SIZE, n) then 0
    else if p < i || (p == i && q < j) then Min(kk + TILE_SIZE, n)
    else Min(kk, n)
  }

  ghost predicate Standing<T>(o: Arithmetic<T>, n: nat, a: seq<T>, b: seq<T>, c: seq<T>,
                              ii: nat, jj: nat, kk: nat, i: nat, j: nat) {
    && |a| == |b| == |c| == n * n
    && forall p: nat, q: nat :: p < n && q < n ==> Entry(o, n, a, b, c, p, q, Terms(n, ii, jj, kk, i, j, p, q))
  }

  lemma Moves<T>(o: Arithmetic<T>, n: nat, a: seq<T>, b: seq<T>, c: seq<T>,
                 ii: nat, jj: nat, kk: nat, i: nat, j: nat, ii': nat, jj': nat, kk': nat, i': nat, j': nat)
    requires Standing(o, n, a, b, c, ii, jj, kk, i, j)
    requires forall p: nat, q: nat :: p < n && q < n ==>
               Terms(n, ii, jj, kk, i, j, p, q) == Terms(n, ii', jj', kk', i', j', p, q)
    ensures Standing(o, n, a, b, c, ii', jj', kk', i', j')
  {
    hide Entry, Terms;
  }

  /** The end of a loop is where the next round of the loop around it begins. */
  lemma LoopsHandOver(n: nat, ii: nat, jj: nat, kk: nat, i: nat, p: nat, q: nat)
    requires p < n && q < n
    ensures Terms(n, ii, jj, kk, i, Min(jj + TILE_SIZE, n), p, q) == Terms(n, ii, jj, kk, i + 1, jj, p, q)
    ensures Terms(n, ii, jj, kk, Min(ii + TILE_SIZE, n), jj, p, q) == Terms(n, ii, jj, kk + TILE_SIZE, ii, jj, p, q)
    ensures kk >= n ==> Terms(n, ii, jj, kk, ii, jj, p, q) == Terms(n, ii, jj + TILE_SIZE, 0, ii, jj + TILE_SIZE, p, q)
    ensures jj >= n ==> Terms(n, ii, jj, 0, ii, jj, p, q) == Terms(n, ii + TILE_SIZE, 0, 0, ii + TILE_SIZE, 0, p, q)
    ensures Terms(n, 0, 0, 0, 0, 0, p, q) == 0
    ensures ii >= n ==> Terms(n, ii, 0, 0, ii, 0, p, q) == n
  {
  }

  /** Adding a tile's worth of products to one entry moves the loops on by one column. */
  lemma EntryAdvances<T>(o: Arithmetic<T>, n: nat, a: seq<T>, b: seq<T>, c: seq<T>, d: seq<T>,
                         ii: nat, jj: nat, kk: nat, i: nat, j: nat)
    requires Standing(o, n, a, b, c, ii, jj, kk, i, j) && |d| == |c|
    requires ii <= i < Min(ii + TILE_SIZE, n) && jj <= j < Min(jj + TILE_SIZE, n)
    requires d == c[At(n, i, j) := Dot(o, n, a, b, i, j, Min(kk + TILE_SIZE, n))]
    ensures Standing(o, n, a, b, d, ii, jj, kk, i, j + 1)
  {
    hide Dot, At;
    OtherEntries(n, i, j);
    var j' := j + 1;
    forall p: nat, q: nat | p < n && q < n
      ensures Entry(o, n, a, b, d, p, q, Terms(n, ii, jj, kk, i, j', p, q))
    {
      assert Entry(o, n, a, b, c, p, q, Terms(n, ii, jj, kk, i, j, p, q));
    }
  }

  method MatmulTiled<T>(o: Arithmetic<T>, n: nat, a: array<T>, b: array<T>, c: array<T>)
    requires a.Length == b.Length == c.Length == n * n
    requires c != a && c != b
    modifies c
    ensures IsProduct(o, n, a[..], b[..], c[..])
  {
    hide Dot, At, Standing, Terms, Entry;
    ghost var x, y := a[..], b[..];
    for i := 0 to n * n
      invariant forall k :: 0 <= k < i ==> c[k] == o.zero
    {
      c[i] := o.zero;
    }
    Starts(o, n, x, y, c[..]);
    var ii := 0;
    while ii < n
      invariant a[..] == x && b[..] == y
      invariant Standing(o, n, x, y, c[..], ii, 0, 0, ii, 0)
    {
      var jj := 0;
      while jj < n
        invariant a[..] == x && b[..] == y
        invariant Standing(o, n, x, y, c[..], ii, jj, 0, ii, jj)
      {
        var kk := 0;
        while kk < n
          invariant a[..] == x && b[..] == y
          invariant Standing(o, n, x, y, c[..], ii, jj, kk, ii, jj)
        {
          MultiplyTile(o, n, a, b, c, ii, jj, kk);
          kk := kk + TILE_SIZE;
        }
        forall p: nat, q: nat | p < n && q < n
          ensures Terms(n, ii, jj, kk, ii, jj, p, q) == Terms(n, ii, jj + TILE_SIZE, 0, ii, jj + TILE_SIZE, p, q)
        {
          LoopsHandOver(n, ii, jj, kk, ii, p, q);
        }
        Moves(o, n, x, y, c[..], ii, jj, kk, ii, jj, ii, jj + TILE_SIZE, 0, ii, jj + TILE_SIZE);
        jj := jj + TILE_SIZE;
      }
      forall p: nat, q: nat | p < n && q < n
        ensures Terms(n, ii, jj, 0, ii, jj, p, q) == Terms(n, ii + TILE_SIZE, 0, 0, ii + TILE_SIZE, 0, p, q)
      {
        LoopsHandOver(n, ii, jj, 0, ii, p, q);
      }
      Moves(o, n, x, y, c[..], ii, jj, 0, ii, jj, ii + TILE_SIZE, 0, 0, ii + TILE_SIZE, 0);
      ii := ii + TILE_SIZE;
    }
    Ends(o, n, x, y, c[..], ii);
  }

  lemma Starts<T>(o: Arithmetic<T>, n: nat, a: seq<T>, b: seq<T>, c: seq<T>)
    requires |a| == |b| == |c| == n * n && forall k :: 0 <= k < |c| ==> c[k] == o.zero
    ensures Standing(o, n, a, b, c, 0, 0, 0, 0, 0)
  {
    hide At, Terms;
    forall p: nat, q: nat | p < n && q < n
      ensures Entry(o, n, a, b, c, p, q, Terms(n, 0, 0, 0, 0, 0, p, q))
    {
      LoopsHandOver(n, 0, 0, 0, 0, p, q);
    }
  }

  lemma Ends<T>(o: Arithmetic<T>, n: nat, a: seq<T>, b: seq<T>, c: seq<T>, ii: nat)
    requires Standing(o, n, a, b, c, ii, 0, 0, ii, 0) && ii >= n
    ensures IsProduct(o, n, a, b, c)
  {
    hide At, Terms, Dot;
    forall p: nat, q: nat | p < n && q < n
      ensures c[At(n, p, q)] == Dot(o, n, a, b, p, q, n)
    {
      LoopsHandOver(n, ii, 0, 0, ii, p, q);
      assert Entry(o, n, a, b, c, p, q, Terms(n, ii, 0, 0, ii, 0, p, q));
    }
  }

  /** The three inner loops: one tile of `c` takes in one tile of products. */
  method MultiplyTile<T>(o: Arithmetic<T>, n: nat, a: array<T>, b: array<T>, c: array<T>, ii: nat, jj: nat, kk: nat)
    requires a.Length == b.Length == c.Length == n * n
    requires c != a && c != b
    requires ii < n && jj < n && kk < n
    requires Standing(o, n, a[..], b[..], c[..], ii, jj, kk, ii, jj)
    modifies c
    ensures Standing(o, n, a[..], b[..], c[..], ii, jj, kk + TILE_SIZE, ii, jj)
  {
    hide Dot, At, Standing, Terms, Entry;
    ghost var x, y := a[..], b[..];
    var iMax := Min(ii + TILE_SIZE, n);
    var jMax := Min(jj + TILE_SIZE, n);
    var kMax := Min(kk + TILE_SIZE, n);
    for i := ii to iMax
      invariant a[..] == x && b[..] == y
      invariant Standing(o, n, x, y, c[..], ii, jj, kk, i, jj)
    {
      for j := jj to jMax
        invariant a[..] == x && b[..] == y
        invariant Standing(o, n, x, y, c[..], ii, jj, kk, i, j)
      {
        var sum := c[At(n, i, j)];
        NextEntry(o, n, x, y, c[..], ii, jj, kk, i, j);
        ghost var before := c[..];
        for k := kk to kMax
          invariant a[..] == x && b[..] == y && c[..] == before
          invariant sum == Dot(o, n, x, y, i, j, k)
        {
          DotStep(o, n, x, y, i, j, k);
          sum := o.add(sum, o.mul(a[At(n, i, k)], b[At(n, k, j)]));
        }
        c[At(n, i, j)] := sum;
        EntryAdvances(o, n, x, y, before, c[..], ii, jj, kk, i, j);
      }
      forall p: nat, q: nat | p < n && q < n
        ensures Terms(n, ii, jj, kk, i, jMax, p, q) == Terms(n, ii, jj, kk, i + 1, jj, p, q)
      {
        LoopsHandOver(n, ii, jj, kk, i, p, q);
      }
      Moves(o, n, x, y, c[..], ii, jj, kk, i, jMax, ii, jj, kk, i + 1, jj);
    }
    forall p: nat, q: nat | p < n && q < n
      ensures Terms(n, ii, jj, kk, iMax, jj, p, q) == Terms(n, ii, jj, kk + TILE_SIZE, ii, jj, p, q)
    {
      LoopsHandOver(n, ii, jj, kk, iMax, p, q);
    }
    Moves(o, n, x, y, c[..], ii, jj, kk, iMax, jj, ii, jj, kk + TILE_SIZE, ii, jj);
  }

  /** The entry the loops come to holds the products before the tile. */
  lemma NextEntry<T>(o: Arithmetic<T>, n: nat, a: seq<T>, b: seq<T>, c: seq<T>,
                     ii: nat, jj: nat, kk: nat, i: nat, j: nat)
    requires Standing(o, n, a, b, c, ii, jj, kk, i, j) && kk < n
    requires ii <= i < Min(ii + TILE_SIZE, n) && jj <= j < Min(jj + TILE_SIZE, n)
    ensures c[At(n, i, j)] == Dot(o, n, a, b, i, j, kk)
  {
    hide At, Dot;
    assert Entry(o, n, a, b, c, i, j, Terms(n, ii, jj, kk, i, j, i, j));
  }
}
