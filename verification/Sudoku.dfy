/** The backtracking solver of benchmarks/sudoku_solver.rs. */
module Sudoku {
  import P = Permutations

  const CELLS := 81

  type Grid = g: seq<int> | |g| == CELLS witness seq(CELLS, _ => 0)

  predicate Cell(i: int) {
    0 <= i < CELLS
  }

  function Row(i: int): int {
    i / 9
  }

  function Col(i: int): int {
    i % 9
  }

  function At(r: int, c: int): int {
    r * 9 + c
  }

  /** Cells that share a row, a column or a box. */
  predicate SameUnit(i: int, j: int) {
    Row(i) == Row(j) || Col(i) == Col(j) || (Row(i) / 3 == Row(j) / 3 && Col(i) / 3 == Col(j) / 3)
  }

  predicate Peers(i: int, j: int) {
    Cell(i) && Cell(j) && i != j && SameUnit(i, j)
  }

  lemma PeersBothWays(i: int, j: int)
    requires Peers(i, j)
    ensures Peers(j, i)
  {
    hide Row, Col;
  }

  /** Whether `n` can be put into cell `i`. */
  ghost predicate Fits(g: Grid, i: int, n: int)
    requires Cell(i)
  {
    forall j | Cell(j) && SameUnit(i, j) :: g[j] != n
  }

  /** `g` fills the empty cells of `givens`, with no filled-in digit beside its equal. */
  ghost predicate Completes(givens: Grid, g: Grid) {
    && (forall i | Cell(i) :: Keeps(givens, g, i))
    && (forall i, j | Peers(i, j) && givens[i] == 0 :: g[i] != g[j])
  }

  predicate Keeps(givens: Grid, g: Grid, i: int)
    requires Cell(i)
  {
    if givens[i] == 0 then 1 <= g[i] <= 9 else g[i] == givens[i]
  }

  /** A full grid in which every row, column and box holds each digit at most once. */
  ghost predicate Solved(g: Grid) {
    && (forall i | Cell(i) :: 1 <= g[i] <= 9)
    && (forall i, j | Peers(i, j) :: g[i] != g[j])
  }

  ghost predicate Extends(givens: Grid, g: Grid) {
    forall i | Cell(i) && givens[i] != 0 :: g[i] == givens[i]
  }

  /** Digits, with no digit beside its equal. */
  ghost predicate Consistent(givens: Grid) {
    && (forall i | Cell(i) :: 0 <= givens[i] <= 9)
    && (forall i, j | Peers(i, j) && givens[i] != 0 && givens[j] != 0 :: givens[i] != givens[j])
  }

  /** On consistent givens, completing them is extending them to a solved grid. */
  lemma CompletionsAreSolutions(givens: Grid, g: Grid)
    requires Consistent(givens)
    ensures Completes(givens, g) <==> Solved(g) && Extends(givens, g)
  {
    hide SameUnit;
    if Completes(givens, g) {
      forall i | Cell(i)
        ensures 1 <= g[i] <= 9 && (givens[i] != 0 ==> g[i] == givens[i])
      {
        assert Keeps(givens, g, i);
      }
      forall i, j | Peers(i, j)
        ensures g[i] != g[j]
      {
        PeersBothWays(i, j);
        assert Keeps(givens, g, i) && Keeps(givens, g, j);
      }
    }
  }

  /** A completion is a solved grid exactly when the givens were consistent. */
  lemma InconsistentStaysUnsolved(givens: Grid, g: Grid)
    requires Completes(givens, g)
    ensures Solved(g) <==> Consistent(givens)
  {
    hide SameUnit;
    forall i | Cell(i)
      ensures Keeps(givens, g, i)
    {
    }
    if Consistent(givens) {
      CompletionsAreSolutions(givens, g);
    }
  }

  ghost predicate Solvable(givens: Grid) {
    exists g: Grid :: Completes(givens, g)
  }

  predicate FirstDiffers(a: Grid, b: Grid, k: int)
    requires Cell(k)
  {
    (forall i | 0 <= i < k :: a[i] == b[i]) && a[k] < b[k]
  }

  /** `a` comes before `b` in lexicographic order, or is `b`. */
  ghost predicate NotAfter(a: Grid, b: Grid) {
    a == b || exists k | Cell(k) :: FirstDiffers(a, b, k)
  }

  /** The first completion in lexicographic order. */
  ghost predicate FirstCompletion(givens: Grid, g: Grid) {
    Completes(givens, g) && forall h: Grid | Completes(givens, h) :: NotAfter(g, h)
  }

  lemma FirstIsUnique(givens: Grid, g: Grid, h: Grid)
    requires FirstCompletion(givens, g) && FirstCompletion(givens, h)
    ensures g == h
  {
    assert NotAfter(g, h) && NotAfter(h, g);
  }

  // One step of the search.

  /** Filling a fitting digit into an empty cell does not lose soundness. */
  lemma StepDown(givens: Grid, i: int, n: int, g: Grid)
    requires Cell(i) && givens[i] == 0 && 1 <= n <= 9 && Fits(givens, i, n)
    requires Completes(givens[i := n], g)
    ensures Completes(givens, g) && g[i] == n
  {
    hide SameUnit;
    var next: Grid := givens[i := n];
    forall j | Cell(j)
      ensures Keeps(givens, g, j)
    {
      assert Keeps(next, g, j);
    }
    assert Keeps(next, g, i);
    forall a, b | Peers(a, b) && givens[a] == 0
      ensures g[a] != g[b]
    {
      PeersBothWays(a, b);
      assert Keeps(next, g, b);
      assert a == i && givens[b] != 0 ==> givens[b] != n;
      assert a == i && givens[b] == 0 ==> next[b] == 0 && g[b] != g[a];
      assert a != i ==> next[a] == 0;
    }
  }

  /** A completion with digit `n` in cell `i` completes the grid with `n` filled in, and `n` fits there. */
  lemma StepUp(givens: Grid, i: int, g: Grid)
    requires Cell(i) && givens[i] == 0 && Completes(givens, g)
    ensures 1 <= g[i] <= 9 && Fits(givens, i, g[i]) && Completes(givens[i := g[i]], g)
  {
    hide SameUnit;
    var next: Grid := givens[i := g[i]];
    assert Keeps(givens, g, i);
    forall j | Cell(j)
      ensures Keeps(next, g, j)
    {
      assert Keeps(givens, g, j);
    }
    forall j | Cell(j) && SameUnit(i, j)
      ensures givens[j] != g[i]
    {
      assert Keeps(givens, g, j);
      assert j != i ==> Peers(i, j);
    }
  }

  /** Digits below `n` have been tried in the first empty cell, in vain. */
  ghost predicate Tried(givens: Grid, i: int, n: int)
    requires Cell(i)
  {
    forall g: Grid | Completes(givens, g) :: g[i] >= n
  }

  lemma TriedOne(givens: Grid, i: int, n: int)
    requires Cell(i) && givens[i] == 0 && Tried(givens, i, n)
    requires Fits(givens, i, n) ==> !Solvable(givens[i := n])
    ensures Tried(givens, i, n + 1)
  {
    hide Completes, Fits;
    forall g: Grid | Completes(givens, g)
      ensures g[i] >= n + 1
    {
      StepUp(givens, i, g);
      assert g[i] >= n;
    }
  }

  lemma TriedAll(givens: Grid, i: int)
    requires Cell(i) && givens[i] == 0 && Tried(givens, i, 10)
    ensures !Solvable(givens)
  {
    forall g: Grid
      ensures !Completes(givens, g)
    {
      assert Completes(givens, g) ==> Keeps(givens, g, i);
    }
  }

  /** The first completion with the smallest digit that works is the first of all. */
  lemma FirstOfAll(givens: Grid, i: int, n: int, g: Grid)
    requires Cell(i) && givens[i] == 0 && 1 <= n <= 9 && Fits(givens, i, n)
    requires forall j | 0 <= j < i :: givens[j] != 0
    requires Tried(givens, i, n) && FirstCompletion(givens[i := n], g)
    ensures FirstCompletion(givens, g)
  {
    hide Completes, Fits;
    StepDown(givens, i, n, g);
    forall h: Grid | Completes(givens, h)
      ensures NotAfter(g, h)
    {
      StepUp(givens, i, h);
      assert h[i] >= n;
      if h[i] > n {
        SamePrefix(givens, g, h, i);
        assert FirstDiffers(g, h, i);
      }
    }
  }

  lemma SamePrefix(givens: Grid, g: Grid, h: Grid, i: int)
    requires Cell(i) && Completes(givens, g) && Completes(givens, h)
    requires forall j | 0 <= j < i :: givens[j] != 0
    ensures forall j | 0 <= j < i :: g[j] == h[j]
  {
    forall j | 0 <= j < i
      ensures g[j] == h[j]
    {
      assert Keeps(givens, g, j) && Keeps(givens, h, j);
    }
  }

  lemma FullGrid(givens: Grid)
    requires forall i | Cell(i) :: givens[i] != 0
    ensures FirstCompletion(givens, givens)
  {
    forall h: Grid | Completes(givens, h)
      ensures NotAfter(givens, h)
    {
      forall i | Cell(i)
        ensures givens[i] == h[i]
      {
        assert Keeps(givens, h, i);
      }
      assert givens == h;
    }
  }

  function Empties(g: Grid): set<int> {
    set i | 0 <= i < CELLS && g[i] == 0
  }

  // The program.

  method IsValid(b: array<int>, r: nat, c: nat, n: int) returns (valid: bool)
    requires b.Length == CELLS && r < 9 && c < 9
    ensures valid <==> Fits(b[..], r * 9 + c, n)
  {
    hide Row, Col, SameUnit, Fits;
    ghost var g: Grid := b[..];
    ghost var cell := r * 9 + c;
    for i := 0 to 9
      invariant forall k | 0 <= k < i :: g[At(r, k)] != n && g[At(k, c)] != n
    {
      if b[r * 9 + i] == n || b[i * 9 + c] == n {
        InLine(r, c, i);
        Blocked(g, cell, if b[r * 9 + i] == n then r * 9 + i else i * 9 + c, n);
        return false;
      }
    }
    var sr, sc := r / 3 * 3, c / 3 * 3;
    for i := 0 to 3
      invariant forall k, l | 0 <= k < i && 0 <= l < 3 :: g[BoxCell(sr, sc, k, l)] != n
    {
      for j := 0 to 3
        invariant forall l | 0 <= l < j :: g[BoxCell(sr, sc, i, l)] != n
      {
        if b[(sr + i) * 9 + (sc + j)] == n {
          InBox(r, c, i, j);
          Blocked(g, cell, (sr + i) * 9 + (sc + j), n);
          return false;
        }
      }
    }
    Free(g, r, c, n);
    return true;
  }

  function BoxCell(sr: nat, sc: nat, i: nat, j: nat): (k: nat)
    requires sr <= 6 && sc <= 6 && i < 3 && j < 3
    ensures k < CELLS
  {
    (sr + i) * 9 + (sc + j)
  }

  lemma Blocked(g: Grid, cell: int, j: int, n: int)
    requires Cell(cell) && Cell(j) && SameUnit(cell, j) && g[j] == n
    ensures !Fits(g, cell, n)
  {
    hide SameUnit;
  }

  lemma Split(r: nat, c: nat)
    requires r < 9 && c < 9
    ensures Cell(r * 9 + c) && Row(r * 9 + c) == r && Col(r * 9 + c) == c
  {
  }

  lemma Join(j: int)
    requires Cell(j)
    ensures 0 <= Row(j) < 9 && 0 <= Col(j) < 9 && j == Row(j) * 9 + Col(j)
  {
  }

  lemma InLine(r: nat, c: nat, i: nat)
    requires r < 9 && c < 9 && i < 9
    ensures SameUnit(r * 9 + c, r * 9 + i) && SameUnit(r * 9 + c, i * 9 + c)
  {
    hide Row, Col;
    Split(r, c);
    Split(r, i);
    Split(i, c);
  }

  lemma Thirds(x: nat, i: nat)
    requires x < 9 && i < 3
    ensures (x / 3 * 3 + i) / 3 == x / 3 && x / 3 * 3 <= 6
  {
  }

  lemma InBox(r: nat, c: nat, i: nat, j: nat)
    requires r < 9 && c < 9 && i < 3 && j < 3
    ensures r / 3 * 3 <= 6 && c / 3 * 3 <= 6
    ensures SameUnit(r * 9 + c, BoxCell(r / 3 * 3, c / 3 * 3, i, j))
  {
    hide Row, Col;
    Thirds(r, i);
    Thirds(c, j);
    Split(r, c);
    Split(r / 3 * 3 + i, c / 3 * 3 + j);
  }

  /** Nine cells of the row, nine of the column and nine of the box are all there are beside a cell. */
  lemma Free(g: Grid, r: nat, c: nat, n: int)
    requires r < 9 && c < 9
    requires forall k | 0 <= k < 9 :: g[At(r, k)] != n && g[At(k, c)] != n
    requires r / 3 * 3 <= 6 && c / 3 * 3 <= 6
    requires forall k, l | 0 <= k < 3 && 0 <= l < 3 :: g[BoxCell(r / 3 * 3, c / 3 * 3, k, l)] != n
    ensures Fits(g, r * 9 + c, n)
  {
    hide Row, Col;
    Split(r, c);
    forall j | Cell(j) && SameUnit(r * 9 + c, j)
      ensures g[j] != n
    {
      Join(j);
      var k, l := Row(j), Col(j);
      if k != r && l != c {
        Rest(r, k);
        Rest(c, l);
        assert j == BoxCell(r / 3 * 3, c / 3 * 3, k % 3, l % 3);
      } else {
        assert j == At(k, l);
      }
    }
  }

  lemma Rest(x: nat, y: nat)
    requires x / 3 == y / 3
    ensures y == x / 3 * 3 + y % 3
  {
  }

  /** Finds the first completion, or leaves the board as it was when there is none. */
  method Solve(b: array<int>) returns (solved: bool)
    requires b.Length == CELLS
    modifies b
    ensures solved <==> Solvable(old(b[..]))
    ensures solved ==> FirstCompletion(old(b[..]), b[..])
    ensures !solved ==> b[..] == old(b[..])
    decreases Empties(b[..])
  {
    hide Completes, FirstCompletion, Fits, Solvable, Tried;
    ghost var givens: Grid := b[..];
    for i := 0 to 81
      invariant b[..] == givens
      invariant forall j | 0 <= j < i :: givens[j] != 0
    {
      if b[i] == 0 {
        var r, c := i / 9, i % 9;
        assert Tried(givens, i, 1) by {
          TriedNone(givens, i);
        }
        for n := 1 to 10
          invariant b[..] == givens
          invariant Tried(givens, i, n)
        {
          var valid := IsValid(b, r, c, n);
          if valid {
            b[i] := n;
            assert b[..] == givens[i := n];
            assert Empties(givens[i := n]) < Empties(givens) by {
              assert i in Empties(givens) && i !in Empties(givens[i := n]);
            }
            var inner := Solve(b);
            if inner {
              FirstOfAll(givens, i, n, b[..]);
              Found(givens, b[..]);
              return true;
            }
            b[i] := 0;
            assert b[..] == givens;
          }
          TriedOne(givens, i, n);
        }
        TriedAll(givens, i);
        return false;
      }
    }
    FullGrid(givens);
    Found(givens, givens);
    return true;
  }

  lemma TriedNone(givens: Grid, i: int)
    requires Cell(i) && givens[i] == 0
    ensures Tried(givens, i, 1)
  {
    forall g: Grid | Completes(givens, g)
      ensures g[i] >= 1
    {
      assert Keeps(givens, g, i);
    }
  }

  lemma Found(givens: Grid, g: Grid)
    requires FirstCompletion(givens, g)
    ensures Solvable(givens)
  {
  }

  // Rows, columns and boxes, cell by cell.

  /** Nine different cells that share a unit, with the digits they hold. */
  lemma {:induction false} NineDigits(g: Grid, cells: seq<int>, n: int)
    requires Solved(g) && |cells| == 9 && (forall k :: 0 <= k < 9 ==> Cell(cells[k]))
    requires forall k, l :: 0 <= k < l < 9 ==> cells[k] != cells[l] && SameUnit(cells[k], cells[l])
    requires 1 <= n <= 9
    ensures exists k :: 0 <= k < 9 && g[cells[k]] == n
  {
    hide SameUnit;
    var p: seq<nat> := seq(9, k requires 0 <= k < 9 => g[cells[k]] - 1);
    forall k, l | 0 <= k < l < 9
      ensures p[k] != p[l]
    {
      assert Peers(cells[k], cells[l]);
    }
    P.PermutationOnto(p, 9, n - 1);
    var k :| 0 <= k < 9 && p[k] == n - 1;
    assert g[cells[k]] == n;
  }

  /** The cell at place `k` of row, column and box `u`. */
  function RowCell(u: nat, k: nat): (i: int)
    requires u < 9 && k < 9
    ensures Cell(i)
  {
    9 * u + k
  }

  function ColumnCell(u: nat, k: nat): (i: int)
    requires u < 9 && k < 9
    ensures Cell(i)
  {
    u + 9 * k
  }

  function CellOfBox(u: nat, k: nat): (i: int)
    requires u < 9 && k < 9
    ensures Cell(i)
  {
    27 * (u / 3) + 3 * (u % 3) + 9 * (k / 3) + k % 3
  }

  /** In a solved grid every digit stands in each of the nine rows, the nine columns and the nine boxes. */
  lemma EveryUnitHoldsAll(g: Grid, u: nat, n: int)
    requires Solved(g) && u < 9 && 1 <= n <= 9
    ensures exists k: nat :: k < 9 && g[RowCell(u, k)] == n
    ensures exists k: nat :: k < 9 && g[ColumnCell(u, k)] == n
    ensures exists k: nat :: k < 9 && g[CellOfBox(u, k)] == n
  {
    hide Solved, SameUnit, RowCell, ColumnCell, CellOfBox;
    var row := seq(9, k requires 0 <= k < 9 => RowCell(u, k));
    var column := seq(9, k requires 0 <= k < 9 => ColumnCell(u, k));
    var box := seq(9, k requires 0 <= k < 9 => CellOfBox(u, k));
    forall k, l | 0 <= k < l < 9
      ensures row[k] != row[l] && SameUnit(row[k], row[l])
      ensures column[k] != column[l] && SameUnit(column[k], column[l])
      ensures box[k] != box[l] && SameUnit(box[k], box[l])
    {
      InOneRow(u, k, l);
      InOneColumn(u, k, l);
      InOneBox(u, k, l);
    }
    NineDigits(g, row, n);
    NineDigits(g, column, n);
    NineDigits(g, box, n);
    var i, j, k :| 0 <= i < 9 && g[row[i]] == n && 0 <= j < 9 && g[column[j]] == n && 0 <= k < 9 && g[box[k]] == n;
    assert g[RowCell(u, i)] == n && g[ColumnCell(u, j)] == n && g[CellOfBox(u, k)] == n;
  }

  lemma InOneRow(u: nat, k: nat, l: nat)
    requires u < 9 && k < l < 9
    ensures RowCell(u, k) != RowCell(u, l) && SameUnit(RowCell(u, k), RowCell(u, l))
  {
    hide Row, Col;
    Split(u, k);
    Split(u, l);
  }

  lemma InOneColumn(u: nat, k: nat, l: nat)
    requires u < 9 && k < l < 9
    ensures ColumnCell(u, k) != ColumnCell(u, l) && SameUnit(ColumnCell(u, k), ColumnCell(u, l))
  {
    hide Row, Col;
    Split(k, u);
    Split(l, u);
  }

  lemma InOneBox(u: nat, k: nat, l: nat)
    requires u < 9 && k < l < 9
    ensures CellOfBox(u, k) != CellOfBox(u, l) && SameUnit(CellOfBox(u, k), CellOfBox(u, l))
  {
    hide Row, Col;
    BoxPlace(u, k);
    BoxPlace(u, l);
  }

  lemma BoxPlace(u: nat, k: nat)
    requires u < 9 && k < 9
    ensures Row(CellOfBox(u, k)) == u / 3 * 3 + k / 3 && Col(CellOfBox(u, k)) == u % 3 * 3 + k % 3
    ensures Row(CellOfBox(u, k)) / 3 == u / 3 && Col(CellOfBox(u, k)) / 3 == u % 3
  {
    Split(u / 3 * 3 + k / 3, u % 3 * 3 + k % 3);
  }
}
