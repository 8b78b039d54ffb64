/** Conway's game of life on an N x N torus: the grid is an `array2<int>`
    that `update_grid` rewrites in place from a copy of itself, and
    `add_glider` stamps a 3 x 3 pattern into it. */
module GameOfLife {

  const ON: int := 1
  const OFF: int := 0

  /** A grid as a value: row by row. */
  type Grid = seq<seq<int>>

  predicate IsSquare(g: Grid, n: nat) {
    |g| == n && forall i :: 0 <= i < n ==> |g[i]| == n
  }

  /** Every cell is ON or OFF. */
  predicate Binary(g: Grid) {
    forall i, j :: 0 <= i < |g| && 0 <= j < |g[i]| ==> g[i][j] == OFF || g[i][j] == ON
  }

  function Zero(n: nat): (g: Grid)
    ensures IsSquare(g, n) && Binary(g)
  {
    seq(n, i => seq(n, j => OFF))
  }

  /** The index before `k` on a ring of `n`. */
  function Prev(k: nat, n: nat): nat
    requires k < n
  {
    if k == 0 then n - 1 else k - 1
  }

  /** The index after `k` on a ring of `n`. */
  function Next(k: nat, n: nat): nat
    requires k < n
  {
    if k == n - 1 then 0 else k + 1
  }

  /** Prev and Next are Python's `(k - 1) % n` and `(k + 1) % n` (for a
      positive modulus Dafny's `%` agrees with Python's), and stay within the ring. */
  lemma WrapIsModulo(k: nat, n: nat)
    requires k < n
    ensures Prev(k, n) == (k - 1) % n && Prev(k, n) < n
    ensures Next(k, n) == (k + 1) % n && Next(k, n) < n
  {
    if k == 0 {
      assert (k - 1) % n == n - 1 by {
        assert -1 == (-1) * n + (n - 1);
      }
    }
    if k == n - 1 {
      assert (k + 1) % n == 0;
    }
  }

  /** The sum of the eight cells around (i, j) on the torus. */
  function Neighbours(g: Grid, n: nat, i: nat, j: nat): (total: int)
    requires IsSquare(g, n) && i < n && j < n
    ensures Binary(g) ==> 0 <= total <= 8
  {
    g[i][Prev(j, n)] + g[i][Next(j, n)] + g[Prev(i, n)][j] + g[Next(i, n)][j] +
    g[Prev(i, n)][Prev(j, n)] + g[Next(i, n)][Prev(j, n)] +
    g[Prev(i, n)][Next(j, n)] + g[Next(i, n)][Next(j, n)]
  }

  /** The rule applied to one cell: a live cell with fewer than two or more
      than three live neighbours dies, a cell that is not live becomes live
      with exactly three; otherwise the cell keeps its value. */
  function NextCell(cell: int, total: int): int {
    if cell == ON then (if total < 2 || total > 3 then OFF else cell)
    else if total == 3 then ON
    else cell
  }

  /** The next value of cell (i, j), from the old grid alone. */
  function NewCell(g: Grid, n: nat, i: nat, j: nat): int
    requires IsSquare(g, n) && i < n && j < n
  {
    NextCell(g[i][j], Neighbours(g, n, i, j))
  }

  /** One synchronous generation: every new cell is computed from the old grid. */
  function Step(g: Grid, n: nat): (h: Grid)
    requires IsSquare(g, n)
    ensures IsSquare(h, n)
  {
    seq(n, i requires 0 <= i < n => seq(n, j requires 0 <= j < n => NewCell(g, n, i, j)))
  }

  /** The step keeps a 0/1 grid a 0/1 grid. */
  lemma StepBinary(g: Grid, n: nat)
    requires IsSquare(g, n) && Binary(g)
    ensures Binary(Step(g, n))
  {
    var h := Step(g, n);
    forall i, j | 0 <= i < n && 0 <= j < n ensures h[i][j] == OFF || h[i][j] == ON {
      assert h[i][j] == NextCell(g[i][j], Neighbours(g, n, i, j));
    }
  }

  /** The rules of the game, for a 0/1 grid: a live cell survives exactly
      with two or three live neighbours; a dead cell is born exactly with
      three. */
  lemma Rules(g: Grid, n: nat, i: nat, j: nat)
    requires IsSquare(g, n) && Binary(g) && i < n && j < n
    ensures g[i][j] == ON ==>
      (Step(g, n)[i][j] == ON <==> 2 <= Neighbours(g, n, i, j) <= 3)
    ensures g[i][j] == OFF ==>
      (Step(g, n)[i][j] == ON <==> Neighbours(g, n, i, j) == 3)
    ensures Step(g, n)[i][j] == OFF || Step(g, n)[i][j] == ON
  {
    assert Step(g, n)[i][j] == NextCell(g[i][j], Neighbours(g, n, i, j));
  }

  /** Row or column `a` is `k` or one of its two wrapped neighbours. */
  predicate Around(a: nat, k: nat, n: nat)
    requires k < n
  {
    a == Prev(k, n) || a == k || a == Next(k, n)
  }

  /** The cell (i, j) and its eight wrapped neighbours agree in `g` and `h`. */
  predicate SameNeighbourhood(g: Grid, h: Grid, n: nat, i: nat, j: nat)
    requires IsSquare(g, n) && IsSquare(h, n) && i < n && j < n
  {
    forall a, b :: 0 <= a < n && 0 <= b < n && Around(a, i, n) && Around(b, j, n) ==> g[a][b] == h[a][b]
  }

  /** The update is local and synchronous: a new cell depends on nothing but
      its own old value and its eight old neighbours. */
  lemma StepIsLocal(g: Grid, h: Grid, n: nat, i: nat, j: nat)
    requires IsSquare(g, n) && IsSquare(h, n) && i < n && j < n
    requires SameNeighbourhood(g, h, n, i, j)
    ensures Step(g, n)[i][j] == Step(h, n)[i][j]
  {
    var pi, ni, pj, nj := Prev(i, n), Next(i, n), Prev(j, n), Next(j, n);
    assert Around(pi, i, n) && Around(i, i, n) && Around(ni, i, n);
    assert Around(pj, j, n) && Around(j, j, n) && Around(nj, j, n);
    assert Neighbours(g, n, i, j) == Neighbours(h, n, i, j);
    assert g[i][j] == h[i][j];
  }

  /** A dead grid stays dead. */
  lemma ZeroIsFixed(n: nat)
    ensures Step(Zero(n), n) == Zero(n)
  {
    var z := Zero(n);
    var s := Step(z, n);
    forall i | 0 <= i < n ensures s[i] == z[i] {
      forall j | 0 <= j < n ensures s[i][j] == z[i][j] {
        ZeroNeighbours(n, i, j);
      }
    }
  }

  lemma ZeroNeighbours(n: nat, i: nat, j: nat)
    requires i < n && j < n
    ensures Neighbours(Zero(n), n, i, j) == 0
  {
    var z := Zero(n);
    assert z[i] == z[Prev(i, n)] == z[Next(i, n)] == seq(n, j => OFF);
  }

  // ---------------------------------------------------------------------
  // add_glider

  /** The glider `add_glider` writes, row by row. */
  const Glider: Grid := [[0, 0, 1], [1, 0, 1], [0, 1, 1]]

  /** A bound of a Python slice over a length-`n` axis, normalised: negative
      values count from the end, and the result is clamped to 0..n. */
  function SliceBound(n: nat, a: int): (b: nat)
    ensures b <= n
  {
    if a < 0 then (if a + n < 0 then 0 else a + n) else if a > n then n else a
  }

  /** `a:a+3` selects exactly three indices of the axis, starting at `SliceBound(n, a)`. */
  predicate Fits(n: nat, a: int) {
    SliceBound(n, a + 3) - SliceBound(n, a) == 3
  }

  /** The slice `a:a+3` is three long exactly when it lies within the axis,
      either counted from the front or, for a negative start of at most -4,
      from the end. */
  lemma FitsExactly(n: nat, a: int)
    ensures Fits(n, a) <==> (0 <= a && a + 3 <= n) || (-(n as int) <= a <= -4)
    ensures 0 <= a && a + 3 <= n ==> SliceBound(n, a) == a
    ensures -(n as int) <= a <= -4 ==> SliceBound(n, a) == n + a
  {
  }

  /** The grid with the glider written at rows r..r+2, columns c..c+2. */
  function Stamp(g: Grid, n: nat, r: nat, c: nat): (h: Grid)
    requires IsSquare(g, n) && r + 3 <= n && c + 3 <= n
    ensures IsSquare(h, n)
  {
    seq(n, i requires 0 <= i < n =>
      seq(n, j requires 0 <= j < n =>
        if r <= i < r + 3 && c <= j < c + 3 then Glider[i - r][j - c] else g[i][j]))
  }

  /** Stamping writes the pattern over the 3 x 3 block and nothing else, keeps
      a 0/1 grid a 0/1 grid, and stamping twice at one place is stamping once. */
  lemma StampProperties(g: Grid, n: nat, r: nat, c: nat)
    requires IsSquare(g, n) && r + 3 <= n && c + 3 <= n
    ensures forall di, dj :: 0 <= di < 3 && 0 <= dj < 3 ==> Stamp(g, n, r, c)[r + di][c + dj] == Glider[di][dj]
    ensures forall i, j :: 0 <= i < n && 0 <= j < n && !(r <= i < r + 3 && c <= j < c + 3) ==>
      Stamp(g, n, r, c)[i][j] == g[i][j]
    ensures Binary(g) ==> Binary(Stamp(g, n, r, c))
    ensures Stamp(Stamp(g, n, r, c), n, r, c) == Stamp(g, n, r, c)
  {
    var h := Stamp(g, n, r, c);
    forall i | 0 <= i < n ensures Stamp(h, n, r, c)[i] == h[i] {
    }
  }

  /** The glider has five live cells. */
  lemma GliderCells()
    ensures Glider[0][2] == ON && Glider[1][0] == ON && Glider[1][2] == ON
    ensures Glider[2][1] == ON && Glider[2][2] == ON
    ensures Glider[0][0] == OFF && Glider[0][1] == OFF && Glider[1][1] == OFF && Glider[2][0] == OFF
  {
  }

  // ---------------------------------------------------------------------
  // The simulator

  class Life {
    /** `_N`. */
    const N: nat
    /** `_grid`. */
    var grid: array2<int>

    ghost predicate Valid()
      reads this
    {
      grid.Length0 == N && grid.Length1 == N
    }

    /** The grid's contents as a value. */
    function Cells(): (g: Grid)
      reads this, grid
      requires Valid()
      ensures IsSquare(g, N)
    {
      seq(grid.Length0, i requires 0 <= i < grid.Length0 reads this, grid =>
        seq(grid.Length1, j requires 0 <= i < grid.Length0 && 0 <= j < grid.Length1 reads this, grid => grid[i, j]))
    }

    /** `GameOfLife(N)`: the random initial grid of `set_grid` is passed in. */
    constructor (n: nat, initial: Grid)
      requires IsSquare(initial, n)
      ensures Valid() && fresh(grid) && N == n && Cells() == initial
    {
      N := n;
      grid := new int[n, n]((i, j) requires 0 <= i < n && 0 <= j < n => initial[i][j]);
      new;
      assert forall i | 0 <= i < n :: Cells()[i] == initial[i];
    }

    /** `add_glider((r, c))`.  The slice assignment raises ValueError, and
        changes nothing, when either slice `r:r+3` or `c:c+3` is not three
        long; otherwise the glider lands at the slices' normalised starts. */
    method AddGlider(r: int, c: int) returns (raised: bool)
      requires Valid()
      modifies grid
      ensures Valid()
      ensures raised <==> !(Fits(N, r) && Fits(N, c))
      ensures Cells() == if raised then old(Cells()) else Stamp(old(Cells()), N, SliceBound(N, r), SliceBound(N, c))
    {
      var r0, c0 := SliceBound(N, r), SliceBound(N, c);
      if SliceBound(N, r + 3) - r0 != 3 || SliceBound(N, c + 3) - c0 != 3 {
        return true;
      }
      ghost var before := Cells();
      forall di, dj | 0 <= di < 3 && 0 <= dj < 3 {
        grid[r0 + di, c0 + dj] := Glider[di][dj];
      }
      raised := false;
      assert Cells() == Stamp(before, N, r0, c0) by {
        forall i | 0 <= i < N ensures Cells()[i] == Stamp(before, N, r0, c0)[i] {
          forall j | 0 <= j < N ensures Cells()[i][j] == Stamp(before, N, r0, c0)[i][j] {
            if r0 <= i < r0 + 3 && c0 <= j < c0 + 3 {
              assert grid[(i - r0) + r0, (j - c0) + c0] == Glider[i - r0][j - c0];
            }
          }
        }
      }
    }

    /** `update_grid()`: one generation, computed cell by cell from a copy
        of the grid and written back in place. */
    method UpdateGrid()
      requires Valid()
      modifies grid
      ensures Valid() && Cells() == Step(old(Cells()), N)
    {
      var oldGrid := Cells();
      var n := N;
      for i := 0 to n
        invariant forall a, b :: 0 <= a < i && 0 <= b < n ==> grid[a, b] == NewCell(oldGrid, n, a, b)
        invariant forall a, b :: i <= a < n && 0 <= b < n ==> grid[a, b] == oldGrid[a][b]
      {
        UpdateRow(oldGrid, i);
      }
      assert Cells() == Step(oldGrid, n) by {
        forall a | 0 <= a < n ensures Cells()[a] == Step(oldGrid, n)[a] {
          forall b | 0 <= b < n ensures Cells()[a][b] == Step(oldGrid, n)[a][b] {
          }
        }
      }
    }

    /** The inner loop of `update_grid()`: row `i` of the grid, still equal to
        row `i` of the copy, receives its next generation; no other row changes. */
    method UpdateRow(oldGrid: Grid, i: nat)
      requires Valid() && IsSquare(oldGrid, N) && i < N
      requires forall b :: 0 <= b < N ==> grid[i, b] == oldGrid[i][b]
      modifies grid
      ensures forall b :: 0 <= b < N ==> grid[i, b] == NewCell(oldGrid, N, i, b)
      ensures forall a, b :: 0 <= a < N && 0 <= b < N && a != i ==> grid[a, b] == old(grid[a, b])
    {
      var n := N;
      for j := 0 to n
        invariant forall b :: 0 <= b < j ==> grid[i, b] == NewCell(oldGrid, n, i, b)
        invariant forall b :: j <= b < n ==> grid[i, b] == oldGrid[i][b]
        invariant forall a, b :: 0 <= a < n && 0 <= b < n && a != i ==> grid[a, b] == old(grid[a, b])
      {
        var total := oldGrid[i][Prev(j, n)] + oldGrid[i][Next(j, n)] +
                     oldGrid[Prev(i, n)][j] + oldGrid[Next(i, n)][j] +
                     oldGrid[Prev(i, n)][Prev(j, n)] + oldGrid[Next(i, n)][Prev(j, n)] +
                     oldGrid[Prev(i, n)][Next(j, n)] + oldGrid[Next(i, n)][Next(j, n)];
        assert NewCell(oldGrid, n, i, j) == NextCell(oldGrid[i][j], total);
        if oldGrid[i][j] == ON {
          if total < 2 || total > 3 {
            grid[i, j] := OFF;
          }
        } else {
          if total == 3 {
            grid[i, j] := ON;
          }
        }
      }
    }
  }
}
