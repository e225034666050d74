/** The board of a 3×3 tic-tac-toe game: the mark each cell holds, the grid
    indexed as grid[row][col], writing one cell, resetting, and counting marks. */
module Board {

  /** The mark held by one cell; X moves first. */
  datatype CellState = Empty | X | O

  /** One row of a fresh board. */
  const EmptyRow: seq<CellState> := [Empty, Empty, Empty]

  /** The grid as the game declares it, `[[CellState; 3]; 3]`: exactly three
      rows of exactly three cells, every one of them initialised. */
  type Grid = g: seq<seq<CellState>> | |g| == 3 && forall r | 0 <= r < 3 :: |g[r]| == 3
    witness [[Empty, Empty, Empty], [Empty, Empty, Empty], [Empty, Empty, Empty]]

  /** The board the game starts from. */
  const EmptyGrid: Grid := [EmptyRow, EmptyRow, EmptyRow]

  /** (row, col) names one of the nine cells. */
  predicate InRange(row: int, col: int) {
    0 <= row < 3 && 0 <= col < 3
  }

  /** Every cell of g holds m. */
  predicate AllCells(g: Grid, m: CellState) {
    forall r, c | 0 <= r < 3 && 0 <= c < 3 :: g[r][c] == m
  }

  /** The board after `game_state[row][col] = m`: that cell holds m and no
      other cell changes. */
  function Place(g: Grid, row: nat, col: nat, m: CellState): (r: Grid)
    requires InRange(row, col)
    ensures r[row][col] == m
    ensures forall i, j | InRange(i, j) && (i != row || j != col) :: r[i][j] == g[i][j]
  {
    g[row := g[row][col := m]]
  }

  /** Two grids with the same cells are the same grid. */
  lemma GridExtensionality(g: Grid, h: Grid)
    requires forall r, c | InRange(r, c) :: g[r][c] == h[r][c]
    ensures g == h
  {
    forall r | 0 <= r < 3
      ensures g[r] == h[r]
    {
      assert forall c | 0 <= c < 3 :: g[r][c] == h[r][c];
    }
  }

  /** `reset_board`: writes Empty into every cell, row by row. Whatever the
      board held before, the result is the empty board. */
  method ResetBoard(g: Grid) returns (r: Grid)
    ensures AllCells(r, Empty)
    ensures r == EmptyGrid
  {
    r := g;
    var x := 0;
    while x < 3
      invariant 0 <= x <= 3
      invariant forall i, j | 0 <= i < x && 0 <= j < 3 :: r[i][j] == Empty
    {
      var y := 0;
      while y < 3
        invariant 0 <= y <= 3
        invariant forall i, j | 0 <= i < x && 0 <= j < 3 :: r[i][j] == Empty
        invariant forall j | 0 <= j < y :: r[x][j] == Empty
      {
        r := Place(r, x, y, Empty);
        y := y + 1;
      }
      x := x + 1;
    }
    GridExtensionality(r, EmptyGrid);
  }

  /** The number of cells of s holding m. */
  function Count(s: seq<CellState>, m: CellState): nat
  {
    if |s| == 0 then 0 else (if s[0] == m then 1 else 0) + Count(s[1..], m)
  }

  /** The number of cells of the board holding m. */
  function CountMark(g: Grid, m: CellState): nat
  {
    Count(g[0], m) + Count(g[1], m) + Count(g[2], m)
  }

  /** Overwriting one element changes the count of m by what left and what came in. */
  lemma {:induction false} CountUpdate(s: seq<CellState>, i: nat, v: CellState, m: CellState)
    requires i < |s|
    ensures Count(s[i := v], m)
         == Count(s, m) - (if s[i] == m then 1 else 0) + (if v == m then 1 else 0)
  {
    if i == 0 {
      assert s[i := v][1..] == s[1..];
    } else {
      assert s[i := v][1..] == s[1..][i - 1 := v];
      CountUpdate(s[1..], i - 1, v, m);
    }
  }

  /** Placing v on the board changes the count of m only by the cell written. */
  lemma PlaceCount(g: Grid, row: nat, col: nat, v: CellState, m: CellState)
    requires InRange(row, col)
    ensures CountMark(Place(g, row, col, v), m)
         == CountMark(g, m) - (if g[row][col] == m then 1 else 0) + (if v == m then 1 else 0)
  {
    CountUpdate(g[row], col, v, m);
  }

  /** Every cell is X, O or Empty, so the three counts add up to the length. */
  lemma {:induction false} CountPartition(s: seq<CellState>)
    ensures Count(s, X) + Count(s, O) + Count(s, Empty) == |s|
  {
    if |s| > 0 {
      CountPartition(s[1..]);
    }
  }

  /** s holds no m exactly when its count of m is zero. */
  lemma {:induction false} CountZero(s: seq<CellState>, m: CellState)
    ensures Count(s, m) == 0 <==> forall k | 0 <= k < |s| :: s[k] != m
  {
    if |s| > 0 {
      CountZero(s[1..], m);
      assert forall k | 1 <= k < |s| :: s[k] == s[1..][k - 1];
    }
  }

  /** The empty board holds no X and no O. */
  lemma EmptyGridCounts()
    ensures CountMark(EmptyGrid, X) == 0 && CountMark(EmptyGrid, O) == 0
    ensures CountMark(EmptyGrid, Empty) == 9
  {
    CountZero(EmptyRow, X);
    CountZero(EmptyRow, O);
    CountPartition(EmptyRow);
  }
}
