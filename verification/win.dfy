/** The win detector, `check_game_win`: from a board snapshot to the game's
    outcome. It scans row i and column i for X, then for O, for i = 0, 1, 2;
    then both diagonals, X before O; then reports a tie when no cell is Empty. */
module Win {
  import opened Board

  /** `WinState`: X wins, O wins, a tie, or no outcome yet. */
  datatype WinState = XWins | OWins | Tie | Undecided

  /** A line as `check_line` receives it: a list of (row, col) coordinates. */
  type Line = seq<(nat, nat)>

  predicate OnBoard(line: Line) {
    forall k | 0 <= k < |line| :: InRange(line[k].0, line[k].1)
  }

  /** `check_line`: every cell the line names holds m. On a line of three
      cells, that is the three cells holding m. */
  function CheckLine(g: Grid, line: Line, m: CellState): (r: bool)
    requires OnBoard(line)
    ensures |line| == 3 ==>
      (r <==> g[line[0].0][line[0].1] == m && g[line[1].0][line[1].1] == m && g[line[2].0][line[2].1] == m)
  {
    forall k | 0 <= k < |line| :: g[line[k].0][line[k].1] == m
  }

  function RowLine(i: nat): Line { [(i, 0), (i, 1), (i, 2)] }
  function ColumnLine(i: nat): Line { [(0, i), (1, i), (2, i)] }
  const MainDiagonal: Line := [(0, 0), (1, 1), (2, 2)]
  const AntiDiagonal: Line := [(0, 2), (1, 1), (2, 0)]

  // The reference definition of a win, written cell by cell and independent
  // of the scan order of the detector.

  predicate RowFilled(g: Grid, r: nat, m: CellState)
    requires r < 3
  {
    g[r][0] == m && g[r][1] == m && g[r][2] == m
  }

  predicate ColumnFilled(g: Grid, c: nat, m: CellState)
    requires c < 3
  {
    g[0][c] == m && g[1][c] == m && g[2][c] == m
  }

  /** Row i or column i is filled with m. */
  predicate RowOrColumnFilled(g: Grid, i: nat, m: CellState)
    requires i < 3
  {
    RowFilled(g, i, m) || ColumnFilled(g, i, m)
  }

  predicate DiagonalFilled(g: Grid, m: CellState) {
    (g[0][0] == m && g[1][1] == m && g[2][2] == m)
    || (g[0][2] == m && g[1][1] == m && g[2][0] == m)
  }

  /** m fills one of the eight lines: a row, a column or a diagonal. */
  predicate HasLine(g: Grid, m: CellState) {
    (exists i: nat | i < 3 :: RowOrColumnFilled(g, i, m)) || DiagonalFilled(g, m)
  }

  /** No cell of the board is Empty. */
  predicate IsFull(g: Grid) {
    forall r, c | 0 <= r < 3 && 0 <= c < 3 :: g[r][c] != Empty
  }

  /** The first loop of `check_game_win`, from index i on: the first index
      whose row or column is filled decides, X before O at each index. */
  function ScanRowsColumns(g: Grid, i: nat): (r: WinState)
    requires i <= 3
    decreases 3 - i
    ensures r == XWins || r == OWins || r == Undecided
    ensures r == Undecided
        <==> forall j: nat | i <= j < 3 :: !RowOrColumnFilled(g, j, X) && !RowOrColumnFilled(g, j, O)
    ensures r == XWins ==> exists j: nat | i <= j < 3 :: RowOrColumnFilled(g, j, X)
    ensures r == OWins ==> exists j: nat | i <= j < 3 :: RowOrColumnFilled(g, j, O)
  {
    if i == 3 then Undecided
    else
      if CheckLine(g, RowLine(i), X) || CheckLine(g, ColumnLine(i), X) then
        assert RowOrColumnFilled(g, i, X);
        XWins
      else if CheckLine(g, RowLine(i), O) || CheckLine(g, ColumnLine(i), O) then
        assert RowOrColumnFilled(g, i, O);
        OWins
      else ScanRowsColumns(g, i + 1)
  }

  /** `check_game_win`. Its verdict agrees with the reference definition: a
      mark that alone fills a line wins; a board with no filled line is a tie
      when full and undecided otherwise. (When both marks fill lines, which
      play never produces, the scan order picks one of them.) */
  function CheckGameWin(g: Grid): (r: WinState)
    ensures r == XWins ==> HasLine(g, X)
    ensures r == OWins ==> HasLine(g, O)
    ensures HasLine(g, X) && !HasLine(g, O) ==> r == XWins
    ensures HasLine(g, O) && !HasLine(g, X) ==> r == OWins
    ensures r == Tie <==> !HasLine(g, X) && !HasLine(g, O) && IsFull(g)
    ensures r == Undecided <==> !HasLine(g, X) && !HasLine(g, O) && !IsFull(g)
  {
    var scan := ScanRowsColumns(g, 0);
    if scan != Undecided then scan
    else if CheckLine(g, MainDiagonal, X) || CheckLine(g, AntiDiagonal, X) then XWins
    else if CheckLine(g, MainDiagonal, O) || CheckLine(g, AntiDiagonal, O) then OWins
    else if IsFull(g) then Tie
    else Undecided
  }

  /** The board `reset_board` leaves behind has no outcome yet. */
  lemma EmptyGridUndecided()
    ensures !HasLine(EmptyGrid, X) && !HasLine(EmptyGrid, O) && !IsFull(EmptyGrid)
    ensures CheckGameWin(EmptyGrid) == Undecided
  {
    assert EmptyGrid[0][0] == Empty;
  }
}
