/** Concrete boards, clicks and games, and the far-edge click that stops the
    loop as written. */
module Scenarios {
  import opened Options
  import opened Board
  import opened Win
  import opened InputMapper
  import opened Game

  /** The screen of the game's 600×600 window. */
  function Screen(p: Option<Point>): Input {
    Input(p, 600.0, 600.0)
  }

  /** On a board at (100, 100) sized 300×300: (150, 150) is cell (0, 0),
      (250, 250) is cell (1, 1), (50, 50) is outside, and the far corner
      (400, 400) maps to (3, 3), one past the last cell. */
  lemma HitTestExamples()
    ensures HitTest(Point(150.0, 150.0), Rect(100.0, 100.0, 300.0, 300.0)) == Some((0, 0))
    ensures HitTest(Point(250.0, 250.0), Rect(100.0, 100.0, 300.0, 300.0)) == Some((1, 1))
    ensures HitTest(Point(50.0, 50.0), Rect(100.0, 100.0, 300.0, 300.0)) == None
    ensures HitTest(Point(400.0, 400.0), Rect(100.0, 100.0, 300.0, 300.0)) == Some((3, 3))
    ensures HitTestClamped(Point(400.0, 400.0), Rect(100.0, 100.0, 300.0, 300.0)) == Some((2, 2))
  {
    var rect := Rect(100.0, 100.0, 300.0, 300.0);
    var a := HitTest(Point(150.0, 150.0), rect).value;
    assert a.0 as real * 300.0 <= 150.0 < (a.0 + 1) as real * 300.0;
    var b := HitTest(Point(250.0, 250.0), rect).value;
    assert b.0 as real * 300.0 <= 450.0 < (b.0 + 1) as real * 300.0;
    assert b.1 as real * 300.0 <= 450.0 < (b.1 + 1) as real * 300.0;
  }

  /** A press on pixel column 500 of the 600-pixel window, the right edge of
      the board, passes the hit test's guard with column index 3; indexing
      the board with it stops the process. The corrected hit test puts the
      mark in the last column instead. */
  lemma FarEdgeClickPanics()
    ensures Target(Screen(Some(Point(500.0, 250.0)))) == Some((3, 1))
    ensures LoopFrame(Initial, Screen(Some(Point(500.0, 250.0)))) == Panicked
    ensures LoopFrameClamped(Initial, Screen(Some(Point(500.0, 250.0)))).board[1][2] == X
  {
    var t := Target(Screen(Some(Point(500.0, 250.0)))).value;
    assert t.1 as real * 400.0 <= 450.0 < (t.1 + 1) as real * 400.0;
  }

  const Row0X: Grid := [[X, X, X], [O, O, Empty], [Empty, Empty, Empty]]
  const Column2O: Grid := [[X, X, O], [X, Empty, O], [Empty, Empty, O]]
  const MainDiagonalX: Grid := [[X, O, O], [Empty, X, Empty], [Empty, Empty, X]]
  const AntiDiagonalO: Grid := [[X, X, O], [Empty, O, X], [O, Empty, Empty]]
  const TieBoard: Grid := [[X, O, X], [X, O, O], [O, X, X]]

  /** No row or column of g is filled with m. */
  lemma NoRowOrColumn(g: Grid, m: CellState)
    requires g[0][0] != m || g[0][1] != m || g[0][2] != m
    requires g[1][0] != m || g[1][1] != m || g[1][2] != m
    requires g[2][0] != m || g[2][1] != m || g[2][2] != m
    requires g[0][0] != m || g[1][0] != m || g[2][0] != m
    requires g[0][1] != m || g[1][1] != m || g[2][1] != m
    requires g[0][2] != m || g[1][2] != m || g[2][2] != m
    ensures forall i: nat | i < 3 :: !RowOrColumnFilled(g, i, m)
  {
  }

  /** Filling row 0 with X wins for X. */
  lemma RowZeroWins()
    ensures CheckGameWin(Row0X) == XWins
  {
    assert RowOrColumnFilled(Row0X, 0, X);
    NoRowOrColumn(Row0X, O);
  }

  /** Filling column 2 with O wins for O. */
  lemma ColumnTwoWins()
    ensures CheckGameWin(Column2O) == OWins
  {
    assert RowOrColumnFilled(Column2O, 2, O);
    NoRowOrColumn(Column2O, X);
  }

  /** Filling either diagonal wins for its mark. */
  lemma DiagonalsWin()
    ensures CheckGameWin(MainDiagonalX) == XWins
    ensures CheckGameWin(AntiDiagonalO) == OWins
  {
    NoRowOrColumn(MainDiagonalX, O);
    NoRowOrColumn(AntiDiagonalO, X);
  }

  /** A full board with no filled line is a tie. */
  lemma TieBoardIsTie()
    ensures CheckGameWin(TieBoard) == Tie
  {
    NoRowOrColumn(TieBoard, X);
    NoRowOrColumn(TieBoard, O);
    TieBoardFull();
  }

  lemma TieBoardFull()
    ensures IsFull(TieBoard)
  {
    forall r, c | 0 <= r < 3 && 0 <= c < 3
      ensures TieBoard[r][c] != Empty
    {
      assert TieBoard[r] in {[X, O, X], [X, O, O], [O, X, X]};
    }
  }

  /** A board where neither mark fills a line and some cell is empty is
      undecided. */
  lemma OpenBoard(g: Grid)
    requires !HasLine(g, X) && !HasLine(g, O) && !IsFull(g)
    ensures CheckGameWin(g) == Undecided
  {
  }

  /** The facts OpenBoard needs, for a board whose bottom-right corner is
      empty and on which neither mark fills a row, column or diagonal. */
  lemma NoLineNotFull(g: Grid)
    requires forall i: nat | i < 3 :: !RowOrColumnFilled(g, i, X) && !RowOrColumnFilled(g, i, O)
    requires !DiagonalFilled(g, X) && !DiagonalFilled(g, O)
    requires g[2][2] == Empty
    ensures !HasLine(g, X) && !HasLine(g, O) && !IsFull(g)
  {
  }

  /** The boards of the scenario below, each one mark after the last. */
  const B0: Grid := [[Empty, Empty, Empty], [Empty, Empty, Empty], [Empty, Empty, Empty]]
  const B1: Grid := [[X, Empty, Empty], [Empty, Empty, Empty], [Empty, Empty, Empty]]
  const B2: Grid := [[X, O, Empty], [Empty, Empty, Empty], [Empty, Empty, Empty]]
  const B3: Grid := [[X, O, Empty], [Empty, X, Empty], [Empty, Empty, Empty]]
  const B4: Grid := [[X, O, O], [Empty, X, Empty], [Empty, Empty, Empty]]

  /** A click on the empty cell (row, col) of an undecided game: the mark
      lands, the turn passes and the outcome becomes that of the new board. */
  lemma Move(g: State, col: nat, row: nat, b: Grid, w: WinState)
    requires InRange(row, col) && g.over == Undecided && g.board[row][col] == Empty
    requires b == Place(g.board, row, col, g.player)
    requires CheckGameWin(b) == w
    ensures Step(g, Some((col, row))) == Running(State(b, Other(g.player), w))
  {
  }

  lemma BoardsAreOpen()
    ensures CheckGameWin(B1) == Undecided && CheckGameWin(B2) == Undecided
    ensures CheckGameWin(B3) == Undecided && CheckGameWin(B4) == Undecided
  {
    NoRowOrColumn(B1, X);
    NoRowOrColumn(B1, O);
    NoLineNotFull(B1);
    OpenBoard(B1);
    NoRowOrColumn(B2, X);
    NoRowOrColumn(B2, O);
    NoLineNotFull(B2);
    OpenBoard(B2);
    NoRowOrColumn(B3, X);
    NoRowOrColumn(B3, O);
    NoLineNotFull(B3);
    OpenBoard(B3);
    NoRowOrColumn(B4, X);
    NoRowOrColumn(B4, O);
    NoLineNotFull(B4);
    OpenBoard(B4);
  }

  lemma BoardsFollow()
    ensures B1 == Place(B0, 0, 0, X)
    ensures B2 == Place(B1, 0, 1, O)
    ensures B3 == Place(B2, 1, 1, X)
    ensures B4 == Place(B3, 0, 2, O)
    ensures MainDiagonalX == Place(B4, 2, 2, X)
  {
    GridExtensionality(B1, Place(B0, 0, 0, X));
    GridExtensionality(B2, Place(B1, 0, 1, O));
    GridExtensionality(B3, Place(B2, 1, 1, X));
    GridExtensionality(B4, Place(B3, 0, 2, O));
    GridExtensionality(MainDiagonalX, Place(B4, 2, 2, X));
  }

  lemma InitialIsB0()
    ensures Initial == State(B0, X, Undecided)
  {
  }

  lemma FirstMoves()
    ensures Step(Initial, Some((0, 0))) == Running(State(B1, O, Undecided))
    ensures Step(State(B1, O, Undecided), Some((1, 0))) == Running(State(B2, X, Undecided))
  {
    BoardsAreOpen();
    BoardsFollow();
    InitialIsB0();
    Move(State(B0, X, Undecided), 0, 0, B1, Undecided);
    Move(State(B1, O, Undecided), 1, 0, B2, Undecided);
  }

  lemma NextMoves()
    ensures Step(State(B2, X, Undecided), Some((1, 1))) == Running(State(B3, O, Undecided))
    ensures Step(State(B3, O, Undecided), Some((2, 0))) == Running(State(B4, X, Undecided))
  {
    BoardsAreOpen();
    BoardsFollow();
    Move(State(B2, X, Undecided), 1, 1, B3, Undecided);
    Move(State(B3, O, Undecided), 2, 0, B4, Undecided);
  }

  lemma WinningMove()
    ensures Step(State(B4, X, Undecided), Some((2, 2))) == Running(State(MainDiagonalX, O, XWins))
  {
    BoardsFollow();
    DiagonalsWin();
    Move(State(B4, X, Undecided), 2, 2, MainDiagonalX, XWins);
  }

  /** X plays (0, 0), O (1, 0), X (1, 1), O (2, 0), all as (column, row):
      nothing is decided; X then plays (2, 2), completing the main diagonal,
      and wins; no later frame changes that. */
  lemma DiagonalWinScenario(later: seq<Input>)
    ensures var g4 := Step(Step(Step(Step(Initial, Some((0, 0))).game, Some((1, 0))).game,
                                Some((1, 1))).game, Some((2, 0))).game;
      && g4.over == Undecided
      && Step(g4, Some((2, 2))) == Running(State(MainDiagonalX, O, XWins))
      && Play(State(MainDiagonalX, O, XWins), later) == State(MainDiagonalX, O, XWins)
  {
    FirstMoves();
    NextMoves();
    WinningMove();
    GameOverIsPermanent(State(MainDiagonalX, O, XWins), later);
  }
}
