# Tic-tac-toe gameplay, modelled in Dafny

A model of the gameplay logic of a two-player 3×3 tic-tac-toe game written in
Rust on top of the macroquad rendering library (`src/main.rs`). The game keeps
a 3×3 grid of `CellState` marks (Empty, X, O), the mark to move next and the
outcome so far (`WinState`). Each frame it maps a mouse press to a board cell,
places the current mark on an empty cell, flips the turn and re-runs the win
detector `check_game_win`. Once the outcome is decided the game is frozen.

Files and modules:

- `options.dfy` — `Options`: the `Option` datatype.
- `board.dfy` — `Board`: `CellState`, the `Grid` type (exactly three rows of
  three cells), writing one cell (`Place`), `reset_board` (`ResetBoard`), and
  counting marks.
- `win.dfy` — `Win`: `WinState` (the source's `X`, `O`, `Tie`, `None` are
  named `XWins`, `OWins`, `Tie`, `Undecided` here, so that they do not clash
  with the cell marks), `check_line` (`CheckLine`), the row/column scan
  (`ScanRowsColumns`) and `check_game_win` (`CheckGameWin`). It also holds an
  independent reference definition of a win (`HasLine`, `IsFull`).
- `input.dfy` — `InputMapper`: the hit test of `handle_tic_tac_toe_board`,
  as written (`HitTest`) and corrected (`HitTestClamped`).
- `game.dfy` — `Game`: the loop state, one frame (`Step`, `LoopFrame`,
  `LoopFrameClamped`), runs of frames (`Play`, `PlayAsWritten`), and the
  invariant every reachable state keeps (`Consistent`).
- `scenarios.dfy` — `Scenarios`: concrete boards, clicks and a whole game.

Main results:

- `CheckGameWin` agrees with the reference definition. A mark that alone fills
  a row, column or diagonal wins. A board with no filled line is a tie when
  full and undecided otherwise.
- From the empty board with X to move, every reachable state has
  #X − #O ∈ {0, 1}, and X is to move exactly when the counts are equal.
- In every reachable state the stored outcome is the detector's verdict, at
  most one mark fills a line, and the winner is the mark that moved last. A
  tie board holds five X and four O.
- A decided game never changes again.
- A click exactly on the board's right or bottom edge maps to index 3, and the
  game loop then indexes the board out of bounds (see Findings).

## Model

| member | source | states |
|---|---|---|
| Board.Place | src/main.rs:70 | the written cell holds the new mark and every other cell is unchanged |
| Board.ResetBoard | src/main.rs:121-127 | every cell is Empty afterwards, whatever the board held before, so the result is the empty board |
| Win.EmptyGridUndecided | src/main.rs:165-169 | the empty board has no filled line, is not full, and the detector returns None (Undecided) on it |
| Win.CheckLine | src/main.rs:139-141 | `check_line` on a three-cell line holds exactly when all three cells hold the mark |
| Win.ScanRowsColumns | src/main.rs:144-153 | the row/column loop returns None exactly when no row or column from index i on is filled by X or O; X only if some such row or column is all X; O only if one is all O |
| Win.CheckGameWin | src/main.rs:137-169 | returns X only if X fills a line and O only if O does; X when X alone fills a line, O when O alone does; Tie exactly when no line is filled and no cell is Empty; None exactly when no line is filled and some cell is Empty |
| InputMapper.BoardRect | src/main.rs:64 | the board rectangle starts at (100, 100) and ends 100 units short of the screen's right and bottom edges |
| InputMapper.Outside | src/main.rs:199 | the guard rejects a point exactly when it is not in the closed rectangle |
| InputMapper.CellIndex | src/main.rs:201-202 | the floored index is at most 3, names the third of the extent the offset falls in, and is 3 exactly when the offset is the whole extent; a zero extent gives index 0 |
| InputMapper.HitTest | src/main.rs:199-204 | None exactly for points strictly left of, above, right of or below the rectangle; otherwise (column, row) of the cell containing the point, each at most 3, and equal to 3 exactly on the far edge; a zero-width (zero-height) board gives column (row) 0 |
| InputMapper.HitTestRange | src/main.rs:199-204 | a point strictly inside maps to a cell with both indices in [0, 2]; a point on the right (bottom) edge maps to column (row) 3 |
| InputMapper.HitTestClamped | src/main.rs:199-204 | corrected hit test: same rejection as the original; every admitted point maps to indices in [0, 2] of the cell whose closed area contains it, and the result equals the original wherever that is in range |
| Game.Other | src/main.rs:72-73 | the turn flip yields a mark, never Empty and never the mark passed in |
| Game.Step | src/main.rs:58-89 | a decided game and a frame with no click change nothing; a click on an occupied cell changes nothing; a reported index past the board stops the process; a click on an empty cell places the current mark there and changes no other cell, flips the turn and sets the outcome to the detector's verdict on the new board |
| Game.Target | src/main.rs:196-207 | a frame yields no cell exactly when there is no press or the press lies outside the board rectangle (built at line 64) of that frame's screen size; otherwise both indices are at most 3 |
| Game.TargetClamped | src/main.rs:196-207 | corrected target: no cell in exactly the same cases, and otherwise a cell on the board |
| Game.LoopFrame | src/main.rs:64-70 | the frame as written stops the process exactly when the game is undecided and the press lies on the board's right or bottom edge; a frame that does not stop keeps every placed mark |
| Game.LoopFrameClamped | src/main.rs:64-89 | the corrected frame never stops the process, equals the frame as written wherever that one survives, leaves a decided game unchanged, and never overwrites a placed mark |
| Game.InitialConsistent | src/main.rs:41-48 | the starting state (empty board, X to move, no outcome) satisfies the invariant |
| Game.PlaceAddsLinesOnlyForMover | src/main.rs:137-163 | placing one mark creates no filled line for any other mark |
| Game.StepConsistent | src/main.rs:69-77 | every frame that does not stop the process keeps the invariant: the X/O counts, whose turn it is, the stored outcome, at most one mark with a line, winner moved last |
| Game.Play | src/main.rs:50-96 | any number of frames of the corrected loop keep every mark already on the board |
| Game.PlayAsWritten | src/main.rs:50-96 | any number of frames of the loop as written, while it runs, keep every mark already on the board |
| Game.PlayAsWrittenAgrees | src/main.rs:50-96 | wherever the loop as written is still running, its state is that of the corrected loop after the same frames |
| Game.PlayConsistent | src/main.rs:50-96 | any number of frames of the corrected loop keep the invariant |
| Game.PlayAsWrittenConsistent | src/main.rs:50-96 | any number of frames of the loop as written keep the invariant until a frame stops the process |
| Game.ReachableCounts | src/main.rs:41-73 | from the initial state, every board the corrected loop reaches, and every board the loop as written reaches before it stops, has #X − #O in {0, 1}, and X is to move exactly when the counts are equal |
| Game.ConsistentOutcome | src/main.rs:75-77 | in a state satisfying the invariant the outcome is X exactly when X fills a line and O exactly when O does, and a tie board holds five X and four O |
| Game.ReachableOutcome | src/main.rs:75-77 | in every state the corrected loop reaches the outcome is X exactly when X fills a line and O exactly when O does, and a tie board holds five X and four O; the first two also hold wherever the loop as written is still running |
| Game.GameOverIsPermanent | src/main.rs:58-62 | once the outcome is decided, no later frames change the board, the turn or the outcome, in the corrected loop or the loop as written |
| Scenarios.HitTestExamples | src/main.rs:199-204 | on a 300×300 board at (100, 100): (150, 150) is cell (0, 0), (250, 250) is (1, 1), (50, 50) is outside, and the far corner (400, 400) maps to (3, 3) as written and to (2, 2) corrected |
| Scenarios.FarEdgeClickPanics | src/main.rs:199-204 | in the 600×600 window a press at (500, 250) passes the guard with column 3, the frame as written stops on the board index, and the corrected frame marks row 1, column 2 |
| Scenarios.RowZeroWins | src/main.rs:144-148 | a board whose row 0 is all X is won by X |
| Scenarios.ColumnTwoWins | src/main.rs:149-152 | a board whose column 2 is all O is won by O |
| Scenarios.DiagonalsWin | src/main.rs:155-163 | a filled main diagonal wins for X and a filled anti-diagonal wins for O |
| Scenarios.TieBoardIsTie | src/main.rs:165-167 | a full board with no filled line is a tie |
| Scenarios.OpenBoard | src/main.rs:165-169 | a board with no filled line and an empty cell is undecided |
| Scenarios.Move | src/main.rs:69-77 | a click on an empty cell of an undecided game yields the placed board, the other player and that board's outcome |
| Scenarios.DiagonalWinScenario | src/main.rs:58-77 | X (0,0), O (1,0), X (1,1), O (2,0) leaves the game undecided; X (2,2) then completes the main diagonal and wins, and later frames change nothing |

## Left out

- Drawing: `draw_x`, `draw_o`, `draw_main_border`, `display_game_over`, `window_conf`, and the grid lines and marks drawn in `handle_tic_tac_toe_board`. These are rendering calls into macroquad with no effect on the game state.
- macroquad input and frame queries (`is_mouse_button_pressed`, `mouse_position`, `screen_width`, `screen_height`, `next_frame`). They become the fields of `Game.Input`: an optional press position and the screen size of that frame.
- The Super+Q shortcut that calls `exit(0)`, the `println!` of the next player and the `Display` impl of `CellState`. These are process and console effects.
- f32 arithmetic. Coordinates are exact reals, so rounding, infinities and NaN inputs are not modelled. The one NaN the hit test can produce from finite inputs is modelled: a zero-width board gives 0/0, which the cast to `usize` turns into 0.
- The commented-out reset after a win (src/main.rs:79-82) is dead code. `reset_board` is modelled but, as in the source, nothing in the loop calls it, so a decided game stays decided.
- Win.CheckGameWin: on a board where both marks fill a line, the contract says only that the result is X or O, not which one the scan order picks. Play never produces such a board (`Game.Consistent`).

## Findings

| source | as written | input that shows it | evidently intended | confidence | as-written member | corrected member |
|---|---|---|---|---|---|---|
| src/main.rs:199-204 | the guard rejects only points strictly beyond `x + width` / `y + height`, so a point exactly on the right or bottom edge passes; `floor(3.0)` then gives index 3, and `game_state[cell_y][cell_x]` at line 69 indexes past the 3-element array, which stops the program | a press at (500, 250) in the default 600×600 window, where the board spans 100..500 | every admitted click names one of the nine cells: the far edge belongs to the last column or row | high for the index 3; not executed | Scenarios.FarEdgeClickPanics | InputMapper.HitTestClamped |

The loop as written is `Game.LoopFrame` and `Game.PlayAsWritten`, where an
out-of-range index ends in `Panicked`. The corrected loop is
`Game.LoopFrameClamped` and `Game.Play`. `Game.PlayAsWrittenAgrees` shows that the
two loops agree until the loop as written stops, so the reachability results
hold for both.
