/** The per-frame step of the game loop in `main`: the state is the board,
    the mark to move next and the outcome so far; a frame either ignores its
    click or places the current mark, flips the turn and re-runs the win
    detector. Once the outcome is decided, no frame changes anything. */
module Game {
  import opened Options
  import opened Board
  import opened Win
  import opened InputMapper

  /** The loop's state: `game_state`, `current_player` and `game_over`. */
  datatype State = State(board: Grid, player: CellState, over: WinState)

  /** An empty board, X to move, no outcome. */
  const Initial: State := State(EmptyGrid, X, Undecided)

  /** What one frame leaves behind: the next state, or the process stopped by
      an out-of-bounds index into the board. */
  datatype Frame = Running(game: State) | Panicked

  /** The turn flip: X becomes O, and anything else becomes X; the result is
      a mark, and never the one passed in. */
  function Other(p: CellState): (q: CellState)
    ensures q != Empty && q != p
  {
    if p == X then O else X
  }

  /** One frame of the loop, given the cell `handle_tic_tac_toe_board`
      reported as (column, row), if any. The board is indexed [row][column],
      and an index past the board stops the process. */
  function Step(g: State, click: Option<(nat, nat)>): (r: Frame)
    // a decided game is frozen, whatever the click
    ensures g.over != Undecided ==> r == Running(g)
    // no click, no change
    ensures click.None? ==> r == Running(g)
    // the only failure: an undecided game and a click that names no cell
    ensures r.Panicked? <==>
      g.over == Undecided && click.Some? && !InRange(click.value.1, click.value.0)
    // a click on an occupied cell is ignored
    ensures (g.over == Undecided && click.Some? && InRange(click.value.1, click.value.0)
             && g.board[click.value.1][click.value.0] != Empty) ==> r == Running(g)
    // a click on an empty cell: that cell takes the mover's mark, no other
    // cell changes, the turn passes and the outcome is that of the new board
    ensures (g.over == Undecided && click.Some? && InRange(click.value.1, click.value.0)
             && g.board[click.value.1][click.value.0] == Empty) ==>
        && r.Running?
        && r.game.board[click.value.1][click.value.0] == g.player
        && (forall i, j | InRange(i, j) && (i != click.value.1 || j != click.value.0) ::
              r.game.board[i][j] == g.board[i][j])
        && r.game.player == Other(g.player)
        && r.game.over == CheckGameWin(r.game.board)
  {
    if g.over != Undecided then Running(g)
    else match click
      case None => Running(g)
      case Some((col, row)) =>
        if !InRange(row, col) then Panicked
        else if g.board[row][col] != Empty then Running(g)
        else
          var board := Place(g.board, row, col, g.player);
          Running(State(board, Other(g.player), CheckGameWin(board)))
  }

  /** What the loop sees in one frame: a left-button press at a pointer
      position, or none, and the current screen size. */
  datatype Input = Input(press: Option<Point>, screenWidth: real, screenHeight: real)

  /** The cell the hit test reports for this frame, as written. */
  function Target(input: Input): (r: Option<(nat, nat)>)
    ensures r.None? <==>
      input.press.None? || Outside(input.press.value, BoardRect(input.screenWidth, input.screenHeight))
    ensures r.Some? ==> r.value.0 <= 3 && r.value.1 <= 3
  {
    match input.press
    case None => None
    case Some(p) => HitTest(p, BoardRect(input.screenWidth, input.screenHeight))
  }

  /** The cell the corrected hit test reports for this frame. */
  function TargetClamped(input: Input): (r: Option<(nat, nat)>)
    ensures r.None? <==>
      input.press.None? || Outside(input.press.value, BoardRect(input.screenWidth, input.screenHeight))
    ensures r.Some? ==> InRange(r.value.1, r.value.0)
  {
    match input.press
    case None => None
    case Some(p) => HitTestClamped(p, BoardRect(input.screenWidth, input.screenHeight))
  }

  /** Every mark on g is still on h: marks are never overwritten or removed. */
  predicate KeepsMarks(g: Grid, h: Grid) {
    forall i, j | 0 <= i < 3 && 0 <= j < 3 && g[i][j] != Empty :: h[i][j] == g[i][j]
  }

  /** A press on the right or bottom edge of a board of positive size: the
      guard admits it and the hit test reports index 3 for it. */
  predicate OnFarEdge(input: Input) {
    var rect := BoardRect(input.screenWidth, input.screenHeight);
    && input.press.Some?
    && !Outside(input.press.value, rect)
    && ((rect.width > 0.0 && input.press.value.x == rect.x + rect.width)
        || (rect.height > 0.0 && input.press.value.y == rect.y + rect.height))
  }

  /** One frame of the loop as written. It stops the process exactly when
      the game is undecided and the press lies on the board's far edge. */
  function LoopFrame(g: State, input: Input): (r: Frame)
    ensures r.Panicked? <==> g.over == Undecided && OnFarEdge(input)
    ensures r.Running? ==> KeepsMarks(g.board, r.game.board)
  {
    Step(g, Target(input))
  }

  /** One frame of the loop with the corrected hit test: it never stops the
      process, and wherever the frame as written survives, both agree. */
  function LoopFrameClamped(g: State, input: Input): (r: State)
    ensures LoopFrame(g, input).Running? ==> r == LoopFrame(g, input).game
    ensures g.over != Undecided ==> r == g
    ensures KeepsMarks(g.board, r.board)
  {
    var t := TargetClamped(input);
    assert Target(input).Some? && InRange(Target(input).value.1, Target(input).value.0) ==> t == Target(input);
    Step(g, t).game
  }

  /** Successive frames of the corrected loop. No mark, once placed, is
      ever overwritten. */
  function Play(g: State, inputs: seq<Input>): (r: State)
    decreases |inputs|
    ensures KeepsMarks(g.board, r.board)
  {
    if |inputs| == 0 then g else Play(LoopFrameClamped(g, inputs[0]), inputs[1..])
  }

  /** Successive frames of the loop as written, until one stops the process.
      No mark, once placed, is ever overwritten. */
  function PlayAsWritten(g: State, inputs: seq<Input>): (r: Frame)
    decreases |inputs|
    ensures r.Running? ==> KeepsMarks(g.board, r.game.board)
  {
    if |inputs| == 0 then Running(g)
    else match LoopFrame(g, inputs[0])
      case Panicked => Panicked
      case Running(next) => PlayAsWritten(next, inputs[1..])
  }

  /** The invariant of every state play can reach: X has made as many moves
      as O or one more, and X is to move exactly when the counts are equal;
      the stored outcome is the detector's verdict on the board; at most one
      mark fills a line; and a winner is the mark that moved last. */
  predicate Consistent(g: State) {
    && BalancedCounts(g)
    && g.over == CheckGameWin(g.board)
    && !(HasLine(g.board, X) && HasLine(g.board, O))
    && (g.over == XWins ==> g.player == O)
    && (g.over == OWins ==> g.player == X)
  }

  /** X has made as many moves as O or one more, and X is to move exactly
      when the counts are equal (O exactly when X is one ahead). */
  predicate BalancedCounts(g: State) {
    var xs := CountMark(g.board, X);
    var os := CountMark(g.board, O);
    && (g.player == X || g.player == O)
    && (xs == os || xs == os + 1)
    && (g.player == X <==> xs == os)
  }

  /** A game starts consistent. */
  lemma InitialConsistent()
    ensures Consistent(Initial)
    ensures CheckGameWin(Initial.board) == Undecided
  {
    EmptyGridCounts();
    EmptyGridUndecided();
  }

  /** Placing m creates no line for any other mark. */
  lemma PlaceAddsLinesOnlyForMover(g: Grid, row: nat, col: nat, m: CellState, q: CellState)
    requires InRange(row, col) && q != m
    ensures HasLine(Place(g, row, col, m), q) ==> HasLine(g, q)
  {
    var h := Place(g, row, col, m);
    if HasLine(h, q) {
      if i: nat :| i < 3 && RowOrColumnFilled(h, i, q) {
        assert RowOrColumnFilled(g, i, q);
      }
    }
  }

  /** Every frame that does not stop the process keeps the invariant. */
  lemma StepConsistent(g: State, click: Option<(nat, nat)>)
    requires Consistent(g)
    ensures Step(g, click).Running? ==> Consistent(Step(g, click).game)
  {
    if g.over == Undecided && click.Some? {
      var (col, row) := click.value;
      if InRange(row, col) && g.board[row][col] == Empty {
        var board := Place(g.board, row, col, g.player);
        var next := Step(g, click).game;
        assert next == State(board, Other(g.player), CheckGameWin(board));
        PlaceCount(g.board, row, col, g.player, X);
        PlaceCount(g.board, row, col, g.player, O);
        PlaceAddsLinesOnlyForMover(g.board, row, col, g.player, Other(g.player));
      }
    }
  }

  /** The invariant holds in every state the corrected loop reaches. */
  lemma {:induction false} PlayConsistent(g: State, inputs: seq<Input>)
    requires Consistent(g)
    ensures Consistent(Play(g, inputs))
    decreases |inputs|
  {
    if |inputs| > 0 {
      StepConsistent(g, TargetClamped(inputs[0]));
      PlayConsistent(LoopFrameClamped(g, inputs[0]), inputs[1..]);
    }
  }

  /** The invariant holds in every state the loop as written reaches before
      any frame stops it. */
  lemma {:induction false} PlayAsWrittenConsistent(g: State, inputs: seq<Input>)
    requires Consistent(g)
    ensures PlayAsWritten(g, inputs).Running? ==> Consistent(PlayAsWritten(g, inputs).game)
    decreases |inputs|
  {
    if |inputs| > 0 {
      StepConsistent(g, Target(inputs[0]));
      if LoopFrame(g, inputs[0]).Running? {
        PlayAsWrittenConsistent(LoopFrame(g, inputs[0]).game, inputs[1..]);
      }
    }
  }

  /** From the empty board with X to move, every reachable state has
      #X - #O in {0, 1}, with X to move exactly when the counts are equal. */
  lemma ReachableCounts(inputs: seq<Input>)
    ensures var g := Play(Initial, inputs);
      var xs := CountMark(g.board, X);
      var os := CountMark(g.board, O);
      (xs == os || xs == os + 1) && (g.player == X <==> xs == os)
    ensures PlayAsWritten(Initial, inputs).Running? ==> BalancedCounts(PlayAsWritten(Initial, inputs).game)
  {
    InitialConsistent();
    PlayConsistent(Initial, inputs);
    PlayAsWrittenAgrees(Initial, inputs);
  }

  /** Wherever the loop as written has not stopped, it is in the same state
      as the corrected loop after the same frames. */
  lemma {:induction false} PlayAsWrittenAgrees(g: State, inputs: seq<Input>)
    ensures PlayAsWritten(g, inputs).Running? ==> PlayAsWritten(g, inputs).game == Play(g, inputs)
    decreases |inputs|
  {
    if |inputs| > 0 && LoopFrame(g, inputs[0]).Running? {
      PlayAsWrittenAgrees(LoopFrame(g, inputs[0]).game, inputs[1..]);
    }
  }

  /** In a reachable state the detector's verdict is exactly the reference
      one: a mark wins iff it fills a line, and a tie is a full board with no
      line, which holds five X and four O. */
  lemma ReachableOutcome(inputs: seq<Input>)
    ensures var g := Play(Initial, inputs);
      && (g.over == XWins <==> HasLine(g.board, X))
      && (g.over == OWins <==> HasLine(g.board, O))
      && (g.over == Tie ==> CountMark(g.board, X) == 5 && CountMark(g.board, O) == 4)
    ensures PlayAsWritten(Initial, inputs).Running? ==>
      var g := PlayAsWritten(Initial, inputs).game;
      && (g.over == XWins <==> HasLine(g.board, X))
      && (g.over == OWins <==> HasLine(g.board, O))
  {
    InitialConsistent();
    PlayConsistent(Initial, inputs);
    ConsistentOutcome(Play(Initial, inputs));
    var r := PlayAsWritten(Initial, inputs);
    if r.Running? {
      PlayAsWrittenConsistent(Initial, inputs);
      ConsistentOutcome(r.game);
    }
  }

  /** In a consistent state the stored outcome names exactly the mark that
      fills a line, and a tie board holds five X and four O. */
  lemma ConsistentOutcome(g: State)
    requires Consistent(g)
    ensures g.over == XWins <==> HasLine(g.board, X)
    ensures g.over == OWins <==> HasLine(g.board, O)
    ensures g.over == Tie ==> CountMark(g.board, X) == 5 && CountMark(g.board, O) == 4
  {
    if g.over == Tie {
      FullCounts(g.board);
    }
  }

  /** A full board holds nine marks. */
  lemma FullCounts(g: Grid)
    requires IsFull(g)
    ensures CountMark(g, X) + CountMark(g, O) == 9
  {
    for r := 0 to 3
      invariant forall i | 0 <= i < r :: Count(g[i], X) + Count(g[i], O) == 3
    {
      CountPartition(g[r]);
      CountZero(g[r], Empty);
    }
  }

  /** Once the outcome is decided, no later frame changes the board, the
      turn or the outcome, in the corrected loop or the loop as written. */
  lemma {:induction false} GameOverIsPermanent(g: State, inputs: seq<Input>)
    requires g.over != Undecided
    ensures Play(g, inputs) == g
    ensures PlayAsWritten(g, inputs) == Running(g)
    decreases |inputs|
  {
    if |inputs| > 0 {
      GameOverIsPermanent(g, inputs[1..]);
    }
  }
}
