/**
 * The game state and its three transitions: playing a square, jumping back to
 * an earlier step, and flipping the display order of the move list. Each
 * transition replaces the whole state record.
 */
module Game {
  import opened Options
  import opened Cells
  import opened Winner

  /** A history entry: the board after a move and the (row, col) of that move; (0, 0) for the start. */
  datatype Entry = Entry(squares: Board, row: int, col: int)

  /**
   * The state record. `stepNumber` points at the board on display,
   * `selectedButton` is the move-list entry last jumped to, and `xIsNext`
   * says whose mark the next move places.
   */
  datatype State = State(
    history: seq<Entry>,
    stepNumber: nat,
    selectedButton: Option<nat>,
    sortDescending: bool,
    xIsNext: bool)

  /** The entry every game starts from. */
  function StartEntry(): (e: Entry)
  {
    Entry(EmptyBoard(), 0, 0)
  }

  /** The state of a fresh game: one empty entry, step 0, X to move, ascending order. */
  function Init(): (s: State)
    ensures s.history == [StartEntry()] && s.stepNumber == 0
    ensures s.selectedButton.None? && !s.sortDescending && s.xIsNext
  {
    State([StartEntry()], 0, None, false, true)
  }

  /** The step pointer addresses an existing entry. */
  predicate Valid(s: State)
  {
    s.stepNumber < |s.history|
  }

  /** The board on display. */
  function Current(s: State): (b: Board)
    requires Valid(s)
  {
    s.history[s.stepNumber].squares
  }

  /** A click on square `i` is ignored when the displayed board is already won or the square is taken. */
  predicate Blocked(s: State, i: nat)
    requires Valid(s) && i < 9
  {
    CalculateWinner(Current(s)).Some? || Current(s)[i] != Empty
  }

  /**
   * A click on square `i`, at coordinates (`row`, `col`). Unless the click is
   * ignored, the entries after the displayed one are discarded, and an entry
   * with the clicked square marked is appended and displayed.
   */
  function HandleClick(s: State, i: nat, row: int, col: int): (t: State)
    requires Valid(s) && i < 9
    ensures t == s <==> Blocked(s, i)
    ensures !Blocked(s, i) ==>
              && |t.history| == s.stepNumber + 2
              && t.history[..s.stepNumber + 1] == s.history[..s.stepNumber + 1]
              && t.stepNumber == s.stepNumber + 1
              && t.selectedButton.None?
              && t.sortDescending == s.sortDescending
              && t.xIsNext == !s.xIsNext
    ensures !Blocked(s, i) ==>
              var e := t.history[s.stepNumber + 1];
              && e.row == row && e.col == col
              && e.squares[i] == Occupied(MarkOf(s.xIsNext))
              && forall j :: 0 <= j < 9 && j != i ==> e.squares[j] == Current(s)[j]
  {
    var history := s.history[..s.stepNumber + 1];
    var current := history[|history| - 1];
    var squares := current.squares;
    if CalculateWinner(squares).Some? || squares[i] != Empty then s
    else
      var squares' := squares[i := Occupied(MarkOf(s.xIsNext))];
      s.(history := history + [Entry(squares', row, col)],
         stepNumber := |history|,
         selectedButton := None,
         xIsNext := !s.xIsNext)
  }

  /**
   * Time travel to entry `step`: it becomes the displayed and highlighted
   * entry, the turn follows the parity of `step`, and nothing else changes.
   */
  function JumpTo(s: State, step: nat): (t: State)
    ensures t.history == s.history && t.sortDescending == s.sortDescending
    ensures t.stepNumber == step && t.selectedButton == Some(step)
    ensures t.xIsNext <==> step % 2 == 0
  {
    s.(stepNumber := step, selectedButton := Some(step), xIsNext := step % 2 == 0)
  }

  /** The order button: it shows the order it switches to and changes only that flag. */
  function ToggleSort(s: State): (t: State)
    ensures t.sortDescending != s.sortDescending
    ensures t.(sortDescending := s.sortDescending) == s
  {
    if s.sortDescending then s.(sortDescending := false) else s.(sortDescending := true)
  }

  /** The status line: the winner of the displayed board, or the player to move. */
  datatype Status = HasWinner(winner: Player) | NextPlayer(player: Player)

  function GameStatus(s: State): (r: Status)
    requires Valid(s)
    ensures r.HasWinner? <==> CalculateWinner(Current(s)).Some?
    ensures r.HasWinner? ==> CalculateWinner(Current(s)) == Some(r.winner)
    ensures r.NextPlayer? ==> (r.player == X <==> s.xIsNext)
  {
    match CalculateWinner(Current(s))
    case Some(p) => HasWinner(p)
    case None => NextPlayer(MarkOf(s.xIsNext))
  }

  /** Clicking the same square twice in a row: the second click is always ignored. */
  lemma RepeatedClickIgnored(s: State, i: nat, row: int, col: int)
    requires Valid(s) && i < 9
    ensures HandleClick(HandleClick(s, i, row, col), i, row, col) == HandleClick(s, i, row, col)
  {
  }

  /** After jumping to `step`, a move truncates the history to `step + 1` entries and appends one. */
  lemma JumpThenClick(s: State, step: nat, i: nat, row: int, col: int)
    requires step < |s.history| && i < 9
    requires !Blocked(JumpTo(s, step), i)
    ensures var t := HandleClick(JumpTo(s, step), i, row, col);
            |t.history| == step + 2 && t.stepNumber == step + 1
            && t.history[..step + 1] == s.history[..step + 1]
  {
  }
}
