/**
 * The invariant of every state a game can reach from the start, and the user
 * actions that drive a game. Each history entry after the first records one
 * move: the square at its (row, col) was empty before and now holds the mark
 * of the player whose turn it was, on a board that was not yet won.
 */
module Invariants {
  import opened Options
  import opened Cells
  import opened Layout
  import opened Winner
  import opened Game

  /** The player who makes the move from entry `k` to entry `k + 1`: X moves first. */
  function Turn(k: nat): (p: Player)
  {
    if k % 2 == 0 then X else O
  }

  /** `next` is `prev` after player `p` marks the square at `next`'s coordinates, on an unwon board. */
  predicate Linked(prev: Entry, next: Entry, p: Player)
  {
    && 1 <= next.row <= 3 && 1 <= next.col <= 3
    && prev.squares[CellIndex(next.row, next.col)] == Empty
    && next.squares == prev.squares[CellIndex(next.row, next.col) := Occupied(p)]
    && CalculateWinner(prev.squares).None?
  }

  /** The invariant of reachable states. */
  predicate Inv(s: State)
  {
    && Valid(s)
    && s.history[0] == StartEntry()
    && (s.xIsNext <==> s.stepNumber % 2 == 0)
    && (s.selectedButton.Some? ==> s.selectedButton.value < |s.history|)
    && Chain(s.history)
  }

  /** Each entry of `h` after the first records one move from its predecessor. */
  predicate Chain(h: seq<Entry>)
  {
    forall k :: 0 <= k < |h| - 1 ==> LinkedAt(h, k)
  }

  /** Entry `k + 1` of `h` records the move from entry `k`. */
  predicate LinkedAt(h: seq<Entry>, k: nat)
    requires k + 1 < |h|
  {
    Linked(h[k], h[k + 1], Turn(k))
  }

  /** Discarding the entries after `n` and appending a move from entry `n` keeps the chain. */
  lemma ChainExtend(h: seq<Entry>, n: nat, e: Entry)
    requires Chain(h) && n < |h| && Linked(h[n], e, Turn(n))
    ensures Chain(h[..n + 1] + [e])
  {
    var h' := h[..n + 1] + [e];
    forall k | 0 <= k < |h'| - 1
      ensures LinkedAt(h', k)
    {
      if k < n {
        assert h'[k] == h[k] && h'[k + 1] == h[k + 1];
        assert LinkedAt(h, k);
      } else {
        assert h'[k] == h[n] && h'[k + 1] == e;
      }
    }
  }

  lemma InitInv()
    ensures Inv(Init())
  {
  }

  /**
   * A click that the board forwards, with the square index matching its
   * coordinates, keeps the invariant.
   */
  lemma HandleClickInv(s: State, i: nat, row: int, col: int)
    requires Inv(s)
    requires 1 <= row <= 3 && 1 <= col <= 3 && i == CellIndex(row, col)
    ensures Inv(HandleClick(s, i, row, col))
  {
    if !Blocked(s, i) {
      var t := HandleClick(s, i, row, col);
      var n := s.stepNumber;
      var e := Entry(Current(s)[i := Occupied(MarkOf(s.xIsNext))], row, col);
      assert t.history == s.history[..n + 1] + [e];
      ChainExtend(s.history, n, e);
    }
  }

  lemma JumpToInv(s: State, step: nat)
    requires Inv(s) && step < |s.history|
    ensures Inv(JumpTo(s, step))
  {
  }

  lemma ToggleSortInv(s: State)
    requires Inv(s)
    ensures Inv(ToggleSort(s))
  {
  }

  /**
   * Entry `k` holds exactly `k` marks: ceil(k/2) X's and floor(k/2) O's,
   * leaving `9 - k` squares empty.
   */
  lemma {:induction false} EntryCounts(s: State, k: nat)
    requires Inv(s) && k < |s.history|
    ensures Count(s.history[k].squares, Occupied(X)) == (k + 1) / 2
    ensures Count(s.history[k].squares, Occupied(O)) == k / 2
    ensures Count(s.history[k].squares, Empty) == 9 - k
  {
    if k == 0 {
      var b := s.history[0].squares;
      assert b == EmptyBoard();
      CountZero(b, Occupied(X));
      CountZero(b, Occupied(O));
      CountPartition(b);
    } else {
      EntryCounts(s, k - 1);
      var prev := s.history[k - 1];
      var e := s.history[k];
      assert LinkedAt(s.history, k - 1);
      var c := CellIndex(e.row, e.col);
      CountUpdate(prev.squares, c, Occupied(Turn(k - 1)), Occupied(X));
      CountUpdate(prev.squares, c, Occupied(Turn(k - 1)), Occupied(O));
      CountUpdate(prev.squares, c, Occupied(Turn(k - 1)), Empty);
    }
  }

  /** A game has at most nine moves, so at most ten history entries. */
  lemma HistoryBounded(s: State)
    requires Inv(s)
    ensures |s.history| <= 10
  {
    EntryCounts(s, |s.history| - 1);
  }

  /** Once all nine squares are filled, every click is ignored. */
  lemma FullBoardIgnoresClicks(s: State, i: nat)
    requires Inv(s) && s.stepNumber == 9 && i < 9
    ensures Blocked(s, i)
  {
    EntryCounts(s, 9);
    CountZero(Current(s), Empty);
  }

  /** Only the last entry of the history can show a won board. */
  lemma OnlyLastEntryWon(s: State, k: nat)
    requires Inv(s) && k < |s.history| - 1
    ensures CalculateWinner(s.history[k].squares).None?
  {
    assert LinkedAt(s.history, k);
  }

  /**
   * On a reachable board all won lines belong to one player, so every won line
   * names the winner and the order in which lines are checked does not matter.
   */
  lemma WinnerIndependentOfOrder(s: State, k: nat)
    requires Inv(s) && k < |s.history|
    ensures forall j, q :: 0 <= j < |Lines| && OwnedBy(s.history[k].squares, j, q) ==>
              CalculateWinner(s.history[k].squares) == Some(q)
  {
    var b := s.history[k].squares;
    if k == 0 {
      assert b == EmptyBoard();
      LinesOnBoard();
    } else {
      var prev := s.history[k - 1];
      var e := s.history[k];
      assert LinkedAt(s.history, k - 1);
      NewWinOwnsMove(prev.squares, CellIndex(e.row, e.col), Turn(k - 1), b);
      forall j, q | 0 <= j < |Lines| && OwnedBy(b, j, q)
        ensures CalculateWinner(b) == Some(q)
      {
        WonLineNamesWinner(b, j, q);
      }
    }
  }

  /** While no one has won, X is to move exactly when both players have placed equally many marks. */
  lemma StatusNamesPlayerBehind(s: State)
    requires Inv(s) && GameStatus(s).NextPlayer?
    ensures GameStatus(s).player == X
            <==> Count(Current(s), Occupied(X)) == Count(Current(s), Occupied(O))
  {
    EntryCounts(s, s.stepNumber);
  }

  /** A user action as the view offers it: a square, a move-list entry, or the order button. */
  datatype Action = Click(row: int, col: int) | Jump(step: int) | Sort

  /**
   * The effect of one action. A click passes the square's index together with
   * its coordinates; `None` stands for an action the view cannot issue.
   */
  function Step(s: State, a: Action): (r: Option<State>)
    requires Valid(s)
    ensures r.Some? ==> Valid(r.value)
    ensures r.None? <==> match a
                          case Click(row, col) => !(1 <= row <= 3 && 1 <= col <= 3)
                          case Jump(step) => !(0 <= step < |s.history|)
                          case Sort => false
  {
    match a
    case Click(row, col) =>
      if 1 <= row <= 3 && 1 <= col <= 3 then Some(HandleClick(s, CellIndex(row, col), row, col))
      else None
    case Jump(step) =>
      if 0 <= step < |s.history| then Some(JumpTo(s, step)) else None
    case Sort => Some(ToggleSort(s))
  }

  /** The state after a sequence of actions, or `None` if one of them cannot be issued. */
  function Run(s: State, acts: seq<Action>): (r: Option<State>)
    requires Valid(s)
    ensures r.Some? ==> Valid(r.value)
    decreases |acts|
  {
    if |acts| == 0 then Some(s)
    else match Step(s, acts[0])
      case None => None
      case Some(t) => Run(t, acts[1..])
  }

  lemma StepInv(s: State, a: Action)
    requires Inv(s) && Step(s, a).Some?
    ensures Inv(Step(s, a).value)
  {
    match a
    case Click(row, col) => HandleClickInv(s, CellIndex(row, col), row, col);
    case Jump(step) => JumpToInv(s, step);
    case Sort => ToggleSortInv(s);
  }

  lemma {:induction false} RunInv(s: State, acts: seq<Action>)
    requires Inv(s) && Run(s, acts).Some?
    ensures Inv(Run(s, acts).value)
    decreases |acts|
  {
    if |acts| > 0 {
      StepInv(s, acts[0]);
      RunInv(Step(s, acts[0]).value, acts[1..]);
    }
  }

  /**
   * Every state reached from a fresh game keeps the turn parity, the step
   * pointer and highlight within the history, and at most ten entries.
   */
  lemma Reachable(acts: seq<Action>)
    requires Run(Init(), acts).Some?
    ensures var t := Run(Init(), acts).value;
            && Inv(t)
            && (t.xIsNext <==> t.stepNumber % 2 == 0)
            && t.stepNumber < |t.history| <= 10
  {
    InitInv();
    RunInv(Init(), acts);
    HistoryBounded(Run(Init(), acts).value);
  }
}
