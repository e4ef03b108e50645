# Tic-tac-toe game logic

A Dafny model of the game logic of a React tic-tac-toe component with move
history and time travel (`src/index.js`). The model covers:

- **Win detection** (`Winner`): `calculateWinner` checks eight fixed lines
  (three rows, three columns, two diagonals) in order and returns the mark of
  the first line whose three squares hold the same mark, or nothing.
- **The game state** (`Game`): the record of `history` (board snapshots with
  the coordinates of the move that produced them), `stepNumber`,
  `selectedButton`, `sortDescending` and `xIsNext`, changed by a click on a
  square (`handleClick`), time travel (`jumpTo`) and the order button.
- **Reachable states** (`Invariants`): the invariant every state reachable
  from a fresh game keeps (turn parity, step pointer and highlight inside the
  history, each entry one legal move after its predecessor on an unwon board),
  and its consequences: entry `k` holds `ceil(k/2)` X's and `floor(k/2)` O's,
  a game has at most ten entries, and on a reachable board every won line
  belongs to one player, so the order of checking does not matter.
- **The move list** (`Moves`): the history listed in either order, each entry
  numbered by its original index.
- **Board coordinates** (`Layout`): square (row, col) is index
  `3*(3-row)+col-1`, row 3 is the top row, and the board renders rows 3, 2, 1.

Each transition is a pure function from state to state. Squares are
`Empty | Occupied(X | O)`; a board is a sequence of nine squares.

`xIsNext` is a stored field set by `handleClick` and `jumpTo`; its agreement
with `stepNumber % 2 == 0` is proved as part of the invariant. The order
control is two buttons, each setting the opposite value, which
`Game.ToggleSort` models. After a move, `stepNumber` is the length of the kept
history prefix, which equals the old `stepNumber + 1` because the pointer is
inside the history.

## Model

| member | source | states |
|---|---|---|
| `Cells.EmptyBoard` | src/index.js:55 | the starting board has all nine squares empty |
| `Winner.LinesOnBoard` | src/index.js:142-151 | there are eight lines and each names three squares of the board |
| `Winner.WonIffOwned` | src/index.js:154 | a line passes the test (first square non-empty and equal to the other two) exactly when one player holds all three squares |
| `Winner.FirstWonLine` | src/index.js:152-158 | the scan from position `k` returns a won line at or after `k` with no won line between `k` and it, and returns nothing exactly when no line from `k` on is won |
| `Winner.CalculateWinner` | src/index.js:141-159 | a returned player owns some line before which no line is won; nothing is returned exactly when no line is won |
| `Winner.FirstLineDecides` | src/index.js:152-157 | if `p` owns line `j` and no earlier line is won, the winner is `p` (the first qualifying line decides) |
| `Winner.WonLineNamesWinner` | src/index.js:152-157 | when all owned lines belong to one player, any owned line names the winner |
| `Winner.NewWinOwnsMove` | src/index.js:154 | one mark placed on an unwon board wins only lines through that square, and only for the player who placed it |
| `Game.Init` | src/index.js:53-63 | the fresh game has one entry (empty board, coordinates 0, 0), step 0, no highlight, ascending order, X to move |
| `Game.HandleClick` | src/index.js:66-84 | the state is unchanged exactly when the displayed board is won or square `i` is taken; otherwise the history is the first `stepNumber + 1` entries plus one, the step advances by one, the highlight clears, the turn flips, the order is kept, and the new entry stores `row`, `col` and the displayed board with only square `i` changed, to the mover's mark |
| `Game.JumpTo` | src/index.js:86-92 | the step and highlight become `step`, the turn follows the parity of `step`, history and order are unchanged |
| `Game.ToggleSort` | src/index.js:130-132 | the order flag flips and every other field is unchanged |
| `Game.GameStatus` | src/index.js:113-118 | the status shows a winner exactly when the displayed board has one, and otherwise names X as next exactly when `xIsNext` |
| `Game.RepeatedClickIgnored` | src/index.js:70-73 | a second click on the same square right after the first leaves the state as the first click left it |
| `Game.JumpThenClick` | src/index.js:67-80 | a move after jumping to `step` leaves `step + 2` entries, the first `step + 1` of them unchanged, and the pointer at `step + 1` |
| `Invariants.InitInv` | src/index.js:53-63 | the fresh game satisfies the invariant of reachable states |
| `Invariants.ChainExtend` | src/index.js:67-79 | discarding the entries after `n` and appending a legal move from entry `n` keeps every entry one move after its predecessor |
| `Invariants.HandleClickInv` | src/index.js:66-84 | a click forwarded by the board (index matching coordinates) keeps the invariant, including turn parity |
| `Invariants.JumpToInv` | src/index.js:86-92 | a jump to an existing entry keeps the invariant, including turn parity and the highlight inside the history |
| `Invariants.ToggleSortInv` | src/index.js:130-132 | the order button keeps the invariant |
| `Invariants.EntryCounts` | src/index.js:67-79 | on a reachable state entry `k` holds `(k+1)/2` X's, `k/2` O's and `9-k` empty squares |
| `Invariants.HistoryBounded` | src/index.js:67-80 | a reachable history has at most ten entries |
| `Invariants.FullBoardIgnoresClicks` | src/index.js:70-72 | at step 9 every click is ignored |
| `Invariants.OnlyLastEntryWon` | src/index.js:70-79 | no entry except the last of a reachable history shows a won board |
| `Invariants.WinnerIndependentOfOrder` | src/index.js:152-157 | on a reachable board every owned line names the winner, so the checking order is irrelevant |
| `Invariants.StatusNamesPlayerBehind` | src/index.js:113-118 | while no one has won, the status names X as next exactly when both players have placed equally many marks |
| `Invariants.Step` | src/index.js:107-132 | an action succeeds exactly when the view can issue it (square coordinates in 1..3, jump to an existing entry, the order button) and keeps the step pointer inside the history |
| `Invariants.Run` | src/index.js:66-92 | a sequence of issuable actions keeps the step pointer inside the history |
| `Invariants.StepInv` | src/index.js:66-92 | each issuable action keeps the invariant |
| `Invariants.RunInv` | src/index.js:66-92 | any sequence of issuable actions keeps the invariant |
| `Invariants.Reachable` | src/index.js:51-92 | every state reached from a fresh game satisfies the invariant, has `xIsNext` exactly at even steps, and has its pointer inside a history of at most ten entries |
| `Moves.Reverse` | src/index.js:95 | the reversed history has the same length and position `j` holds the entry `j` places from the end |
| `Moves.ReverseInvolution` | src/index.js:95 | reversing twice gives the history back |
| `Moves.MoveList` | src/index.js:95-111 | one listed move per entry; each move's number is the original index of the entry it shows (`|history| - 1 - pos` when descending, `pos` otherwise), and a move is highlighted exactly when its number is `selectedButton` |
| `Moves.EachEntryListedOnce` | src/index.js:99-100 | entry `k` is listed at exactly one position, under number `k` |
| `Moves.ToggleReversesList` | src/index.js:95-100 | flipping the order reverses the listed moves with their numbers, so each entry keeps its number in both orders |
| `Layout.CellIndex` | src/index.js:23-27 | square (row, col) with row and col in 1..3 is an index in 0..8 |
| `Layout.CoordinatesRoundTrip` | src/index.js:23-27 | row and column are read back from the index of (row, col) |
| `Layout.IndexRoundTrip` | src/index.js:23-27 | every index 0..8 is the index of its own (row, col), so the mapping is a bijection |
| `Layout.RenderRow` | src/index.js:22-28 | row `rownum` lists three squares, columns 1..3 left to right, each carrying its index and coordinates |
| `Layout.RenderBoard` | src/index.js:39-41 | the rows render from row 3 down, so top to bottom and left to right the squares are indices 0..8 in order, each with coordinates addressing its own index |

## Left out

- The React markup (`Square`, the JSX of `Board.render` and `Game.render`), the CSS import and `ReactDOM.render`: presentation and DOM output. Only the index arithmetic of the board and the numbering of the move list are modelled.
- The asynchronous, batched behaviour of `setState`: each transition replaces the whole state record at once.
- The status and description texts (`'Winner '`, `'Next player: '`, `'Go to move #'` with the column printed before the row): formatting only; `Game.GameStatus` models which player the status names, `Moves.MoveList` the move number.
- The list `key` and `value` attributes of each move: React bookkeeping.
- JavaScript truthiness, `null` marks and writes outside the array: squares are `Empty | Occupied(X | O)`, and `Game.HandleClick` requires a square index in 0..8 and a step pointer inside the history, which the source never checks but always provides.
- `Game.JumpTo` places no bound on `step`, as the source; the invariant lemmas require `step` to name an existing entry, which holds for every button of the move list (`Moves.MoveList` numbers lie inside the history).
