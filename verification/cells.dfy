/** Cells, players and boards of the 3x3 game, and counting of cell contents. */
module Cells {

  /** The two marks a square can hold. */
  datatype Player = X | O

  /** A square is empty (`null` in the component) or holds a player's mark. */
  datatype Cell = Empty | Occupied(player: Player)

  /** A board snapshot: the nine squares, indexed 0..8 from the top-left corner. */
  type Board = b: seq<Cell> | |b| == 9
    witness [Empty, Empty, Empty, Empty, Empty, Empty, Empty, Empty, Empty]

  /** The board the game starts from, every square empty. */
  function EmptyBoard(): (b: Board)
    ensures forall i :: 0 <= i < 9 ==> b[i] == Empty
  {
    [Empty, Empty, Empty, Empty, Empty, Empty, Empty, Empty, Empty]
  }

  /** The mark placed by the player whose turn flag is `xIsNext`. */
  function MarkOf(xIsNext: bool): (p: Player)
  {
    if xIsNext then X else O
  }

  /** The number of squares of `b` that hold `c`. */
  function Count(b: seq<Cell>, c: Cell): (n: nat)
  {
    if |b| == 0 then 0 else (if b[0] == c then 1 else 0) + Count(b[1..], c)
  }

  /** A count is zero exactly when the value occurs nowhere. */
  lemma {:induction false} CountZero(b: seq<Cell>, c: Cell)
    ensures Count(b, c) == 0 <==> forall i :: 0 <= i < |b| ==> b[i] != c
  {
    if |b| > 0 {
      CountZero(b[1..], c);
      assert forall i :: 1 <= i < |b| ==> b[i] == b[1..][i - 1];
    }
  }

  /** Every square is empty, X or O, so the three counts add up to the board size. */
  lemma {:induction false} CountPartition(b: seq<Cell>)
    ensures Count(b, Empty) + Count(b, Occupied(X)) + Count(b, Occupied(O)) == |b|
  {
    if |b| > 0 {
      CountPartition(b[1..]);
      match b[0]
      case Empty =>
      case Occupied(p) => assert p == X || p == O;
    }
  }

  /** Overwriting square `i` removes one occurrence of the old value and adds one of the new. */
  lemma {:induction false} CountUpdate(b: seq<Cell>, i: nat, v: Cell, c: Cell)
    requires i < |b|
    ensures Count(b[i := v], c)
            == Count(b, c) - (if b[i] == c then 1 else 0) + (if v == c then 1 else 0)
  {
    if i > 0 {
      CountUpdate(b[1..], i - 1, v, c);
      assert b[i := v][1..] == b[1..][i - 1 := v];
    } else {
      assert b[i := v][1..] == b[1..];
    }
  }
}
