/**
 * Win detection: a board is won by a player who holds all three squares of one
 * of eight fixed lines. The lines are checked in a fixed order and the first
 * line whose three squares hold the same mark decides the winner.
 */
module Winner {
  import opened Options
  import opened Cells

  /** A line: the indices of three squares. */
  datatype Line = Line(a: nat, b: nat, c: nat)

  /** The eight lines in checking order: three rows, three columns, two diagonals. */
  const Lines: seq<Line> := [
    Line(0, 1, 2),
    Line(3, 4, 5),
    Line(6, 7, 8),
    Line(0, 3, 6),
    Line(1, 4, 7),
    Line(2, 5, 8),
    Line(0, 4, 8),
    Line(2, 4, 6)
  ]

  /** Every line's squares lie on the board. */
  lemma LinesOnBoard()
    ensures |Lines| == 8
    ensures forall j :: 0 <= j < |Lines| ==> Lines[j].a < 9 && Lines[j].b < 9 && Lines[j].c < 9
  {
  }

  /** Player `p` holds all three squares of line `j`. */
  predicate OwnedBy(sq: Board, j: nat, p: Player)
    requires j < |Lines|
  {
    var l := Lines[j];
    sq[l.a] == Occupied(p) && sq[l.b] == Occupied(p) && sq[l.c] == Occupied(p)
  }

  /** Line `j` is won: its three squares are occupied by the same mark. */
  predicate Won(sq: Board, j: nat)
    requires j < |Lines|
  {
    var l := Lines[j];
    sq[l.a] != Empty && sq[l.a] == sq[l.b] && sq[l.a] == sq[l.c]
  }

  /** A line is won exactly when one of the players owns it. */
  lemma WonIffOwned(sq: Board, j: nat)
    requires j < |Lines|
    ensures Won(sq, j) <==> OwnedBy(sq, j, X) || OwnedBy(sq, j, O)
  {
    match sq[Lines[j].a]
    case Empty =>
    case Occupied(p) => assert p == X || p == O;
  }

  /** The index of the first won line at or after position `k` in checking order. */
  function FirstWonLine(sq: Board, k: nat): (r: Option<nat>)
    requires k <= |Lines|
    decreases |Lines| - k
    ensures r.Some? ==> k <= r.value < |Lines| && Won(sq, r.value)
    ensures r.Some? ==> forall j :: k <= j < r.value ==> !Won(sq, j)
    ensures r.None? <==> forall j :: k <= j < |Lines| ==> !Won(sq, j)
  {
    if k == |Lines| then None
    else if Won(sq, k) then Some(k)
    else FirstWonLine(sq, k + 1)
  }

  /**
   * The winner of `sq`, or `None` when no line is won. A winner `p` owns a line
   * that comes before every other won line.
   */
  function CalculateWinner(sq: Board): (r: Option<Player>)
    ensures r.Some? ==> exists j :: 0 <= j < |Lines| && OwnedBy(sq, j, r.value)
                                    && forall j' :: 0 <= j' < j ==> !Won(sq, j')
    ensures r.None? <==> forall j :: 0 <= j < |Lines| ==> !Won(sq, j)
  {
    match FirstWonLine(sq, 0)
    case None => None
    case Some(j) =>
      assert OwnedBy(sq, j, sq[Lines[j].a].player);
      Some(sq[Lines[j].a].player)
  }

  /** A player who owns line `j`, with no earlier line won, is the winner: the first won line in order decides. */
  lemma FirstLineDecides(sq: Board, j: nat, p: Player)
    requires j < |Lines| && OwnedBy(sq, j, p)
    requires forall j' :: 0 <= j' < j ==> !Won(sq, j')
    ensures CalculateWinner(sq) == Some(p)
  {
  }

  /** On a board where every owned line is owned by `p`, any line `p` owns names `p` as the winner. */
  lemma WonLineNamesWinner(sq: Board, j: nat, p: Player)
    requires j < |Lines| && OwnedBy(sq, j, p)
    requires forall j', q :: 0 <= j' < |Lines| && OwnedBy(sq, j', q) ==> q == p
    ensures CalculateWinner(sq) == Some(p)
  {
  }

  /**
   * Placing one mark on a board that has no won line wins only lines through
   * the new square, and only for the player who placed it.
   */
  lemma NewWinOwnsMove(sq: Board, i: nat, p: Player, next: Board)
    requires i < 9 && sq[i] == Empty && next == sq[i := Occupied(p)]
    requires CalculateWinner(sq).None?
    ensures forall j, q :: 0 <= j < |Lines| && OwnedBy(next, j, q) ==>
              q == p && (Lines[j].a == i || Lines[j].b == i || Lines[j].c == i)
  {
  }
}
