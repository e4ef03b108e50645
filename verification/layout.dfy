/**
 * Board coordinates. A square is addressed either by its index 0..8 or by a
 * (row, column) pair in 1..3, where row 3 is the top row and column 1 the left
 * column. The board renders its rows from row 3 down to row 1.
 */
module Layout {

  /** The index of the square at (`row`, `col`): the row offset `3 * (3 - row)` plus `col - 1`. */
  function CellIndex(row: int, col: int): (i: int)
    requires 1 <= row <= 3 && 1 <= col <= 3
    ensures 0 <= i < 9
  {
    3 * (3 - row) + col - 1
  }

  /** The row (1..3, top row 3) holding square `i`. */
  function RowOf(i: int): (row: int)
    requires 0 <= i < 9
    ensures 1 <= row <= 3
  {
    3 - i / 3
  }

  /** The column (1..3, left column 1) holding square `i`. */
  function ColOf(i: int): (col: int)
    requires 0 <= i < 9
    ensures 1 <= col <= 3
  {
    i % 3 + 1
  }

  /** The coordinates of a square can be read back from its index. */
  lemma CoordinatesRoundTrip(row: int, col: int)
    requires 1 <= row <= 3 && 1 <= col <= 3
    ensures RowOf(CellIndex(row, col)) == row && ColOf(CellIndex(row, col)) == col
  {
  }

  /** Every index is addressed by some coordinate pair: together, the mapping is a bijection. */
  lemma IndexRoundTrip(i: int)
    requires 0 <= i < 9
    ensures CellIndex(RowOf(i), ColOf(i)) == i
  {
  }

  /** One rendered square: its board index and the coordinates its click handler passes on. */
  datatype Square = Square(index: int, row: int, col: int)

  /** The three squares of row `rownum`, left to right, as `Board.renderRow` lays them out. */
  method RenderRow(rownum: int) returns (squares: seq<Square>)
    requires 1 <= rownum <= 3
    ensures |squares| == 3
    ensures forall c :: 0 <= c < 3 ==>
              squares[c].row == rownum && squares[c].col == c + 1
              && squares[c].index == CellIndex(rownum, c + 1)
  {
    var squareoffset := 3 * (3 - rownum);
    squares := [];
    var colnum := 1;
    while colnum < 4
      invariant 1 <= colnum <= 4
      invariant |squares| == colnum - 1
      invariant forall c :: 0 <= c < colnum - 1 ==>
                  squares[c] == Square(squareoffset + c, rownum, c + 1)
    {
      squares := squares + [Square(squareoffset + colnum - 1, rownum, colnum)];
      colnum := colnum + 1;
    }
  }

  /**
   * The rows of the board in rendering order, row 3 first. Read top to bottom
   * and left to right, the squares are the indices 0..8 in order, and each
   * square's coordinates address its own index.
   */
  method RenderBoard() returns (rows: seq<seq<Square>>)
    ensures |rows| == 3
    ensures forall r :: 0 <= r < 3 ==> |rows[r]| == 3
    ensures forall r, c :: 0 <= r < 3 && 0 <= c < 3 ==>
              rows[r][c].index == 3 * r + c
              && 1 <= rows[r][c].row <= 3 && 1 <= rows[r][c].col <= 3
              && CellIndex(rows[r][c].row, rows[r][c].col) == rows[r][c].index
    ensures forall c :: 0 <= c < 3 ==> rows[0][c].row == 3
  {
    rows := [];
    var rownum := 3;
    while rownum > 0
      invariant 0 <= rownum <= 3
      invariant |rows| == 3 - rownum
      invariant forall r :: 0 <= r < |rows| ==> |rows[r]| == 3
      invariant forall r, c :: 0 <= r < |rows| && 0 <= c < 3 ==>
                  rows[r][c].index == 3 * r + c && rows[r][c].row == 3 - r
                  && rows[r][c].col == c + 1
    {
      var row := RenderRow(rownum);
      rows := rows + [row];
      rownum := rownum - 1;
    }
  }
}
