/** The click handler: from the pointer's position on the page to a board
    cell, and the report of what the starting position holds there. The
    board is only read. Coordinates are integer pixels; the surface's
    on-page offset (`left`, `top`) is given. */
module Pointer {
  import opened Board

  /** What the handler reports about the clicked cell. */
  datatype Outcome =
    | Piece(code: string)  // the cell holds this piece code
    | EmptyCell            // the cell's entry is empty, or the column is outside the row
    | RowUndefined         // the row is outside the board: reading a column of it throws

  /** The cell the handler computed and what it found there. */
  datatype ClickReport = ClickReport(row: int, col: int, outcome: Outcome)

  /** The cell index along one axis: the surface-local coordinate divided by
      the cell size, rounded down (also below zero). */
  function CellIndex(client: int, origin: int, cellSize: int): (i: int)
    requires cellSize > 0
    ensures i * cellSize <= client - origin < (i + 1) * cellSize
  {
    (client - origin) / cellSize
  }

  /** The entry at (row, col), read the way the page's script reads nested
      arrays: a missing row cannot be indexed, a missing column reads as
      nothing, and an empty code counts as nothing. */
  function LookUp(board: seq<seq<string>>, row: int, col: int): Outcome {
    if !(0 <= row < |board|) then RowUndefined
    else if 0 <= col < |board[row]| && board[row][col] != "" then Piece(board[row][col])
    else EmptyCell
  }

  /** A click at page position (clientX, clientY) on a surface whose
      top-left corner is at (left, top). */
  function HandleClick(board: seq<seq<string>>, clientX: int, clientY: int, left: int, top: int, cellSize: int): ClickReport
    requires cellSize > 0
  {
    var col := CellIndex(clientX, left, cellSize);
    var row := CellIndex(clientY, top, cellSize);
    ClickReport(row, col, LookUp(board, row, col))
  }

  /** The index is below i exactly when the coordinate lies before band i:
      cell indices grow with the coordinate. */
  lemma CellIndexBelow(client: int, origin: int, cellSize: int, i: int)
    requires cellSize > 0
    ensures CellIndex(client, origin, cellSize) < i <==> client - origin < i * cellSize
  {
  }

  /** A coordinate maps to index i exactly when it lies in band i: the
      computed index is the only one whose band holds the pixel. */
  lemma CellIndexUnique(client: int, origin: int, cellSize: int, i: int)
    requires cellSize > 0
    ensures CellIndex(client, origin, cellSize) == i
        <==> i * cellSize <= client - origin < (i + 1) * cellSize
  {
    CellIndexBelow(client, origin, cellSize, i);
    CellIndexBelow(client, origin, cellSize, i + 1);
  }

  /** A coordinate on the surface maps to an index in 0..7. */
  lemma CellIndexInRange(client: int, origin: int, cellSize: int)
    requires cellSize > 0
    requires 0 <= client - origin < BoardSize * cellSize
    ensures 0 <= CellIndex(client, origin, cellSize) < BoardSize
  {
    CellIndexBelow(client, origin, cellSize, 0);
    CellIndexBelow(client, origin, cellSize, BoardSize);
  }

  /** A click on the surface of a grid board lands in a cell of the board,
      inside that cell's square, and reports that cell's code, or
      `EmptyCell` exactly when the code is empty. */
  lemma ClickOnSurface(board: seq<seq<string>>, clientX: int, clientY: int, left: int, top: int, cellSize: int)
    requires IsGrid(board) && cellSize > 0
    requires 0 <= clientX - left < BoardSize * cellSize
    requires 0 <= clientY - top < BoardSize * cellSize
    ensures var r := HandleClick(board, clientX, clientY, left, top, cellSize);
      && 0 <= r.row < BoardSize && 0 <= r.col < BoardSize
      && r.col * cellSize <= clientX - left < (r.col + 1) * cellSize
      && r.row * cellSize <= clientY - top < (r.row + 1) * cellSize
      && (r.outcome == EmptyCell <==> board[r.row][r.col] == "")
      && (r.outcome != EmptyCell ==> r.outcome == Piece(board[r.row][r.col]))
  {
    CellIndexInRange(clientX, left, cellSize);
    CellIndexInRange(clientY, top, cellSize);
  }

  /** Off the surface: a row above or below the board cannot be read, and a
      column left or right of it within a board row reads as empty. */
  lemma ClickOffSurface(board: seq<seq<string>>, clientX: int, clientY: int, left: int, top: int, cellSize: int)
    requires IsGrid(board) && cellSize > 0
    ensures (clientY - top < 0 || BoardSize * cellSize <= clientY - top)
        ==> HandleClick(board, clientX, clientY, left, top, cellSize).outcome == RowUndefined
    ensures (0 <= clientY - top < BoardSize * cellSize)
        && (clientX - left < 0 || BoardSize * cellSize <= clientX - left)
        ==> HandleClick(board, clientX, clientY, left, top, cellSize).outcome == EmptyCell
  {
    CellIndexBelow(clientY, top, cellSize, 0);
    CellIndexBelow(clientY, top, cellSize, BoardSize);
    CellIndexBelow(clientX, left, cellSize, 0);
    CellIndexBelow(clientX, left, cellSize, BoardSize);
  }

  /** The surface's top-left pixel is in cell (0, 0); with cells of at least
      two pixels, the pixel one past the corner of cell (7, 7) is in (7, 7). */
  lemma CornerClicks(board: seq<seq<string>>, left: int, top: int, cellSize: int)
    requires cellSize > 0
    ensures var r := HandleClick(board, left, top, left, top, cellSize);
      r.row == 0 && r.col == 0
    ensures cellSize >= 2 ==>
      var r := HandleClick(board, left + 7 * cellSize + 1, top + 7 * cellSize + 1, left, top, cellSize);
      r.row == 7 && r.col == 7
  {
    CellIndexUnique(left, left, cellSize, 0);
    if cellSize >= 2 {
      CellIndexUnique(left + 7 * cellSize + 1, left, cellSize, 7);
      CellIndexUnique(top + 7 * cellSize + 1, top, cellSize, 7);
    }
  }

  /** On the starting position, a click on the surface reports a piece in
      rows 0, 1, 6 and 7 and an empty cell in rows 2 to 5; row 6 is all
      white pawns. */
  lemma InitialClicks(clientX: int, clientY: int, left: int, top: int, cellSize: int)
    requires cellSize > 0
    requires 0 <= clientX - left < BoardSize * cellSize
    requires 0 <= clientY - top < BoardSize * cellSize
    ensures var r := HandleClick(InitialBoardState, clientX, clientY, left, top, cellSize);
      && (r.outcome == EmptyCell <==> 2 <= r.row <= 5)
      && (r.outcome.Piece? ==> r.outcome.code in PieceImages)
      && (r.row == 6 ==> r.outcome == Piece("wp"))
  {
    InitialBands();
    InitialRanks();
    ClickOnSurface(InitialBoardState, clientX, clientY, left, top, cellSize);
  }
}
