/** The board renderer. The drawing surface is abstracted as the log of
    drawing commands issued to it, in order: one clear of the whole surface,
    then for each of the 64 cells in row-major order a fill of the cell in
    its checkerboard colour, followed by the piece's sprite when the cell
    holds a code whose image has been loaded. */
module Render {
  import opened Board
  import opened Preload

  /** Fill colour of the cells with even row + column. */
  const LightSquareColor: string := "#000000"

  /** Fill colour of the cells with odd row + column. */
  const DarkSquareColor: string := "#F8F8F8"

  /** A drawing command, in integer pixels. */
  datatype Command =
    | ClearRect(x: int, y: int, w: int, h: int)
    | FillRect(x: int, y: int, w: int, h: int, colour: string)
    | DrawImage(img: Image, x: int, y: int, w: int, h: int)

  /** Checkerboard colour of cell (row, col). */
  function SquareColour(row: int, col: int): string {
    if (row + col) % 2 == 0 then LightSquareColor else DarkSquareColor
  }

  /** The cell holds a piece code and that code's image is loaded. */
  predicate Drawable(board: seq<seq<string>>, loaded: map<string, Image>, row: nat, col: nat)
    requires IsGrid(board) && row < BoardSize && col < BoardSize
  {
    board[row][col] != "" && board[row][col] in loaded
  }

  /** A code that gets a sprite: non-empty, with its image loaded. */
  function LoadedCode(loaded: map<string, Image>): string -> bool {
    code => code != "" && code in loaded
  }

  /** The sprite of a drawable cell: its loaded image, placed `padding`
      pixels inside the cell on every side. */
  function SpriteFor(board: seq<seq<string>>, loaded: map<string, Image>, cellSize: int, padding: int, row: nat, col: nat): Command
    requires IsGrid(board) && row < BoardSize && col < BoardSize
    requires Drawable(board, loaded, row, col)
  {
    var pieceSize := cellSize - padding * 2;
    DrawImage(loaded[board[row][col]], col * cellSize + padding, row * cellSize + padding, pieceSize, pieceSize)
  }

  /** The fill of cell (row, col): the whole cell in its checkerboard colour. */
  function CellFill(cellSize: int, row: nat, col: nat): Command {
    FillRect(col * cellSize, row * cellSize, cellSize, cellSize, SquareColour(row, col))
  }

  /** The commands issued for one cell. */
  function CellCommands(board: seq<seq<string>>, loaded: map<string, Image>, cellSize: int, padding: int, row: nat, col: nat): seq<Command>
    requires IsGrid(board) && row < BoardSize && col < BoardSize
  {
    [CellFill(cellSize, row, col)]
    + (if Drawable(board, loaded, row, col) then [SpriteFor(board, loaded, cellSize, padding, row, col)] else [])
  }

  /** The commands of every cell, indexed by the cell's row-major position. */
  function Cells(board: seq<seq<string>>, loaded: map<string, Image>, cellSize: int, padding: int): seq<seq<Command>>
    requires IsGrid(board)
  {
    seq(CellCount, k requires 0 <= k < CellCount =>
      CellCommands(board, loaded, cellSize, padding, k / BoardSize, k % BoardSize))
  }

  /** The concatenation of the parts, in order. */
  function Flatten(parts: seq<seq<Command>>): seq<Command> {
    if parts == [] then [] else Flatten(parts[..|parts| - 1]) + parts[|parts| - 1]
  }

  /** The whole repaint: clear the surface, then every cell. */
  function DrawPlan(board: seq<seq<string>>, loaded: map<string, Image>, cellSize: int, padding: int, width: int, height: int): seq<Command>
    requires IsGrid(board)
  {
    [ClearRect(0, 0, width, height)] + Flatten(Cells(board, loaded, cellSize, padding))
  }

  /** The fill commands of a log, in order. */
  function Fills(log: seq<Command>): seq<Command> {
    if log == [] then []
    else Fills(log[..|log| - 1]) + (if log[|log| - 1].FillRect? then [log[|log| - 1]] else [])
  }

  /** The sprite commands of a log, in order. */
  function Sprites(log: seq<Command>): seq<Command> {
    if log == [] then []
    else Sprites(log[..|log| - 1]) + (if log[|log| - 1].DrawImage? then [log[|log| - 1]] else [])
  }

  /** Cell k of the row-major walk is cell (k / 8, k % 8), and back. */
  lemma RowMajor(row: nat, col: nat)
    requires col < BoardSize
    ensures (row * BoardSize + col) / BoardSize == row
    ensures (row * BoardSize + col) % BoardSize == col
  {
  }

  /** Taking one more part appends that part. */
  lemma FlattenStep(parts: seq<seq<Command>>, k: nat)
    requires k < |parts|
    ensures Flatten(parts[..k + 1]) == Flatten(parts[..k]) + parts[k]
  {
    assert parts[..k + 1][..k] == parts[..k];
  }

  lemma {:induction false} FillsAppend(a: seq<Command>, b: seq<Command>)
    ensures Fills(a + b) == Fills(a) + Fills(b)
  {
    if b != [] {
      assert (a + b)[..|a + b| - 1] == a + b[..|b| - 1];
      FillsAppend(a, b[..|b| - 1]);
    } else {
      assert a + b == a;
    }
  }

  lemma {:induction false} SpritesAppend(a: seq<Command>, b: seq<Command>)
    ensures Sprites(a + b) == Sprites(a) + Sprites(b)
  {
    if b != [] {
      assert (a + b)[..|a + b| - 1] == a + b[..|b| - 1];
      SpritesAppend(a, b[..|b| - 1]);
    } else {
      assert a + b == a;
    }
  }

  /** A cell's commands start with its one fill; a sprite, if any, follows it. */
  lemma CellShape(board: seq<seq<string>>, loaded: map<string, Image>, cellSize: int, padding: int, row: nat, col: nat)
    requires IsGrid(board) && row < BoardSize && col < BoardSize
    ensures var cell := CellCommands(board, loaded, cellSize, padding, row, col);
      && |cell| > 0
      && Fills(cell) == [cell[0]]
      && |Sprites(cell)| == (if Drawable(board, loaded, row, col) then 1 else 0)
  {
    var cell := CellCommands(board, loaded, cellSize, padding, row, col);
    assert [cell[0]][..0] == [];
    assert cell[0].FillRect?;
    if Drawable(board, loaded, row, col) {
      assert cell[1] == SpriteFor(board, loaded, cellSize, padding, row, col);
      assert cell[..1] == [cell[0]];
      assert Sprites([cell[0]]) == [];
      assert Sprites(cell) == Sprites(cell[..1]) + [cell[1]];
    } else {
      assert cell == [cell[0]];
    }
  }

  /** The light colour goes exactly to the cells of even parity, the dark
      colour to the others, so orthogonally adjacent cells always differ. */
  lemma SquareColours(row: int, col: int)
    ensures SquareColour(row, col) == LightSquareColor <==> (row + col) % 2 == 0
    ensures SquareColour(row, col) == DarkSquareColor <==> (row + col) % 2 != 0
    ensures SquareColour(row, col) != SquareColour(row, col + 1)
    ensures SquareColour(row, col) != SquareColour(row + 1, col)
  {
    assert LightSquareColor[1] != DarkSquareColor[1];
  }

  /** Cell k of the row-major walk is cell (k / 8, k % 8). */
  lemma CellsAt(board: seq<seq<string>>, loaded: map<string, Image>, cellSize: int, padding: int, row: nat, col: nat)
    requires IsGrid(board) && row < BoardSize && col < BoardSize
    ensures row * BoardSize + col < |Cells(board, loaded, cellSize, padding)|
    ensures Cells(board, loaded, cellSize, padding)[row * BoardSize + col]
         == CellCommands(board, loaded, cellSize, padding, row, col)
  {
    RowMajor(row, col);
  }

  /** The commands issued once the walk has passed the first k cells: the
      clear, then those cells' commands. */
  function DrawnUpTo(board: seq<seq<string>>, loaded: map<string, Image>, cellSize: int, padding: int,
                     width: int, height: int, k: nat): seq<Command>
    requires IsGrid(board) && k <= CellCount
  {
    [ClearRect(0, 0, width, height)] + Flatten(Cells(board, loaded, cellSize, padding)[..k])
  }

  /** Walking one more cell appends that cell's commands. */
  lemma DrawnStep(board: seq<seq<string>>, loaded: map<string, Image>, cellSize: int, padding: int,
                  width: int, height: int, row: nat, col: nat)
    requires IsGrid(board) && row < BoardSize && col < BoardSize
    ensures DrawnUpTo(board, loaded, cellSize, padding, width, height, row * BoardSize + col + 1)
         == DrawnUpTo(board, loaded, cellSize, padding, width, height, row * BoardSize + col)
            + CellCommands(board, loaded, cellSize, padding, row, col)
  {
    CellsAt(board, loaded, cellSize, padding, row, col);
    FlattenStep(Cells(board, loaded, cellSize, padding), row * BoardSize + col);
  }

  /** Once every cell is passed, the commands issued are the whole repaint. */
  lemma DrawnAll(board: seq<seq<string>>, loaded: map<string, Image>, cellSize: int, padding: int, width: int, height: int)
    requires IsGrid(board)
    ensures DrawnUpTo(board, loaded, cellSize, padding, width, height, CellCount)
         == DrawPlan(board, loaded, cellSize, padding, width, height)
  {
    assert Cells(board, loaded, cellSize, padding)[..CellCount] == Cells(board, loaded, cellSize, padding);
  }

  /** When every part starts with its one fill, the fills of the
      concatenation are the parts' first commands, one per part, in order. */
  lemma {:induction false} FlattenFills(parts: seq<seq<Command>>)
    requires forall i :: 0 <= i < |parts| ==> |parts[i]| > 0 && Fills(parts[i]) == [parts[i][0]]
    ensures |Fills(Flatten(parts))| == |parts|
    ensures forall i :: 0 <= i < |parts| ==> Fills(Flatten(parts))[i] == parts[i][0]
  {
    if parts != [] {
      var init := parts[..|parts| - 1];
      var last := parts[|parts| - 1];
      FlattenFills(init);
      FillsAppend(Flatten(init), last);
    }
  }

  /** A command is in the concatenation iff it is in one of the parts. */
  lemma {:induction false} FlattenMember(parts: seq<seq<Command>>, cmd: Command)
    ensures cmd in Flatten(parts) <==> exists i :: 0 <= i < |parts| && cmd in parts[i]
  {
    if parts != [] {
      var init := parts[..|parts| - 1];
      FlattenMember(init, cmd);
      if exists i :: 0 <= i < |parts| && cmd in parts[i] {
        var i :| 0 <= i < |parts| && cmd in parts[i];
        if i < |parts| - 1 {
          assert init[i] == parts[i];
        }
      }
      if cmd in Flatten(init) {
        var i :| 0 <= i < |init| && cmd in init[i];
        assert parts[i] == init[i];
      }
    }
  }

  /** A repaint issues exactly 64 fills, one per cell in row-major order,
      each covering its cell in the checkerboard colour. */
  lemma PlanFills(board: seq<seq<string>>, loaded: map<string, Image>, cellSize: int, padding: int, width: int, height: int)
    requires IsGrid(board)
    ensures |Fills(DrawPlan(board, loaded, cellSize, padding, width, height))| == CellCount
    ensures forall i :: 0 <= i < CellCount ==>
      (Fills(DrawPlan(board, loaded, cellSize, padding, width, height))[i]
       == FillRect((i % BoardSize) * cellSize, (i / BoardSize) * cellSize, cellSize, cellSize,
                   SquareColour(i / BoardSize, i % BoardSize)))
  {
    var clear := ClearRect(0, 0, width, height);
    var cells := Cells(board, loaded, cellSize, padding);
    forall i | 0 <= i < |cells|
      ensures |cells[i]| > 0 && Fills(cells[i]) == [cells[i][0]]
    {
      CellShape(board, loaded, cellSize, padding, i / BoardSize, i % BoardSize);
    }
    FlattenFills(cells);
    FillsAppend([clear], Flatten(cells));
    assert [clear][..0] == [];
    assert Fills([clear]) == [];
  }

  /** Cell k of the walk issues one sprite if its code is non-empty and
      loaded, and none otherwise. */
  lemma CellSpriteCount(board: seq<seq<string>>, loaded: map<string, Image>, cellSize: int, padding: int, k: nat)
    requires IsGrid(board) && k < CellCount
    ensures |Sprites(Cells(board, loaded, cellSize, padding)[k])|
         == if LoadedCode(loaded)(CellAt(board, k)) then 1 else 0
  {
    var row, col := k / BoardSize, k % BoardSize;
    CellShape(board, loaded, cellSize, padding, row, col);
  }

  /** Over the first k cells, there is one sprite per drawable cell among them. */
  lemma {:induction false} SpriteCountUpTo(board: seq<seq<string>>, loaded: map<string, Image>, cellSize: int, padding: int, k: nat)
    requires IsGrid(board) && k <= CellCount
    ensures |Sprites(Flatten(Cells(board, loaded, cellSize, padding)[..k]))|
         == CountCells(board, LoadedCode(loaded), k)
  {
    if k > 0 {
      var cells := Cells(board, loaded, cellSize, padding);
      SpriteCountUpTo(board, loaded, cellSize, padding, k - 1);
      CellSpriteCount(board, loaded, cellSize, padding, k - 1);
      assert |Sprites(Flatten(cells[..k]))| == |Sprites(Flatten(cells[..k - 1]))| + |Sprites(cells[k - 1])| by {
        FlattenStep(cells, k - 1);
        SpritesAppend(Flatten(cells[..k - 1]), cells[k - 1]);
      }
    }
  }

  /** A repaint issues one sprite per cell that holds a code whose image is loaded. */
  lemma PlanSpriteCount(board: seq<seq<string>>, loaded: map<string, Image>, cellSize: int, padding: int, width: int, height: int)
    requires IsGrid(board)
    ensures |Sprites(DrawPlan(board, loaded, cellSize, padding, width, height))|
         == CountCells(board, LoadedCode(loaded), CellCount)
  {
    var clear := ClearRect(0, 0, width, height);
    var cells := Cells(board, loaded, cellSize, padding);
    SpriteCountUpTo(board, loaded, cellSize, padding, CellCount);
    assert cells[..CellCount] == cells;
    SpritesAppend([clear], Flatten(cells));
    assert [clear][..0] == [];
  }

  /** A sprite appears in a repaint if and only if it is the sprite of a
      cell holding a code whose image is loaded. */
  lemma PlanSprites(board: seq<seq<string>>, loaded: map<string, Image>, cellSize: int, padding: int, width: int, height: int)
    requires IsGrid(board)
    ensures forall cmd :: cmd in DrawPlan(board, loaded, cellSize, padding, width, height) && cmd.DrawImage? ==>
      exists row, col :: (0 <= row < BoardSize && 0 <= col < BoardSize && Drawable(board, loaded, row, col)
        && cmd == SpriteFor(board, loaded, cellSize, padding, row, col))
    ensures forall row, col :: 0 <= row < BoardSize && 0 <= col < BoardSize && Drawable(board, loaded, row, col) ==>
      SpriteFor(board, loaded, cellSize, padding, row, col) in DrawPlan(board, loaded, cellSize, padding, width, height)
  {
    var plan := DrawPlan(board, loaded, cellSize, padding, width, height);
    var cells := Cells(board, loaded, cellSize, padding);
    forall cmd | cmd in plan && cmd.DrawImage?
      ensures exists row, col :: (0 <= row < BoardSize && 0 <= col < BoardSize && Drawable(board, loaded, row, col)
        && cmd == SpriteFor(board, loaded, cellSize, padding, row, col))
    {
      assert cmd in Flatten(cells);
      FlattenMember(cells, cmd);
      var i :| 0 <= i < |cells| && cmd in cells[i];
      var row, col := i / BoardSize, i % BoardSize;
      var cell := CellCommands(board, loaded, cellSize, padding, row, col);
      assert cells[i] == cell;
      assert cmd != cell[0];
      assert Drawable(board, loaded, row, col) && cmd == SpriteFor(board, loaded, cellSize, padding, row, col);
    }
    forall row, col | 0 <= row < BoardSize && 0 <= col < BoardSize && Drawable(board, loaded, row, col)
      ensures SpriteFor(board, loaded, cellSize, padding, row, col) in plan
    {
      var sprite := SpriteFor(board, loaded, cellSize, padding, row, col);
      CellsAt(board, loaded, cellSize, padding, row, col);
      assert sprite in cells[row * BoardSize + col];
      FlattenMember(cells, sprite);
    }
  }

  /** With a padding below half the cell, a sprite has positive size and
      lies inside its cell, `padding` pixels from each edge. */
  lemma SpriteInset(board: seq<seq<string>>, loaded: map<string, Image>, cellSize: int, padding: int, row: nat, col: nat)
    requires IsGrid(board) && row < BoardSize && col < BoardSize
    requires Drawable(board, loaded, row, col)
    requires 0 <= 2 * padding < cellSize
    ensures var s := SpriteFor(board, loaded, cellSize, padding, row, col);
      && s.img == loaded[board[row][col]]
      && s.w == s.h > 0
      && s.x == col * cellSize + padding && s.x + s.w == (col + 1) * cellSize - padding
      && s.y == row * cellSize + padding && s.y + s.h == (row + 1) * cellSize - padding
  {
  }

  /** Two counts over the same cells agree when their predicates agree on every cell. */
  lemma {:induction false} CountCellsSame(board: seq<seq<string>>, P: string -> bool, Q: string -> bool, k: nat)
    requires IsGrid(board) && k <= CellCount
    requires forall i :: 0 <= i < CellCount ==> (P(CellAt(board, i)) <==> Q(CellAt(board, i)))
    ensures CountCells(board, P, k) == CountCells(board, Q, k)
  {
    if k > 0 {
      CountCellsSame(board, P, Q, k - 1);
    }
  }

  /** Painting the starting position: with every image of the table loaded
      there are 32 sprites; with none loaded only the 64 background fills. */
  lemma InitialSprites(loaded: map<string, Image>, cellSize: int, padding: int, width: int, height: int)
    ensures IsGrid(InitialBoardState)
    ensures PieceImages.Keys <= loaded.Keys ==>
      |Sprites(DrawPlan(InitialBoardState, loaded, cellSize, padding, width, height))| == 32
    ensures PieceImages.Keys !! loaded.Keys ==>
      |Sprites(DrawPlan(InitialBoardState, loaded, cellSize, padding, width, height))| == 0
  {
    var board := InitialBoardState;
    var drawable := LoadedCode(loaded);
    InitialCellBands();
    PlanSpriteCount(board, loaded, cellSize, padding, width, height);
    if PieceImages.Keys <= loaded.Keys {
      assert CountCells(board, drawable, CellCount) == 32 by {
        var empty := (code: string) => code == "";
        InitialCounts();
        CountComplement(board, empty, CellCount);
        CountCellsSame(board, drawable, code => !empty(code), CellCount);
      }
    }
    if PieceImages.Keys !! loaded.Keys {
      assert CountCells(board, drawable, CellCount) == 0 by {
        CountBand(board, drawable, 0, 0, CellCount);
      }
    }
  }

  /** Repaints the surface, issuing the commands in the order of the nested
      row/column walk; the board and the image map are only read. */
  method DrawBoard(board: seq<seq<string>>, loaded: map<string, Image>, cellSize: int, padding: int, width: int, height: int)
    returns (log: seq<Command>)
    requires IsGrid(board)
    ensures log == DrawPlan(board, loaded, cellSize, padding, width, height)
  {
    log := [ClearRect(0, 0, width, height)];
    assert log == DrawnUpTo(board, loaded, cellSize, padding, width, height, 0);
    var row := 0;
    while row < BoardSize
      invariant 0 <= row <= BoardSize
      invariant log == DrawnUpTo(board, loaded, cellSize, padding, width, height, row * BoardSize)
    {
      var col := 0;
      while col < BoardSize
        invariant 0 <= col <= BoardSize
        invariant log == DrawnUpTo(board, loaded, cellSize, padding, width, height, row * BoardSize + col)
      {
        ghost var before := log;
        var color := if (row + col) % 2 == 0 then LightSquareColor else DarkSquareColor;
        log := log + [FillRect(col * cellSize, row * cellSize, cellSize, cellSize, color)];
        var pieceCode := board[row][col];
        if pieceCode != "" && pieceCode in loaded {
          var img := loaded[pieceCode];
          var piecePadding := padding;
          var pieceSize := cellSize - piecePadding * 2;
          log := log + [DrawImage(img, col * cellSize + piecePadding, row * cellSize + piecePadding, pieceSize, pieceSize)];
        }
        assert log == before + CellCommands(board, loaded, cellSize, padding, row, col);
        DrawnStep(board, loaded, cellSize, padding, width, height, row, col);
        col := col + 1;
      }
      row := row + 1;
    }
    DrawnAll(board, loaded, cellSize, padding, width, height);
  }
}
