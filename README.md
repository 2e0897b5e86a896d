# Chessboard canvas page — Dafny model

The page script `script.js` draws a static chessboard on a 2D canvas and logs which square was clicked.
It has no game logic. This project models the four pieces of logic it does have, and proves what they promise:

- **Board data** (`Board.dfy`). The table from two-character piece code to image path, and the starting position.
  The starting position is an 8×8 grid of piece codes, with `""` for an empty square.
  Both are constants, and the lemmas pin down their layout.
- **Image preloading** (`Preload.dfy`). The loader is a class with the same fields as the script:
  `loadedImages`, `imagesLoadedCount` and `totalImagesToLoad`, plus a `resolved` flag for the promise.
  It has one method per callback, `OnLoad` and `OnError`.
  The callbacks run one at a time on the page's event loop, so a run is a sequence of `Load`/`Error` events.
  The pure function `Replay` specifies the state a run leads to. The methods are proved against it, and the lemmas about `Replay` give the counter and barrier properties.
- **Repainting** (`Render.dfy`). The canvas is abstracted as the log of commands issued to it: `ClearRect`, `FillRect` and `DrawImage`.
  `DrawBoard` keeps the script's nested row/column loops and is proved to issue exactly the commands of the function `DrawPlan`.
  `DrawBoard` takes the board as a parameter. The script's `drawBoard` always reads the global `initialBoardState`, and the start-up code passes exactly that board.
  The lemmas about `DrawPlan` cover:
  - the 64 fills and their checkerboard colours;
  - which cells get a sprite;
  - where each sprite lies inside its cell.
- **Click mapping** (`Pointer.dfy`). This converts a pointer position to a cell by floor division and looks the cell up, without changing the board.
  Out-of-range positions are modelled as the script behaves, without a bounds check:
  - a row outside the board makes the lookup throw, shown as `RowUndefined`;
  - a column outside a row reads as nothing, shown as `EmptyCell`.
- **Start-up** (`Startup.dfy`). Paints the board once the loader has signalled "done". It also proves that a click reports the cell whose painted square holds the clicked pixel.

Pixels are integers. `cellSize` is a given positive integer, and the sprite padding is a given integer `padding`.
When `0 <= 2 * padding < cellSize`, the sprite lies inside its cell, `padding` pixels from each edge. It is strictly inside when `padding > 0`.

The colour constants keep the values the script gives them, not their names.
`LightSquareColor` is `#000000` (black) and is used for cells with even `row + col`.
`DarkSquareColor` is `#F8F8F8` (near-white) and is used for cells with odd `row + col`.

`Pointer.CornerClicks` proves that pixel `(7·cellSize + 1, 7·cellSize + 1)` maps to cell (7, 7) only for `cellSize >= 2`.
With a one-pixel cell, that pixel is past the board's edge.

## Model

| member | source | states |
|---|---|---|
| `Board.PieceImagesKeySet` | script.js:14-27 | the image table's keys are exactly the twelve codes listed |
| `Board.PieceImagesCount` | script.js:51 | the table has 12 entries, so `totalImagesToLoad` is 12 |
| `Board.PieceImagesDomain` | script.js:14-27 | a string is a key of the table iff it is a colour `w`/`b` followed by one of `p r n b q k` |
| `Board.InitialBands` | script.js:29-45 | the start position is an 8×8 grid; black codes are exactly in rows 0–1, white codes exactly in rows 6–7, and empty cells exactly in rows 2–5; every non-empty cell has an image path |
| `Board.InitialCellBand` | script.js:31-45 | for one cell (r, c): it is black iff r ≤ 1, white iff r ≥ 6, empty iff 2 ≤ r ≤ 5, and a valid piece code when non-empty |
| `Board.InitialRanks` | script.js:33-44 | rows 0 and 7 hold the back-rank types r,n,b,q,k,b,n,r in black and in white; rows 1 and 6 are all `bp` and all `wp` |
| `Board.InitialCellBands` | script.js:31-45 | in row-major order, cells 0–15 are black, cells 16–47 are empty, and cells 48–63 are white (each an iff); every non-empty cell has an image path |
| `Board.InitialCounts` | script.js:29-45 | the start position holds 16 white codes, 16 black codes and 32 empty squares |
| `Board.CountComplement` | script.js:31-45 | helper of `InitialSprites`: the cells that satisfy a property and the cells that do not together make up all k cells counted |
| `Board.CountBand` | script.js:31-45 | helper of `InitialCounts`: if a property holds exactly on the row-major band [lo, hi), the count over the first k cells is the part of that band below k |
| `Preload.ReplayCount` | script.js:64-78 | every callback, load or error, raises the counter by exactly one |
| `Preload.ReplayLoaded` | script.js:64-70 | after a run, the loaded map holds exactly the codes whose `onload` fired, each mapped to the image with its own path |
| `Preload.ReplayResolved` | script.js:54-78 | "done" has fired iff there was nothing to load or the number of callbacks has reached the total |
| `Preload.DistinctCodes` | script.js:61-79 | a run that repeats no code touches as many codes as it has events |
| `Preload.OneEventEachLength` | script.js:61-79 | if each request settles exactly once, there are as many callbacks as table entries |
| `Preload.CompleteRun` | script.js:54-81 | if each request settles exactly once: the counter never exceeds the total; "done" has not fired before the last callback and has fired after it; the count equals the total; the loaded keys are exactly the table codes whose `onload` fired |
| `Preload.ImageLoader.constructor` | script.js:49-59 | the loaded map is empty, the count is 0, the total is the table size, and "done" fires at once iff the table is empty |
| `Preload.ImageLoader.OnLoad` | script.js:64-70 | stores the code's image, adds 1 to the count, and fires "done" iff the count now equals the total |
| `Preload.ImageLoader.OnError` | script.js:71-78 | adds 1 to the count and leaves the loaded map unchanged; fires "done" iff the count now equals the total |
| `Preload.ImageLoader.Handle` | script.js:61-79 | runs the callback for one event; the new state is `Step` applied to the old state |
| `Preload.ImageLoader.Run` | script.js:61-79 | runs a sequence of callbacks in order; the new state is `Replay` of the old state over the run |
| `Render.SquareColours` | script.js:91 | the cell colour is `LightSquareColor` iff `(row+col) % 2 == 0`, otherwise `DarkSquareColor`; horizontally or vertically adjacent cells always differ |
| `Render.CellShape` | script.js:92-113 | each cell's commands hold exactly one fill, placed first, and one sprite iff the cell is drawable |
| `Render.CellsAt` | script.js:88-89 | helper of `DrawnStep` and `PlanSprites`: the walk's part number `row·8 + col` holds the commands of cell (row, col), so the nested loops visit the cells in row-major order |
| `Render.PlanFills` | script.js:88-95 | a repaint issues exactly 64 fills in row-major order; fill i is at `(col·cellSize, row·cellSize)`, is `cellSize` wide and high, and has that cell's checkerboard colour |
| `Render.CellSpriteCount` | script.js:97-113 | cell k issues one sprite iff its code is non-empty and its image is loaded, and none otherwise |
| `Render.SpriteCountUpTo` | script.js:88-113 | over the first k cells of the walk, there is one sprite for each cell among them whose code is non-empty and loaded |
| `Render.PlanSpriteCount` | script.js:97-113 | a repaint issues one sprite for each cell that holds a non-empty code whose image is loaded |
| `Render.DrawnStep` | script.js:88-116 | helper of `DrawBoard`: one pass of the inner loop body appends exactly the commands of cell (row, col) to what the walk has issued so far |
| `Render.DrawnAll` | script.js:86-117 | helper of `DrawBoard`: once the walk has passed all 64 cells, what it has issued is the whole repaint `DrawPlan` |
| `Render.PlanSprites` | script.js:97-113 | a sprite appears in a repaint iff it is the sprite of a cell whose code is non-empty and loaded; the sprite carries that code's loaded image |
| `Render.SpriteInset` | script.js:102-113 | the sprite has positive size and lies inside its cell, `padding` pixels from each of the four edges |
| `Render.CountCellsSame` | script.js:98-99 | helper of `InitialSprites`: two cell counts agree when their properties agree on every cell |
| `Render.InitialSprites` | script.js:98-99 | on the start position, 32 sprites are drawn when every table image is loaded, and 0 when none is |
| `Render.DrawBoard` | script.js:84-117 | the nested row/column loop issues exactly the commands of `DrawPlan`: one clear, then each cell's fill and optional sprite in row-major order |
| `Pointer.CellIndex` | script.js:133-134 | the index `i` satisfies `i·cellSize <= coordinate - origin < (i+1)·cellSize`, i.e. it is the floor of the quotient, including for negative coordinates |
| `Pointer.CellIndexUnique` | script.js:133-134 | the index equals i iff the canvas-local coordinate lies in band i |
| `Pointer.CellIndexInRange` | script.js:129-134 | a coordinate on the canvas gives an index in 0..7 |
| `Pointer.ClickOnSurface` | script.js:129-143 | a click on the canvas gives (row, col) in 0..7 with the pixel inside that cell's square; it reports the cell's code, and `EmptyCell` iff the code is `''` |
| `Pointer.ClickOffSurface` | script.js:137-143 | a row above or below the board gives `RowUndefined` (the lookup throws); a column outside, on a board row, gives `EmptyCell` |
| `Pointer.CornerClicks` | script.js:129-134 | pixel (0,0) maps to (0,0); when cellSize >= 2, pixel (7·cellSize+1, 7·cellSize+1) maps to (7,7) |
| `Pointer.InitialClicks` | script.js:137-143 | on the start position, a click reports empty iff the row is 2–5; any reported piece has an image path; row 6 reports `wp` |
| `Pointer.CellIndexBelow` | script.js:133-134 | the index is below i iff the coordinate lies before band i, so indices grow with the coordinate and an off-surface coordinate gets an index outside 0..7 |
| `Startup.LoadThenDraw` | script.js:149-160 | paints the board exactly one time once "done" fires (the log of all repaints equals a single `DrawPlan`), using the images loaded at that moment; with fewer callbacks than requests it paints nothing; if each request settles once, the painting uses exactly the loaded images |
| `Startup.OnDomContentLoaded` | script.js:149-154 | the same for the page's own table and start position: nothing is painted before 12 callbacks; after that, the board is painted with the images of the first 12 |
| `Startup.ClickHitsPaintedCell` | script.js:95 | a click on a canvas pixel reports the cell whose painted square holds that pixel and has that cell's colour |
| `Startup.CompleteStartupSprites` | script.js:149-154 | if each request settles once: when every load succeeds, 32 sprites are painted; when every load fails, only the background squares are painted |

## Left out

- The DOM and canvas API are not modelled: getting the canvas and its context, the pixel output, and `getBoundingClientRect`.
  - Drawing is a log of commands.
  - The canvas's on-page offset (`left`, `top`) is a parameter.
  - CSS scaling between the canvas's width and its on-page rectangle is ignored.
- Image fetching and decoding are not modelled. An image is represented by its source path. Whether a request succeeds is an input, namely the event sequence.
  Requests are issued in the table's order, but that order is not modelled. Callbacks may arrive in any order.
- The Promise machinery is reduced to a `resolved` flag. A promise settles only once, so the `then` callback runs once.
  `LoadThenDraw` assumes that this callback runs right after the image callback that resolved the promise, before any later image callback. This matches how the event loop orders promise jobs before further tasks.
- The `.catch` branch (script.js:155-160) is not modelled. It is chained on the promise that `.then` returns, so two things could reach it. Neither can happen here: `preloadImages` never rejects, and the modelled `drawBoard` (`DrawBoard`) cannot fail.
- Console output is not modelled. The click handler's logged row, column and piece are the fields of `ClickReport`. The error message of `onerror` is not modelled.
- Floating-point arithmetic is replaced by integers:
  - `cellSize` is an integer here. In the script it is `canvas.width / 8` and may be fractional.
  - The padding is an integer parameter. In the script it is `cellSize * 0.05`.
  - Pointer coordinates are integers.
- `Pointer.HandleClick`: requires `cellSize > 0`. The script would divide by zero for a zero-width canvas, which is not modelled.
- Repaint idempotence is not a separate lemma. `DrawPlan` is a function of the board, the image map and the sizes, so two repaints of an unchanged state issue identical logs.
