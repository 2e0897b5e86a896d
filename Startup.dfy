/** Page start-up and the agreement between painting and clicking: the
    images of the table are preloaded, the starting position is painted once
    the loader signals "done", and a click on a pixel reports the cell whose
    painted square holds that pixel. */
module Startup {
  import opened Board
  import opened Preload
  import opened Render
  import opened Pointer

  /** Preloads the images of `sources`, with their callbacks arriving as
      `events`, and paints `board` when the loader signals "done": at once
      when there is nothing to load, otherwise right after the callback that
      completes the count, with the images loaded by then. The log collects
      the commands of every repaint in order, so a log equal to one
      `DrawPlan` means the board was painted exactly one time: callbacks
      after "done" paint nothing more, and if the count is never completed
      nothing is painted. When every request settles exactly once, the
      painting shows exactly the images that loaded. */
  method LoadThenDraw(sources: map<string, string>, board: seq<seq<string>>, events: seq<Event>,
                      cellSize: int, padding: int, width: int, height: int)
    returns (log: seq<Command>)
    requires IsGrid(board) && EventsFor(sources, events)
    ensures |events| < |sources| ==> log == []
    ensures |sources| <= |events| ==>
      log == DrawPlan(board, Replay(sources, Start(sources), events[..|sources|]).loaded,
                      cellSize, padding, width, height)
    ensures OneEventEach(sources, events) ==>
      log == DrawPlan(board, LoadedAfter(sources, events), cellSize, padding, width, height)
  {
    var total := |sources|;
    var loader := new ImageLoader(sources);
    log := [];
    if loader.resolved {
      var repaint := DrawBoard(board, loader.loadedImages, cellSize, padding, width, height);
      log := log + repaint;
    }
    var i := 0;
    while i < |events|
      invariant 0 <= i <= |events|
      invariant loader.Valid() && loader.pieceImages == sources
      invariant loader.State() == Replay(sources, Start(sources), events[..i])
      invariant loader.resolved <==> total <= i
      invariant log == if i < total then []
        else DrawPlan(board, Replay(sources, Start(sources), events[..total]).loaded,
                      cellSize, padding, width, height)
    {
      var wasResolved := loader.resolved;
      loader.Handle(events[i]);
      assert loader.State() == Replay(sources, Start(sources), events[..i + 1]) by {
        assert events[..i + 1][..i] == events[..i];
      }
      assert loader.resolved <==> total <= i + 1 by {
        ReplayResolved(sources, events[..i + 1]);
      }
      if !wasResolved && loader.resolved {
        var repaint := DrawBoard(board, loader.loadedImages, cellSize, padding, width, height);
        log := log + repaint;
      }
      i := i + 1;
    }
    if OneEventEach(sources, events) {
      OneEventEachLength(sources, events);
      assert events[..total] == events;
      ReplayLoaded(sources, events);
    }
  }

  /** Page start-up: the twelve images of the table are preloaded and the
      starting position is painted once all twelve requests have settled. */
  method OnDomContentLoaded(events: seq<Event>, cellSize: int, padding: int, width: int, height: int)
    returns (log: seq<Command>)
    requires EventsFor(PieceImages, events)
    ensures IsGrid(InitialBoardState)
    ensures |events| < 12 ==> log == []
    ensures 12 <= |events| ==>
      log == DrawPlan(InitialBoardState, Replay(PieceImages, Start(PieceImages), events[..12]).loaded,
                      cellSize, padding, width, height)
    ensures OneEventEach(PieceImages, events) ==>
      log == DrawPlan(InitialBoardState, LoadedAfter(PieceImages, events), cellSize, padding, width, height)
  {
    PieceImagesCount();
    InitialBands();
    log := LoadThenDraw(PieceImages, InitialBoardState, events, cellSize, padding, width, height);
  }

  /** A click on a pixel of the surface reports the cell whose painted
      square, in every repaint, holds that pixel and has that cell's
      checkerboard colour. */
  lemma ClickHitsPaintedCell(board: seq<seq<string>>, loaded: map<string, Image>, cellSize: int, padding: int,
                             width: int, height: int, clientX: int, clientY: int, left: int, top: int)
    requires IsGrid(board) && cellSize > 0
    requires 0 <= clientX - left < BoardSize * cellSize
    requires 0 <= clientY - top < BoardSize * cellSize
    ensures var r := HandleClick(board, clientX, clientY, left, top, cellSize);
      var fills := Fills(DrawPlan(board, loaded, cellSize, padding, width, height));
      && 0 <= r.row < BoardSize && 0 <= r.col < BoardSize
      && |fills| == CellCount
      && fills[r.row * BoardSize + r.col].FillRect?
      && fills[r.row * BoardSize + r.col].x <= clientX - left < fills[r.row * BoardSize + r.col].x + fills[r.row * BoardSize + r.col].w
      && fills[r.row * BoardSize + r.col].y <= clientY - top < fills[r.row * BoardSize + r.col].y + fills[r.row * BoardSize + r.col].h
      && fills[r.row * BoardSize + r.col].colour == SquareColour(r.row, r.col)
  {
    var r := HandleClick(board, clientX, clientY, left, top, cellSize);
    ClickOnSurface(board, clientX, clientY, left, top, cellSize);
    PlanFills(board, loaded, cellSize, padding, width, height);
    RowMajor(r.row, r.col);
    var k := r.row * BoardSize + r.col;
    assert (r.col + 1) * cellSize == r.col * cellSize + cellSize;
    assert (r.row + 1) * cellSize == r.row * cellSize + cellSize;
  }

  /** When every request settles exactly once: if every image loads, the
      starting position is painted with its 32 sprites; if every image
      fails, only the background squares are painted. */
  lemma CompleteStartupSprites(events: seq<Event>, cellSize: int, padding: int, width: int, height: int)
    requires OneEventEach(PieceImages, events)
    ensures IsGrid(InitialBoardState)
    ensures (forall i :: 0 <= i < |events| ==> events[i].Load?) ==>
      |Sprites(DrawPlan(InitialBoardState, LoadedAfter(PieceImages, events), cellSize, padding, width, height))| == 32
    ensures (forall i :: 0 <= i < |events| ==> events[i].Error?) ==>
      |Sprites(DrawPlan(InitialBoardState, LoadedAfter(PieceImages, events), cellSize, padding, width, height))| == 0
  {
    var loaded := LoadedAfter(PieceImages, events);
    InitialSprites(loaded, cellSize, padding, width, height);
    if forall i :: 0 <= i < |events| ==> events[i].Load? {
      forall c | c in PieceImages
        ensures c in loaded
      {
        assert c in SettledCodes(events);
        var i :| 0 <= i < |events| && events[i].code == c;
        assert c in LoadedCodes(events);
      }
    }
    if forall i :: 0 <= i < |events| ==> events[i].Error? {
      assert LoadedCodes(events) == {};
    }
  }
}
