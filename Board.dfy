/** The fixed data of the chessboard page: the table from piece code to image
    path, and the starting position as an 8×8 grid of piece codes, with the
    lemmas that pin down its layout. */
module Board {

  /** Rows and columns of the board. */
  const BoardSize: nat := 8

  /** Cells of the board, visited in row-major order by the renderer. */
  const CellCount: nat := 64

  /** Piece code → image path. */
  const PieceImages: map<string, string> := map[
    "wp" := "img/peaobranco.png",
    "wr" := "img/torrebranca.png",
    "wn" := "img/cavalobranco.png",
    "wb" := "img/bispo_branco.png",
    "wq" := "img/rainhabranca.png",
    "wk" := "img/reibranco.png",
    "bp" := "img/peaopreto.png",
    "br" := "img/torrepreta.png",
    "bn" := "img/cavalopreto.png",
    "bb" := "img/bisporeto.png",
    "bq" := "img/rainhapreta.png",
    "bk" := "img/reipreto.png"
  ]

  /** The starting position; `""` is an empty square. Row 0 is the top. */
  const InitialBoardState: seq<seq<string>> := [
    ["br", "bn", "bb", "bq", "bk", "bb", "bn", "br"],
    ["bp", "bp", "bp", "bp", "bp", "bp", "bp", "bp"],
    ["", "", "", "", "", "", "", ""],
    ["", "", "", "", "", "", "", ""],
    ["", "", "", "", "", "", "", ""],
    ["", "", "", "", "", "", "", ""],
    ["wp", "wp", "wp", "wp", "wp", "wp", "wp", "wp"],
    ["wr", "wn", "wb", "wq", "wk", "wb", "wn", "wr"]
  ]

  /** Piece types of a back rank, from column 0 to column 7. */
  const BackRank: seq<char> := ['r', 'n', 'b', 'q', 'k', 'b', 'n', 'r']

  /** A grid of BoardSize rows of BoardSize cells each. */
  predicate IsGrid(board: seq<seq<string>>) {
    |board| == BoardSize && forall r :: 0 <= r < |board| ==> |board[r]| == BoardSize
  }

  /** A two-character code: colour `w` or `b`, then one of the six piece types. */
  predicate IsPieceCode(code: string) {
    |code| == 2 && code[0] in "wb" && code[1] in "prnbqk"
  }

  predicate IsWhite(code: string) {
    IsPieceCode(code) && code[0] == 'w'
  }

  predicate IsBlack(code: string) {
    IsPieceCode(code) && code[0] == 'b'
  }

  /** The cell visited k-th in row-major order. */
  function CellAt(board: seq<seq<string>>, k: nat): string
    requires IsGrid(board) && k < CellCount
  {
    board[k / BoardSize][k % BoardSize]
  }

  /** How many of the first k cells, in row-major order, satisfy P. */
  function CountCells(board: seq<seq<string>>, P: string -> bool, k: nat): (n: nat)
    requires IsGrid(board) && k <= CellCount
    ensures n <= k
  {
    if k == 0 then 0
    else CountCells(board, P, k - 1) + (if P(CellAt(board, k - 1)) then 1 else 0)
  }

  /** The cells satisfying P and those not satisfying it partition the board. */
  lemma {:induction false} CountComplement(board: seq<seq<string>>, P: string -> bool, k: nat)
    requires IsGrid(board) && k <= CellCount
    ensures CountCells(board, P, k) + CountCells(board, code => !P(code), k) == k
  {
    if k > 0 {
      CountComplement(board, P, k - 1);
    }
  }

  /** When P holds exactly on the row-major band [lo, hi), the count is the
      part of the band that lies below k. */
  lemma {:induction false} CountBand(board: seq<seq<string>>, P: string -> bool, lo: nat, hi: nat, k: nat)
    requires IsGrid(board) && lo <= hi <= CellCount && k <= CellCount
    requires forall i :: 0 <= i < CellCount ==> (P(CellAt(board, i)) <==> lo <= i < hi)
    ensures CountCells(board, P, k) == if k <= lo then 0 else if k <= hi then k - lo else hi - lo
  {
    if k > 0 {
      CountBand(board, P, lo, hi, k - 1);
    }
  }

  /** The twelve keys of the image table, written out. */
  lemma PieceImagesKeySet()
    ensures PieceImages.Keys == {"wp", "wr", "wn", "wb", "wq", "wk", "bp", "br", "bn", "bb", "bq", "bk"}
  {
  }

  /** The twelve codes written out are pairwise distinct. */
  lemma PieceCodeSetSize()
    ensures |{"wp", "wr", "wn", "wb", "wq", "wk", "bp", "br", "bn", "bb", "bq", "bk"}| == 12
  {
  }

  /** The image table has twelve entries: the loader waits for twelve images. */
  lemma PieceImagesCount()
    ensures |PieceImages| == 12
  {
    PieceImagesKeySet();
    PieceCodeSetSize();
  }

  /** The keys of the image table are exactly the codes {w,b}×{p,r,n,b,q,k}. */
  lemma PieceImagesDomain(code: string)
    ensures code in PieceImages <==> IsPieceCode(code)
  {
    PieceImagesKeySet();
    if IsPieceCode(code) {
      assert code == [code[0], code[1]];
      assert code[0] == 'w' || code[0] == 'b';
      assert code[1] in {'p', 'r', 'n', 'b', 'q', 'k'};
    }
  }

  /** One cell of the starting position lies in the band of its row. */
  lemma InitialCellBand(r: nat, c: nat)
    requires r < BoardSize && c < BoardSize
    ensures IsBlack(InitialBoardState[r][c]) <==> r <= 1
    ensures IsWhite(InitialBoardState[r][c]) <==> 6 <= r
    ensures InitialBoardState[r][c] == "" <==> 2 <= r <= 5
    ensures InitialBoardState[r][c] != "" ==> IsPieceCode(InitialBoardState[r][c])
  {
    var row := InitialBoardState[r];
    if r == 0 {
      assert row == ["br", "bn", "bb", "bq", "bk", "bb", "bn", "br"];
    } else if r == 1 {
      assert row == ["bp", "bp", "bp", "bp", "bp", "bp", "bp", "bp"];
    } else if r <= 5 {
      assert row == ["", "", "", "", "", "", "", ""];
    } else if r == 6 {
      assert row == ["wp", "wp", "wp", "wp", "wp", "wp", "wp", "wp"];
    } else {
      assert row == ["wr", "wn", "wb", "wq", "wk", "wb", "wn", "wr"];
    }
    assert row[c] in row;
  }

  /** The starting position is an 8×8 grid split into colour bands: black in
      rows 0–1, empty in rows 2–5, white in rows 6–7, and every code that
      occurs is a key of the image table. */
  lemma InitialBands()
    ensures IsGrid(InitialBoardState)
    ensures forall r, c :: 0 <= r < BoardSize && 0 <= c < BoardSize ==>
      && (IsBlack(InitialBoardState[r][c]) <==> r <= 1)
      && (IsWhite(InitialBoardState[r][c]) <==> 6 <= r)
      && (InitialBoardState[r][c] == "" <==> 2 <= r <= 5)
      && (InitialBoardState[r][c] != "" ==> InitialBoardState[r][c] in PieceImages)
  {
    forall r, c | 0 <= r < BoardSize && 0 <= c < BoardSize
      ensures IsBlack(InitialBoardState[r][c]) <==> r <= 1
      ensures IsWhite(InitialBoardState[r][c]) <==> 6 <= r
      ensures InitialBoardState[r][c] == "" <==> 2 <= r <= 5
      ensures InitialBoardState[r][c] != "" ==> InitialBoardState[r][c] in PieceImages
    {
      InitialCellBand(r, c);
      PieceImagesDomain(InitialBoardState[r][c]);
    }
  }

  /** Rows 0 and 7 hold the same back-rank types with opposite colours, and
      rows 1 and 6 hold only pawns. */
  lemma InitialRanks()
    ensures forall c :: 0 <= c < BoardSize ==>
      && IsBlack(InitialBoardState[0][c]) && InitialBoardState[0][c][1] == BackRank[c]
      && IsWhite(InitialBoardState[7][c]) && InitialBoardState[7][c][1] == BackRank[c]
      && InitialBoardState[1][c] == "bp"
      && InitialBoardState[6][c] == "wp"
  {
  }

  /** In row-major order the starting position is black on cells 0–15, empty
      on 16–47 and white on 48–63, and every code in it has an image path. */
  lemma {:induction false} InitialCellBands()
    ensures IsGrid(InitialBoardState)
    ensures forall k :: 0 <= k < CellCount ==>
      && (IsBlack(CellAt(InitialBoardState, k)) <==> k < 16)
      && (CellAt(InitialBoardState, k) == "" <==> 16 <= k < 48)
      && (IsWhite(CellAt(InitialBoardState, k)) <==> 48 <= k)
      && (CellAt(InitialBoardState, k) != "" ==> CellAt(InitialBoardState, k) in PieceImages)
  {
    InitialBands();
    forall k | 0 <= k < CellCount
      ensures IsBlack(CellAt(InitialBoardState, k)) <==> k < 16
      ensures CellAt(InitialBoardState, k) == "" <==> 16 <= k < 48
      ensures IsWhite(CellAt(InitialBoardState, k)) <==> 48 <= k
      ensures CellAt(InitialBoardState, k) != "" ==> CellAt(InitialBoardState, k) in PieceImages
    {
      var r, c := k / BoardSize, k % BoardSize;
      assert k == r * BoardSize + c;
      assert r <= 1 <==> k < 16;
      assert 6 <= r <==> 48 <= k;
    }
  }

  /** The starting position holds 16 white codes, 16 black codes and 32 empty squares. */
  lemma InitialCounts()
    ensures IsGrid(InitialBoardState)
    ensures CountCells(InitialBoardState, IsWhite, CellCount) == 16
    ensures CountCells(InitialBoardState, IsBlack, CellCount) == 16
    ensures CountCells(InitialBoardState, code => code == "", CellCount) == 32
  {
    InitialCellBands();
    assert CountCells(InitialBoardState, IsWhite, CellCount) == 16 by {
      CountBand(InitialBoardState, IsWhite, 48, 64, CellCount);
    }
    assert CountCells(InitialBoardState, IsBlack, CellCount) == 16 by {
      CountBand(InitialBoardState, IsBlack, 0, 16, CellCount);
    }
    assert CountCells(InitialBoardState, code => code == "", CellCount) == 32 by {
      CountBand(InitialBoardState, code => code == "", 16, 48, CellCount);
    }
  }
}
