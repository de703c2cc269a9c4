/** Two positions in the 32-byte format, byte for byte: the initial one, and one with promoted
    pieces, pieces in hand and most of the set in the box. */
module SfenExamples {
  import opened Arithmetic
  import opened Shogi
  import opened SfenCodes
  import opened SfenLayout
  import opened PackedSfen
  import opened SfenNumbers

  // ----- the initial position -----

  const BACK_RANK: seq<PieceType> := [LANCE, KNIGHT, SILVER, GOLD, KING, GOLD, SILVER, KNIGHT, LANCE]

  /** Files and ranks are counted from zero, and Black plays up from rank 8. */
  function StartPiece(file: nat, rank: nat): Piece
    requires file < 9
  {
    if rank == 0 then Piece(White, BACK_RANK[file])
    else if rank == 1 && file == 1 then Piece(White, BISHOP)
    else if rank == 1 && file == 7 then Piece(White, ROOK)
    else if rank == 2 then Piece(White, PAWN)
    else if rank == 6 then Piece(Black, PAWN)
    else if rank == 7 && file == 7 then Piece(Black, BISHOP)
    else if rank == 7 && file == 1 then Piece(Black, ROOK)
    else if rank == 8 then Piece(Black, BACK_RANK[file])
    else NoPiece
  }

  const START_BOARD: seq<Piece> := seq(81, (s: nat) requires s < 81 => StartPiece(s / 9, s % 9))

  lemma StartIsBoard()
    ensures IsBoard(START_BOARD)
  {
  }

  /** A file of the initial position, followed by bits that stand for `rest`. */
  function FileNumber(file: nat, rest: nat): nat
    requires file < 9
  {
    var low := Put(StartPiece(file, 7), Put(Piece(Black, BACK_RANK[file]), rest));
    Put(Piece(White, BACK_RANK[file]), Put(StartPiece(file, 1), Put(Piece(White, PAWN), 8 * Put(Piece(Black, PAWN), low))))
  }

  lemma NextSquare(board: seq<Piece>, i: nat, n: nat, rest: nat)
    requires IsBoard(board) && i + n <= SQUARE_NB && n > 0
    ensures SquaresNumber(board, i, n, rest) == Put(board[i], SquaresNumber(board, i + 1, n - 1, rest))
  {
    hide Put;
  }

  lemma ThreeSquares(board: seq<Piece>, i: nat, n: nat, rest: nat)
    requires IsBoard(board) && i + n <= SQUARE_NB && n >= 3
    ensures SquaresNumber(board, i, n, rest) == Put(board[i], Put(board[i + 1], Put(board[i + 2], SquaresNumber(board, i + 3, n - 3, rest))))
  {
    hide *;
    NextSquare(board, i, n, rest);
    NextSquare(board, i + 1, n - 1, rest);
    NextSquare(board, i + 2, n - 2, rest);
    ContentOf(board, i);
    ContentOf(board, i + 1);
    ContentOf(board, i + 2);
  }

  lemma ContentOf(board: seq<Piece>, i: nat)
    requires IsBoard(board) && i < SQUARE_NB
    ensures |board| == SQUARE_NB && (IsKing(board[i]) || IsBoardContent(board[i]))
  {
  }

  lemma ThreeEmpty(rest: nat)
    ensures Put(NoPiece, Put(NoPiece, Put(NoPiece, rest))) == 8 * rest
  {
  }

  /** Nine squares with nothing on the middle three. */
  lemma NineSquares(board: seq<Piece>, i: nat, rest: nat)
    requires IsBoard(board) && i + 9 <= SQUARE_NB && board[i + 3] == board[i + 4] == board[i + 5] == NoPiece
    ensures SquaresNumber(board, i, 9, rest) ==
            Put(board[i], Put(board[i + 1], Put(board[i + 2], 8 * Put(board[i + 6], Put(board[i + 7], Put(board[i + 8], rest))))))
  {
    hide SquaresNumber, IsBoard, Put;
    ContentOf(board, i);
    ContentOf(board, i + 1);
    ContentOf(board, i + 2);
    ContentOf(board, i + 6);
    ContentOf(board, i + 7);
    ContentOf(board, i + 8);
    ThreeSquares(board, i, 9, rest);
    ThreeSquares(board, i + 3, 6, rest);
    ThreeSquares(board, i + 6, 3, rest);
    ThreeEmpty(SquaresNumber(board, i + 6, 3, rest));
    NoSquaresNumber(board, i + 9, rest);
  }

  lemma AtSquare(file: nat, rank: nat, sq: nat)
    requires file < 9 && rank < 9 && sq == 9 * file + rank
    ensures START_BOARD[sq] == StartPiece(file, rank)
  {
  }

  lemma FileContents(file: nat)
    requires file < 9 && |START_BOARD| == SQUARE_NB
    ensures var b, i := START_BOARD, 9 * file;
            && b[i] == Piece(White, BACK_RANK[file]) && b[i + 1] == StartPiece(file, 1) && b[i + 2] == Piece(White, PAWN)
            && b[i + 3] == b[i + 4] == b[i + 5] == NoPiece
            && b[i + 6] == Piece(Black, PAWN) && b[i + 7] == StartPiece(file, 7) && b[i + 8] == Piece(Black, BACK_RANK[file])
  {
    hide START_BOARD, BACK_RANK;
    var i := 9 * file;
    AtSquare(file, 0, i);
    AtSquare(file, 1, i + 1);
    AtSquare(file, 2, i + 2);
    AtSquare(file, 3, i + 3);
    AtSquare(file, 4, i + 4);
    AtSquare(file, 5, i + 5);
    AtSquare(file, 6, i + 6);
    AtSquare(file, 7, i + 7);
    AtSquare(file, 8, i + 8);
  }

  lemma FilePieces(file: nat)
    requires file < 9
    ensures forall c: Color :: IsKing(Piece(c, BACK_RANK[file])) || IsBoardContent(Piece(c, BACK_RANK[file]))
    ensures IsBoardContent(StartPiece(file, 1)) && IsBoardContent(StartPiece(file, 7))
    ensures forall c: Color :: IsBoardContent(Piece(c, PAWN))
  {
  }

  lemma StartFile(file: nat, rest: nat)
    requires file < 9 && IsBoard(START_BOARD)
    ensures SquaresNumber(START_BOARD, 9 * file, 9, rest) == FileNumber(file, rest)
  {
    hide START_BOARD, StartPiece, SquaresNumber, Put, IsBoard, IsBoardContent, IsKing;
    ContentOf(START_BOARD, 9 * file);
    FileContents(file);
    FilePieces(file);
    NineSquares(START_BOARD, 9 * file, rest);
  }

  lemma NoSquaresNumber(board: seq<Piece>, i: nat, rest: nat)
    requires IsBoard(board) && i <= SQUARE_NB
    ensures SquaresNumber(board, i, 0, rest) == rest
  {
  }

  lemma StartFile9()
    ensures FileNumber(8, 0x0) == 0x0018_44A3
  {
  }

  lemma StartFile8()
    ensures FileNumber(7, 0x0018_44A3) == 0x0C22_5196_3E22_6FEB
  {
  }

  lemma StartFile7()
    ensures FileNumber(6, 0x0C22_5196_3E22_6FEB) == 0x0018_44A3_2C7C_44DF_D638_44A7
  {
  }

  lemma StartFile6()
    ensures FileNumber(5, 0x0018_44A3_2C7C_44DF_D638_44A7) == 0x3089_4658_F889_BFAC_7089_4E78_44AF
  {
  }

  lemma StartFile5()
    ensures FileNumber(4, 0x3089_4658_F889_BFAC_7089_4E78_44AF) == 0x0611_28CB_1F11_37F5_8E11_29CF_0895_E112
  {
  }

  lemma StartFile4()
    ensures FileNumber(3, 0x0611_28CB_1F11_37F5_8E11_29CF_0895_E112) == 0x000C_2251_963E_226F_EB1C_2253_9E11_2BC2_2478_44AF
  {
  }

  lemma StartFile3()
    ensures FileNumber(2, 0x000C_2251_963E_226F_EB1C_2253_9E11_2BC2_2478_44AF) == 0x1844_A32C_7C44_DFD6_3844_A73C_2257_8448_F089_5E38_44A7
  {
  }

  lemma StartFile2()
    ensures FileNumber(1, 0x1844_A32C_7C44_DFD6_3844_A73C_2257_8448_F089_5E38_44A7) ==
            0x000C_2251_963E_226F_EB1C_2253_9E11_2BC2_2478_44AF_1C22_5396_7E22_67EB
  {
  }

  lemma StartFile1()
    ensures FileNumber(0, 0x000C_2251_963E_226F_EB1C_2253_9E11_2BC2_2478_44AF_1C22_5396_7E22_67EB) ==
            0x1844_A32C_7C44_DFD6_3844_A73C_2257_8448_F089_5E38_44A7_2CFC_44CF_D618_44A3
  {
  }

  lemma NextFile(file: nat, tail: Bits, rest: nat)
    requires file < 9 && IsBoard(START_BOARD) && Value(SquareBits(START_BOARD, 9 * file + 9) + tail) == rest
    ensures Value(SquareBits(START_BOARD, 9 * file) + tail) == FileNumber(file, rest)
  {
    hide START_BOARD, Value, SquareBits, FileNumber, SquaresNumber, IsBoard;
    SquaresValue(START_BOARD, 9 * file, 9, tail);
    StartFile(file, rest);
  }

  lemma StartSquares(tail: Bits)
    requires Value(tail) == 0
    ensures IsBoard(START_BOARD) && Value(SquareBits(START_BOARD, 0) + tail) ==
            0x1844_A32C_7C44_DFD6_3844_A73C_2257_8448_F089_5E38_44A7_2CFC_44CF_D618_44A3
  {
    StartIsBoard();
    hide *;
    OverTheEdge(START_BOARD, tail);
    StartFile9();
    NextFile(8, tail, 0x0);
    StartFile8();
    NextFile(7, tail, 0x0018_44A3);
    StartFile7();
    NextFile(6, tail, 0x0C22_5196_3E22_6FEB);
    StartFile6();
    NextFile(5, tail, 0x0018_44A3_2C7C_44DF_D638_44A7);
    StartFile5();
    NextFile(4, tail, 0x3089_4658_F889_BFAC_7089_4E78_44AF);
    StartFile4();
    NextFile(3, tail, 0x0611_28CB_1F11_37F5_8E11_29CF_0895_E112);
    StartFile3();
    NextFile(2, tail, 0x000C_2251_963E_226F_EB1C_2253_9E11_2BC2_2478_44AF);
    StartFile2();
    NextFile(1, tail, 0x1844_A32C_7C44_DFD6_3844_A73C_2257_8448_F089_5E38_44A7);
    StartFile1();
    NextFile(0, tail, 0x000C_2251_963E_226F_EB1C_2253_9E11_2BC2_2478_44AF_1C22_5396_7E22_67EB);
  }

  lemma OverTheEdge(board: seq<Piece>, tail: Bits)
    requires IsBoard(board)
    ensures Value(SquareBits(board, 81) + tail) == Value(tail)
  {
    assert [] + tail == tail;
  }

  // ----- counting it -----

  function Counted(p: Piece, raw: PieceType): nat { if IsOnBoard(p, raw) then 1 else 0 }

  lemma NextCount(board: seq<Piece>, i: nat, n: nat, raw: PieceType)
    requires i + n <= |board| && n > 0
    ensures CountAmong(board, i, n, raw) == Counted(board[i], raw) + CountAmong(board, i + 1, n - 1, raw)
  {
  }

  lemma ThreeCounts(board: seq<Piece>, i: nat, n: nat, raw: PieceType)
    requires i + n <= |board| && n >= 3
    ensures CountAmong(board, i, n, raw) ==
            Counted(board[i], raw) + Counted(board[i + 1], raw) + Counted(board[i + 2], raw) + CountAmong(board, i + 3, n - 3, raw)
  {
    hide *;
    NextCount(board, i, n, raw);
    NextCount(board, i + 1, n - 1, raw);
    NextCount(board, i + 2, n - 2, raw);
  }

  lemma NineCounts(board: seq<Piece>, i: nat, raw: PieceType)
    requires i + 9 <= |board| && board[i + 3] == board[i + 4] == board[i + 5] == NoPiece
    ensures CountAmong(board, i, 9, raw) ==
            Counted(board[i], raw) + Counted(board[i + 1], raw) + Counted(board[i + 2], raw)
            + Counted(board[i + 6], raw) + Counted(board[i + 7], raw) + Counted(board[i + 8], raw)
  {
    hide CountAmong, IsOnBoard;
    assert Counted(NoPiece, raw) == 0 by { EmptyCounts(raw); }
    ThreeCounts(board, i, 9, raw);
    ThreeCounts(board, i + 3, 6, raw);
    ThreeCounts(board, i + 6, 3, raw);
    NoCount(board, i + 9, raw);
  }

  lemma EmptyCounts(raw: PieceType)
    ensures Counted(NoPiece, raw) == 0
  {
  }

  lemma NoCount(board: seq<Piece>, i: nat, raw: PieceType)
    requires i <= |board|
    ensures CountAmong(board, i, 0, raw) == 0
  {
  }

  /** What a file of the initial position holds of a kind. */
  function FileCount(file: nat, raw: PieceType): nat
    requires file < 9
  {
    (if BACK_RANK[file] == raw && raw != KING then 2 else 0) + (if raw == PAWN then 2 else 0)
    + Counted(StartPiece(file, 1), raw) + Counted(StartPiece(file, 7), raw)
  }

  lemma StartFileCount(file: nat, raw: PieceType)
    requires file < 9 && IsHandPiece(raw) && |START_BOARD| == SQUARE_NB
    ensures CountFrom(START_BOARD, 9 * file, raw) == FileCount(file, raw) + CountFrom(START_BOARD, 9 * file + 9, raw)
  {
    hide START_BOARD, CountFrom, CountAmong, StartPiece;
    FileContents(file);
    NineCounts(START_BOARD, 9 * file, raw);
    CountsAdd(START_BOARD, 9 * file, 9, raw);
  }

  lemma StartCount(raw: PieceType)
    requires IsHandPiece(raw) && |START_BOARD| == SQUARE_NB
    ensures CountFrom(START_BOARD, 0, raw) == PHYSICAL[raw]
  {
    hide START_BOARD;
    FilesCount(raw);
    hide FileCount;
    StartFileCount(0, raw);
    StartFileCount(1, raw);
    StartFileCount(2, raw);
    StartFileCount(3, raw);
    StartFileCount(4, raw);
    StartFileCount(5, raw);
    StartFileCount(6, raw);
    StartFileCount(7, raw);
    StartFileCount(8, raw);
    assert CountFrom(START_BOARD, 81, raw) == 0;
  }

  lemma FilesCount(raw: PieceType)
    requires IsHandPiece(raw)
    ensures FileCount(0, raw) + FileCount(1, raw) + FileCount(2, raw) + FileCount(3, raw) + FileCount(4, raw)
            + FileCount(5, raw) + FileCount(6, raw) + FileCount(7, raw) + FileCount(8, raw) == PHYSICAL[raw]
  {
  }

  const START := Position(Black, 44, 36, START_BOARD, EMPTY_HAND, EMPTY_HAND)

  const START_BYTES: seq<bv8> :=
    [0x58, 0xa4, 0x51, 0x22]
    + ([0x0c, 0xeb, 0x67, 0x22]
    + ([0x7e, 0x96, 0x53, 0x22]
    + ([0x1c, 0xaf, 0x44, 0x78]
    + ([0x24, 0xc2, 0x2b, 0x11]
    + ([0x9e, 0x53, 0x22, 0x1c]
    + ([0xeb, 0x6f, 0x22, 0x3e]
    + ([0x96, 0x51, 0x22, 0x0c])))))))

  lemma BoardsAreValid()
    ensures Valid(START) && Valid(ENDGAME)
  {
  }

  /** Only the missing pieces of the seven kinds go to the box. */
  lemma BoxIs(p: Position, box: seq<nat>)
    requires |p.blackHand| == |p.whiteHand| == |box| == 8 && box[0] == 0
    requires forall raw: PieceType | IsHandPiece(raw) :: Missing(p, raw) == box[raw]
    ensures WithinSet(p) && Box(p) == box
  {
    hide CountFrom;
    assert Missing(p, 0) <= 0;
    assert forall raw: nat | 1 <= raw <= 7 :: IsHandPiece(raw);
  }

  lemma StartIsValid()
    ensures Valid(START) && WithinSet(START) && Box(START) == EMPTY_HAND
  {
    BoardsAreValid();
    hide Valid, START_BOARD, CountFrom, WithinSet, Box;
    assert |START_BOARD| == SQUARE_NB by { StartIsBoard(); }
    forall raw: PieceType | IsHandPiece(raw)
      ensures Missing(START, raw) == EMPTY_HAND[raw]
    {
      StartCount(raw);
    }
    BoxIs(START, EMPTY_HAND);
  }

  lemma StartValue()
    ensures Valid(START) && Value(Layout(START)) == Number(START_BYTES)
  {
    StartIsValid();
    StartIsBoard();
    StartTail();
    StartNumber();
    hide START_BOARD, START_BYTES, Value, SquareBits, Layout, TailNumber, HeaderNumber, Number, Box, Valid;
    forall tail: Bits | Value(tail) == TailNumber(START, Box(START))
      ensures Value(SquareBits(START.board, 0) + tail) == 0x1844_A32C_7C44_DFD6_3844_A73C_2257_8448_F089_5E38_44A7_2CFC_44CF_D618_44A3
    {
      StartSquares(tail);
    }
    LayoutValue(START, 0x1844_A32C_7C44_DFD6_3844_A73C_2257_8448_F089_5E38_44A7_2CFC_44CF_D618_44A3);
  }

  lemma StartTail()
    ensures TailNumber(START, EMPTY_HAND) == 0
  {
  }

  lemma StartNumber()
    ensures HeaderNumber(START, 0x1844_A32C_7C44_DFD6_3844_A73C_2257_8448_F089_5E38_44A7_2CFC_44CF_D618_44A3) == Number(START_BYTES)
  {
    hide Number;
    NoNumber();
    var w7 := [0x96, 0x51, 0x22, 0x0c];
    assert w7 == w7 + [];
    FourBytes(0x96, 0x51, 0x22, 0x0c, []);
    var w6 := [0xeb, 0x6f, 0x22, 0x3e] + w7;
    FourBytes(0xeb, 0x6f, 0x22, 0x3e, w7);
    var w5 := [0x9e, 0x53, 0x22, 0x1c] + w6;
    FourBytes(0x9e, 0x53, 0x22, 0x1c, w6);
    var w4 := [0x24, 0xc2, 0x2b, 0x11] + w5;
    FourBytes(0x24, 0xc2, 0x2b, 0x11, w5);
    var w3 := [0x1c, 0xaf, 0x44, 0x78] + w4;
    FourBytes(0x1c, 0xaf, 0x44, 0x78, w4);
    var w2 := [0x7e, 0x96, 0x53, 0x22] + w3;
    FourBytes(0x7e, 0x96, 0x53, 0x22, w3);
    var w1 := [0x0c, 0xeb, 0x67, 0x22] + w2;
    FourBytes(0x0c, 0xeb, 0x67, 0x22, w2);
    var w0 := [0x58, 0xa4, 0x51, 0x22] + w1;
    FourBytes(0x58, 0xa4, 0x51, 0x22, w1);
    assert START_BYTES == w0;
  }

  lemma NoNumber()
    ensures Number([]) == 0
  {
  }

  /** The bytes of the initial position, and of no other. */
  lemma {:induction false} StartIsPacked(data: seq<bv8>)
    requires |data| == BYTES
    ensures Valid(START) && Encodable(START)
    ensures Stream(data) == Layout(START) <==> data == START_BYTES
  {
    StartIsValid();
    StartValue();
    hide START_BOARD, Valid, Layout, Number, Value, Stream, WithinSet;
    BytesOf(START, START_BYTES, data);
  }

  // ----- promoted pieces, pieces in hand and a full box -----

  /** Black: horse and king; White: dragon, promoted pawn and king. */
  function EndgamePiece(sq: nat): Piece {
    if sq == 24 then Piece(White, DRAGON)
    else if sq == 36 then Piece(White, KING)
    else if sq == 40 then Piece(Black, HORSE)
    else if sq == 44 then Piece(Black, KING)
    else if sq == 56 then Piece(White, PRO_PAWN)
    else NoPiece
  }

  const ENDGAME_BOARD: seq<Piece> := seq(81, (s: nat) => EndgamePiece(s))

  const ENDGAME := Position(White, 44, 36, ENDGAME_BOARD, [0, 0, 0, 0, 0, 0, 1, 0], [0, 0, 0, 0, 0, 1, 0, 0])

  const ENDGAME_BOX: seq<nat> := [0, 17, 4, 4, 4, 0, 0, 4]

  const ENDGAME_BYTES: seq<bv8> :=
    [0x59, 0x24, 0x00, 0x00]
    + ([0x80, 0x7f, 0x00, 0xe0]
    + ([0x0b, 0x00, 0x68, 0x00]
    + ([0x00, 0x80, 0xcf, 0x53]
    + ([0x92, 0x24, 0x49, 0x92]
    + ([0x24, 0x49, 0x29, 0xa5]
    + ([0xd4, 0x5a, 0x6b, 0x6b]
    + ([0xad, 0xb5, 0xf7, 0xde])))))))

  lemma EndgameIsBoard()
    ensures IsBoard(ENDGAME_BOARD)
  {
  }

  /** A run of empty squares. */
  lemma {:induction false} EmptyRun(board: seq<Piece>, i: nat, n: nat, tail: Bits)
    requires IsBoard(board) && i + n <= SQUARE_NB && forall s: nat | i <= s < i + n :: board[s] == NoPiece
    ensures Value(SquareBits(board, i) + tail) == Pow2(n) * Value(SquareBits(board, i + n) + tail)
    decreases n
  {
    hide Value, SquareBits;
    if n > 0 {
      SquareValue(board, i, tail);
      EmptyRun(board, i + 1, n - 1, tail);
      Twice(n, Value(SquareBits(board, i + n) + tail));
    }
  }

  lemma EndgameRun(i: nat, n: nat, tail: Bits)
    requires IsBoard(ENDGAME_BOARD) && i + n <= 81 && forall s: nat | i <= s < i + n :: EndgamePiece(s) == NoPiece
    ensures Value(SquareBits(ENDGAME_BOARD, i) + tail) == Pow2(n) * Value(SquareBits(ENDGAME_BOARD, i + n) + tail)
  {
    EmptyRun(ENDGAME_BOARD, i, n, tail);
  }

  lemma EndgameSquare(i: nat, tail: Bits)
    requires IsBoard(ENDGAME_BOARD) && i < 81
    ensures IsKing(EndgamePiece(i)) || IsBoardContent(EndgamePiece(i))
    ensures Value(SquareBits(ENDGAME_BOARD, i) + tail) == Put(EndgamePiece(i), Value(SquareBits(ENDGAME_BOARD, i + 1) + tail))
  {
    hide Value, SquareBits, Put;
    SquareValue(ENDGAME_BOARD, i, tail);
  }

  lemma EndgameRuns()
    ensures forall s: nat | s < 81 && s !in {24, 36, 40, 44, 56} :: EndgamePiece(s) == NoPiece
    ensures EndgamePiece(24) == Piece(White, DRAGON) && EndgamePiece(40) == Piece(Black, HORSE) && EndgamePiece(56) == Piece(White, PRO_PAWN)
    ensures IsKing(EndgamePiece(36)) && IsKing(EndgamePiece(44))
    ensures Pow2(3) == 8 && Pow2(11) == 0x800 && Pow2(24) == 0x100_0000
  {
    assert Pow2(18) == 64 * Pow2(12);
    assert Pow2(24) == 64 * Pow2(18);
  }

  function UpToTheHorse(rest: nat): nat { Put(Piece(Black, HORSE), 8 * (0x800 * Put(Piece(White, PRO_PAWN), 0x100_0000 * rest))) }

  lemma UpperSquares(tail: Bits)
    requires IsBoard(ENDGAME_BOARD)
    ensures Value(SquareBits(ENDGAME_BOARD, 40) + tail) == UpToTheHorse(Value(tail))
  {
    EndgameRuns();
    hide ENDGAME_BOARD, EndgamePiece, Value, SquareBits, IsBoard, PieceNumber, Pow2;
    OverTheEdge(ENDGAME_BOARD, tail);
    EndgameRun(57, 24, tail);
    EndgameSquare(56, tail);
    EndgameRun(45, 11, tail);
    EndgameSquare(44, tail);
    EndgameRun(41, 3, tail);
    EndgameSquare(40, tail);
  }

  lemma LowerSquares(tail: Bits)
    requires IsBoard(ENDGAME_BOARD)
    ensures Value(SquareBits(ENDGAME_BOARD, 0) + tail) ==
            0x100_0000 * Put(Piece(White, DRAGON), 0x800 * (8 * Value(SquareBits(ENDGAME_BOARD, 40) + tail)))
  {
    EndgameRuns();
    hide ENDGAME_BOARD, EndgamePiece, Value, SquareBits, IsBoard, PieceNumber, Pow2;
    EndgameRun(37, 3, tail);
    EndgameSquare(36, tail);
    EndgameRun(25, 11, tail);
    EndgameSquare(24, tail);
    EndgameRun(0, 24, tail);
  }

  lemma EndgameSquares(tail: Bits)
    requires Value(tail) == 0x0001_BDEF_6B5A_D6D6_B5A9_4A52_9249_2492_4924_A79F
    ensures IsBoard(ENDGAME_BOARD) && Value(SquareBits(ENDGAME_BOARD, 0) + tail) ==
            0x0001_BDEF_6B5A_D6D6_B5A9_4A52_9249_2492_4924_A79F_0000_00D0_0017_C000_FF00_0000
  {
    EndgameIsBoard();
    hide ENDGAME_BOARD, Value, SquareBits, IsBoard;
    UpperSquares(tail);
    LowerSquares(tail);
    EndgameFilled();
  }

  lemma EndgameFilled()
    ensures 0x100_0000 * Put(Piece(White, DRAGON), 0x800 * (8 * UpToTheHorse(0x0001_BDEF_6B5A_D6D6_B5A9_4A52_9249_2492_4924_A79F))) ==
            0x0001_BDEF_6B5A_D6D6_B5A9_4A52_9249_2492_4924_A79F_0000_00D0_0017_C000_FF00_0000
  {
  }

  lemma {:induction false} EmptyRunCounts(board: seq<Piece>, i: nat, n: nat, raw: PieceType)
    requires i + n <= |board| && forall s: nat | i <= s < i + n :: board[s] == NoPiece
    ensures CountFrom(board, i, raw) == CountFrom(board, i + n, raw)
    decreases n
  {
    if n > 0 {
      EmptyRunCounts(board, i + 1, n - 1, raw);
    }
  }

  lemma EndgameCountAt(i: nat, raw: PieceType)
    requires i < 81 && |ENDGAME_BOARD| == SQUARE_NB
    ensures CountFrom(ENDGAME_BOARD, i, raw) == Counted(EndgamePiece(i), raw) + CountFrom(ENDGAME_BOARD, i + 1, raw)
  {
  }

  lemma EndgameRunCounts(i: nat, n: nat, raw: PieceType)
    requires i + n <= 81 && |ENDGAME_BOARD| == SQUARE_NB && forall s: nat | i <= s < i + n :: EndgamePiece(s) == NoPiece
    ensures CountFrom(ENDGAME_BOARD, i, raw) == CountFrom(ENDGAME_BOARD, i + n, raw)
  {
    EmptyRunCounts(ENDGAME_BOARD, i, n, raw);
  }

  lemma EndgameUpperCount(raw: PieceType)
    requires IsHandPiece(raw) && |ENDGAME_BOARD| == SQUARE_NB
    ensures CountFrom(ENDGAME_BOARD, 40, raw) == Counted(Piece(Black, HORSE), raw) + Counted(Piece(White, PRO_PAWN), raw)
  {
    EndgameRuns();
    NoneFromTheEdge(ENDGAME_BOARD, raw);
    KingsDoNotCount(EndgamePiece(44), raw);
    hide ENDGAME_BOARD, EndgamePiece, CountFrom, Pow2, Counted;
    EndgameRunCounts(57, 24, raw);
    EndgameCountAt(56, raw);
    EndgameRunCounts(45, 11, raw);
    EndgameCountAt(44, raw);
    EndgameRunCounts(41, 3, raw);
    EndgameCountAt(40, raw);
  }

  lemma KingsDoNotCount(p: Piece, raw: PieceType)
    requires IsKing(p)
    ensures Counted(p, raw) == 0
  {
  }

  lemma EndgameCount(raw: PieceType)
    requires IsHandPiece(raw) && |ENDGAME_BOARD| == SQUARE_NB
    ensures CountFrom(ENDGAME_BOARD, 0, raw) == if raw in {ROOK, BISHOP, PAWN} then 1 else 0
  {
    EndgameRuns();
    EndgameCounted(raw);
    KingsDoNotCount(EndgamePiece(36), raw);
    hide ENDGAME_BOARD, EndgamePiece, CountFrom, Pow2, Counted;
    EndgameUpperCount(raw);
    EndgameRunCounts(37, 3, raw);
    EndgameCountAt(36, raw);
    EndgameRunCounts(25, 11, raw);
    EndgameCountAt(24, raw);
    EndgameRunCounts(0, 24, raw);
  }

  lemma EndgameCounted(raw: PieceType)
    requires IsHandPiece(raw)
    ensures Counted(Piece(White, DRAGON), raw) + Counted(Piece(Black, HORSE), raw) + Counted(Piece(White, PRO_PAWN), raw)
            == if raw in {ROOK, BISHOP, PAWN} then 1 else 0
  {
  }

  lemma NoneFromTheEdge(board: seq<Piece>, raw: PieceType)
    requires |board| == SQUARE_NB
    ensures CountFrom(board, 81, raw) == 0
  {
  }

  lemma EndgameIsValid()
    ensures Valid(ENDGAME) && WithinSet(ENDGAME) && Box(ENDGAME) == ENDGAME_BOX
  {
    BoardsAreValid();
    hide Valid, ENDGAME_BOARD, CountFrom, WithinSet, Box;
    assert |ENDGAME_BOARD| == SQUARE_NB by { EndgameIsBoard(); }
    forall raw: PieceType | IsHandPiece(raw)
      ensures Missing(ENDGAME, raw) == ENDGAME_BOX[raw]
    {
      EndgameCount(raw);
    }
    BoxIs(ENDGAME, ENDGAME_BOX);
  }

  lemma {:induction false} BoxedAdds(raw: PieceType, n: nat, m: nat, rest: nat)
    requires IsHandPiece(raw)
    ensures BoxedNumber(raw, n + m, rest) == BoxedNumber(raw, n, BoxedNumber(raw, m, rest))
    decreases n
  {
    if n > 0 {
      BoxedAdds(raw, n - 1, m, rest);
    }
  }

  lemma BoxedGolds()
    ensures BoxedNumber(GOLD, 4, 0) == 0x000D_EF7B && BoxedNumber(SILVER, 4, 0x000D_EF7B) == 0x00DE_F7B5_AD6B
  {
  }

  lemma BoxedSmall()
    ensures BoxedNumber(KNIGHT, 4, 0x00DE_F7B5_AD6B) == 0x0DEF_7B5A_D6B6_B5AD && BoxedNumber(LANCE, 4, 0x0DEF_7B5A_D6B6_B5AD) ==
            0xDEF7_B5AD_6B6B_5AD4_A529
  {
  }

  lemma BoxedPawns()
    ensures BoxedNumber(PAWN, 9, 0xDEF7_B5AD_6B6B_5AD4_A529) == 0x06F7_BDAD_6B5B_5AD6_A529_4A49_2492
    ensures BoxedNumber(PAWN, 8, 0x06F7_BDAD_6B5B_5AD6_A529_4A49_2492) == 0x0006_F7BD_AD6B_5B5A_D6A5_294A_4924_9249_2492
  {
  }

  lemma EndgameBox()
    ensures BoxNumber(ENDGAME_BOX, 0, 0) == 0x0006_F7BD_AD6B_5B5A_D6A5_294A_4924_9249_2492
  {
    BoxedGolds();
    BoxedSmall();
    BoxedPawns();
    BoxedAdds(PAWN, 8, 9, 0xDEF7_B5AD_6B6B_5AD4_A529);
    NothingBoxed();
    hide BoxedNumber;
    assert BoxNumber(ENDGAME_BOX, 5, 0) == 0;
    assert BoxNumber(ENDGAME_BOX, 4, 0) == 0x000D_EF7B;
    assert BoxNumber(ENDGAME_BOX, 3, 0) == 0x00DE_F7B5_AD6B;
    assert BoxNumber(ENDGAME_BOX, 2, 0) == 0x0DEF_7B5A_D6B6_B5AD;
    assert BoxNumber(ENDGAME_BOX, 1, 0) == 0xDEF7_B5AD_6B6B_5AD4_A529;
  }

  lemma NothingBoxed()
    ensures forall raw: PieceType, rest: nat | IsHandPiece(raw) :: BoxedNumber(raw, 0, rest) == rest
  {
  }

  lemma NothingHeld()
    ensures forall c: Color, raw: PieceType, rest: nat | IsHandPiece(raw) :: HeldNumber(c, raw, 0, rest) == rest
  {
  }

  lemma BishopInHand(rest: nat)
    ensures HandNumber(White, ENDGAME.whiteHand, 0, rest) == HeldNumber(White, BISHOP, 1, rest)
  {
    NothingHeld();
    hide HeldNumber;
    var h := ENDGAME.whiteHand;
    assert HandNumber(White, h, 5, rest) == HeldNumber(White, BISHOP, 1, rest);
    assert HandNumber(White, h, 3, rest) == HandNumber(White, h, 5, rest);
    assert HandNumber(White, h, 1, rest) == HandNumber(White, h, 3, rest);
  }

  lemma RookInHand(rest: nat)
    ensures HandNumber(Black, ENDGAME.blackHand, 0, rest) == HeldNumber(Black, ROOK, 1, rest)
  {
    NothingHeld();
    hide HeldNumber;
    var h := ENDGAME.blackHand;
    assert HandNumber(Black, h, 6, rest) == HeldNumber(Black, ROOK, 1, rest);
    assert HandNumber(Black, h, 4, rest) == HandNumber(Black, h, 6, rest);
    assert HandNumber(Black, h, 2, rest) == HandNumber(Black, h, 4, rest);
  }

  lemma EndgameTail()
    ensures TailNumber(ENDGAME, ENDGAME_BOX) == 0x0001_BDEF_6B5A_D6D6_B5A9_4A52_9249_2492_4924_A79F
  {
    EndgameBox();
    BishopInHand(0x0006_F7BD_AD6B_5B5A_D6A5_294A_4924_9249_2492);
    BothHeld();
    RookInHand(0x037B_DED6_B5AD_AD6B_5294_A524_9249_2492_494F);
    hide BoxNumber, HandNumber, HeldNumber;
  }

  lemma BothHeld()
    ensures HeldNumber(White, BISHOP, 1, 0x0006_F7BD_AD6B_5B5A_D6A5_294A_4924_9249_2492) == 0x037B_DED6_B5AD_AD6B_5294_A524_9249_2492_494F
    ensures HeldNumber(Black, ROOK, 1, 0x037B_DED6_B5AD_AD6B_5294_A524_9249_2492_494F) ==
            0x0001_BDEF_6B5A_D6D6_B5A9_4A52_9249_2492_4924_A79F
  {
  }

  lemma EndgameValue()
    ensures Valid(ENDGAME) && Value(Layout(ENDGAME)) == Number(ENDGAME_BYTES)
  {
    EndgameIsValid();
    EndgameIsBoard();
    EndgameTail();
    EndgameNumber();
    hide ENDGAME_BOARD, ENDGAME_BYTES, Value, SquareBits, Layout, TailNumber, HeaderNumber, Number, Box, Valid;
    forall tail: Bits | Value(tail) == TailNumber(ENDGAME, Box(ENDGAME))
      ensures Value(SquareBits(ENDGAME.board, 0) + tail) ==
            0x0001_BDEF_6B5A_D6D6_B5A9_4A52_9249_2492_4924_A79F_0000_00D0_0017_C000_FF00_0000
    {
      EndgameSquares(tail);
    }
    LayoutValue(ENDGAME, 0x0001_BDEF_6B5A_D6D6_B5A9_4A52_9249_2492_4924_A79F_0000_00D0_0017_C000_FF00_0000);
  }

  lemma EndgameNumber()
    ensures HeaderNumber(ENDGAME, 0x0001_BDEF_6B5A_D6D6_B5A9_4A52_9249_2492_4924_A79F_0000_00D0_0017_C000_FF00_0000) == Number(ENDGAME_BYTES)
  {
    hide Number;
    NoNumber();
    var w7 := [0xad, 0xb5, 0xf7, 0xde];
    assert w7 == w7 + [];
    FourBytes(0xad, 0xb5, 0xf7, 0xde, []);
    var w6 := [0xd4, 0x5a, 0x6b, 0x6b] + w7;
    FourBytes(0xd4, 0x5a, 0x6b, 0x6b, w7);
    var w5 := [0x24, 0x49, 0x29, 0xa5] + w6;
    FourBytes(0x24, 0x49, 0x29, 0xa5, w6);
    var w4 := [0x92, 0x24, 0x49, 0x92] + w5;
    FourBytes(0x92, 0x24, 0x49, 0x92, w5);
    var w3 := [0x00, 0x80, 0xcf, 0x53] + w4;
    FourBytes(0x00, 0x80, 0xcf, 0x53, w4);
    var w2 := [0x0b, 0x00, 0x68, 0x00] + w3;
    FourBytes(0x0b, 0x00, 0x68, 0x00, w3);
    var w1 := [0x80, 0x7f, 0x00, 0xe0] + w2;
    FourBytes(0x80, 0x7f, 0x00, 0xe0, w2);
    var w0 := [0x59, 0x24, 0x00, 0x00] + w1;
    FourBytes(0x59, 0x24, 0x00, 0x00, w1);
    assert ENDGAME_BYTES == w0;
  }

  /** The bytes of the second position, and of no other. */
  lemma {:induction false} EndgameIsPacked(data: seq<bv8>)
    requires |data| == BYTES
    ensures Valid(ENDGAME) && Encodable(ENDGAME)
    ensures Stream(data) == Layout(ENDGAME) <==> data == ENDGAME_BYTES
  {
    EndgameIsValid();
    EndgameValue();
    hide ENDGAME_BOARD, Valid, Layout, Number, Value, Stream, WithinSet;
    BytesOf(ENDGAME, ENDGAME_BYTES, data);
  }
}
