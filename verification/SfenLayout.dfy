/** The layout of the 32-byte position format as a bit string: every position of a physical
    shogi set with both kings takes exactly 256 bits, and reading them gives it back. */
module SfenLayout {
  import opened Arithmetic
  import opened Wrappers
  import opened Shogi
  import opened SfenCodes
  import opened PackedHand

  /** What the format records. King squares are 81 when there is no king, hands are counts
      by piece type. */
  datatype Position = Position(side: Color, blackKing: nat, whiteKing: nat, board: seq<Piece>, blackHand: seq<nat>, whiteHand: seq<nat>)

  const NO_SQUARE: nat := 81

  /** Boards, king squares and hands as the engine keeps them. */
  ghost predicate Valid(p: Position) {
    && |p.board| == SQUARE_NB && p.blackKing <= NO_SQUARE && p.whiteKing <= NO_SQUARE
    && (forall s: nat | s < SQUARE_NB :: p.board[s].Piece? ==> 1 <= p.board[s].kind <= 14)
    && (forall s: nat | s < SQUARE_NB :: p.board[s] == Piece(Black, KING) <==> s == p.blackKing)
    && (forall s: nat | s < SQUARE_NB :: p.board[s] == Piece(White, KING) <==> s == p.whiteKing)
    && IsHand(p.blackHand) && IsHand(p.whiteHand)
  }

  ghost predicate IsHand(h: seq<nat>) { |h| == 8 && h[0] == 0 }

  const EMPTY_HAND: seq<nat> := [0, 0, 0, 0, 0, 0, 0, 0]

  lemma KingsAre(p: Piece)
    ensures IsKing(p) <==> p == Piece(Black, KING) || p == Piece(White, KING)
  {
    if p.Piece? {
      assert p == Piece(p.color, p.kind);
      assert p.color == Black || p.color == White;
    }
  }

  ghost predicate IsBoard(board: seq<Piece>) {
    |board| == SQUARE_NB && forall s: nat | s < SQUARE_NB :: board[s].Piece? ==> 1 <= board[s].kind <= 14
  }

  // ----- the bits -----

  const PHYSICAL: seq<nat> := [0, 18, 4, 4, 4, 2, 2, 4]

  const HAND_ORDER: seq<PieceType> := [PAWN, LANCE, KNIGHT, SILVER, GOLD, BISHOP, ROOK]

  function HeaderBits(p: Position): (b: Bits)
    ensures |b| == 15
  {
    [p.side.White?] + CodeBits(p.blackKing, 7) + CodeBits(p.whiteKing, 7)
  }

  function SquareBits(board: seq<Piece>, i: nat): Bits
    requires IsBoard(board) && i <= SQUARE_NB
    decreases SQUARE_NB - i
  {
    if i == SQUARE_NB then []
    else (if IsKing(board[i]) then [] else BoardPieceBits(board[i])) + SquareBits(board, i + 1)
  }

  function Repeat(b: Bits, n: nat): (r: Bits)
    ensures |r| == |b| * n
  {
    if n == 0 then [] else b + Repeat(b, n - 1)
  }

  function HandBits(c: Color, hand: seq<nat>, j: nat): Bits
    requires |hand| == 8 && j <= 7
    decreases 7 - j
  {
    if j == 7 then [] else Repeat(HandPieceBits(c, HAND_ORDER[j]), hand[HAND_ORDER[j]]) + HandBits(c, hand, j + 1)
  }

  function BoxBits(box: seq<nat>, j: nat): Bits
    requires |box| == 8 && j <= 7
    decreases 7 - j
  {
    if j == 7 then [] else Repeat(BoxPieceBits(HAND_ORDER[j]), box[HAND_ORDER[j]]) + BoxBits(box, j + 1)
  }

  /** How many pieces of a base kind stand on the squares from `i` on. */
  function CountFrom(board: seq<Piece>, i: nat, raw: PieceType): nat
    requires i <= |board|
    decreases |board| - i
  {
    if i == |board| then 0 else (if IsOnBoard(board[i], raw) then 1 else 0) + CountFrom(board, i + 1, raw)
  }

  predicate IsOnBoard(p: Piece, raw: PieceType) { p.Piece? && !IsKing(p) && Raw(p.kind) == raw }

  /** Pieces of the physical set that are neither on the board nor in a hand. */
  function Missing(p: Position, raw: PieceType): int
    requires |p.blackHand| == 8 && |p.whiteHand| == 8 && raw < 8
  {
    PHYSICAL[raw] - CountFrom(p.board, 0, raw) - p.blackHand[raw] - p.whiteHand[raw]
  }

  ghost predicate WithinSet(p: Position)
    requires |p.blackHand| == 8 && |p.whiteHand| == 8
  {
    forall raw: nat | 1 <= raw <= 7 :: Missing(p, raw) >= 0
  }

  function Box(p: Position): (b: seq<nat>)
    requires |p.blackHand| == 8 && |p.whiteHand| == 8
    ensures |b| == 8
  {
    seq(8, (raw: nat) requires raw < 8 => if Missing(p, raw) < 0 then 0 else Missing(p, raw))
  }

  /** The whole bit string. */
  function Layout(p: Position): Bits
    requires IsBoard(p.board) && |p.blackHand| == 8 && |p.whiteHand| == 8
  {
    HeaderBits(p) + (SquareBits(p.board, 0) + (HandBits(Black, p.blackHand, 0) + (HandBits(White, p.whiteHand, 0) + BoxBits(Box(p), 0))))
  }

  // ----- how long it is -----

  /** The cost of this many pieces of each kind, beyond one bit per empty square. */
  function Cost(n: seq<nat>): nat
    requires |n| == 8
  {
    3 * n[1] + 5 * n[2] + 5 * n[3] + 5 * n[4] + 7 * n[5] + 7 * n[6] + 5 * n[7]
  }

  function Counts(board: seq<Piece>, i: nat): (n: seq<nat>)
    requires i <= |board|
    ensures |n| == 8
  {
    seq(8, (raw: nat) requires raw < 8 => CountFrom(board, i, raw))
  }

  function KingsFrom(board: seq<Piece>, i: nat): nat
    requires i <= |board|
    decreases |board| - i
  {
    if i == |board| then 0 else (if IsKing(board[i]) then 1 else 0) + KingsFrom(board, i + 1)
  }

  lemma {:induction false} SquareBitsLength(board: seq<Piece>, i: nat)
    requires IsBoard(board) && i <= SQUARE_NB
    ensures |SquareBits(board, i)| == SQUARE_NB - i - KingsFrom(board, i) + Cost(Counts(board, i))
    decreases SQUARE_NB - i
  {
    hide BoardPieceBits, Cost, Counts, PieceCost, CountFrom;
    if i < SQUARE_NB {
      SquareBitsLength(board, i + 1);
      SquareLength(board, i);
    } else {
      NothingCounted(board);
    }
  }

  lemma NothingCounted(board: seq<Piece>)
    ensures Cost(Counts(board, |board|)) == 0
  {
  }

  lemma SquareLength(board: seq<Piece>, i: nat)
    requires IsBoard(board) && i < SQUARE_NB
    ensures (if IsKing(board[i]) then 0 else |BoardPieceBits(board[i])|) + Cost(Counts(board, i + 1)) ==
            Cost(Counts(board, i)) + if IsKing(board[i]) then 0 else 1
  {
    hide BoardPieceBits, Cost, PieceCost;
    if board[i].Piece? && !IsKing(board[i]) {
      SameCostEverywhere(board[i], Black);
      CostOfOne(board, i);
    } else {
      assert Counts(board, i) == Counts(board, i + 1);
      EmptySquareBit();
    }
  }

  lemma EmptySquareBit()
    ensures |BoardPieceBits(NoPiece)| == 1
  {
  }

  lemma CostOfOne(board: seq<Piece>, i: nat)
    requires IsBoard(board) && i < SQUARE_NB && board[i].Piece? && !IsKing(board[i])
    ensures IsHandPiece(Raw(board[i].kind))
    ensures Cost(Counts(board, i)) == PieceCost(Raw(board[i].kind)) + Cost(Counts(board, i + 1))
  {
    var raw := Raw(board[i].kind);
    assert forall r: nat | r < 8 :: Counts(board, i)[r] == Counts(board, i + 1)[r] + if r == raw then 1 else 0;
    CostsSpelled();
  }

  lemma CostsSpelled()
    ensures PieceCost(1) == 3 && PieceCost(2) == 5 && PieceCost(3) == 5 && PieceCost(4) == 5
    ensures PieceCost(5) == 7 && PieceCost(6) == 7 && PieceCost(7) == 5
  {
  }

  function PartialCost(n: seq<nat>, j: nat): nat
    requires |n| == 8 && j <= 7
    decreases 7 - j
  {
    if j == 7 then 0 else PieceCost(HAND_ORDER[j]) * n[HAND_ORDER[j]] + PartialCost(n, j + 1)
  }

  lemma PartialIsCost(n: seq<nat>)
    requires |n| == 8
    ensures PartialCost(n, 0) == Cost(n)
  {
    CostsSpelled();
    hide PieceCost;
    assert PartialCost(n, 5) == 7 * n[5] + 7 * n[6];
    assert PartialCost(n, 3) == 5 * n[4] + 5 * n[7] + PartialCost(n, 5);
    assert PartialCost(n, 1) == 5 * n[2] + 5 * n[3] + PartialCost(n, 3);
  }

  lemma RepeatLength(b: Bits, n: nat, cost: nat)
    requires |b| == cost
    ensures |Repeat(b, n)| == cost * n
  {
  }

  lemma HandPiecesLength(c: Color, raw: PieceType, n: nat)
    requires IsHandPiece(raw)
    ensures |Repeat(HandPieceBits(c, raw), n)| == PieceCost(raw) * n == |Repeat(BoxPieceBits(raw), n)|
  {
    SameCostEverywhere(Piece(c, raw), c);
    hide HandPieceBits, BoxPieceBits, PieceCost, Repeat;
    RepeatLength(HandPieceBits(c, raw), n, PieceCost(raw));
    RepeatLength(BoxPieceBits(raw), n, PieceCost(raw));
  }

  lemma {:induction false} HandBitsLength(c: Color, hand: seq<nat>, j: nat)
    requires |hand| == 8 && j <= 7
    ensures |HandBits(c, hand, j)| == PartialCost(hand, j)
    decreases 7 - j
  {
    hide HandPieceBits, PieceCost, Repeat;
    if j < 7 {
      HandPiecesLength(c, HAND_ORDER[j], hand[HAND_ORDER[j]]);
      HandBitsLength(c, hand, j + 1);
    }
  }

  lemma {:induction false} BoxBitsLength(box: seq<nat>, j: nat)
    requires |box| == 8 && j <= 7
    ensures |BoxBits(box, j)| == PartialCost(box, j)
    decreases 7 - j
  {
    hide BoxPieceBits, PieceCost, Repeat;
    if j < 7 {
      HandPiecesLength(Black, HAND_ORDER[j], box[HAND_ORDER[j]]);
      BoxBitsLength(box, j + 1);
    }
  }

  lemma {:induction false} CountKings(p: Position, i: nat)
    requires Valid(p) && i <= SQUARE_NB
    ensures KingsFrom(p.board, i) == (if i <= p.blackKing < SQUARE_NB then 1 else 0) + (if i <= p.whiteKing < SQUARE_NB then 1 else 0)
    decreases SQUARE_NB - i
  {
    if i < SQUARE_NB {
      CountKings(p, i + 1);
      KingsAre(p.board[i]);
      assert i == p.blackKing ==> i != p.whiteKing;
    }
  }

  /** A complete set costs 162 bits. */
  lemma CompleteSet(a: seq<nat>, b: seq<nat>, c: seq<nat>, d: seq<nat>)
    requires |a| == 8 && |b| == 8 && |c| == 8 && |d| == 8
    requires forall raw: nat | 1 <= raw <= 7 :: a[raw] + b[raw] + c[raw] + d[raw] == PHYSICAL[raw]
    ensures Cost(a) + Cost(b) + Cost(c) + Cost(d) == 162
  {
    assert a[1] + b[1] + c[1] + d[1] == 18;
    assert a[2] + b[2] + c[2] + d[2] == 4 && a[3] + b[3] + c[3] + d[3] == 4 && a[4] + b[4] + c[4] + d[4] == 4;
    assert a[5] + b[5] + c[5] + d[5] == 2 && a[6] + b[6] + c[6] + d[6] == 2 && a[7] + b[7] + c[7] + d[7] == 4;
  }

  /** Within the physical set the length depends on the kings alone: one bit more for each
      king missing. */
  lemma {:induction false} LayoutLength(p: Position)
    requires Valid(p) && WithinSet(p)
    ensures |Layout(p)| == 256 + (if p.blackKing == NO_SQUARE then 1 else 0) + (if p.whiteKing == NO_SQUARE then 1 else 0)
  {
    hide HandBits, BoxBits, SquareBits, HeaderBits, CountFrom, Cost, KingsFrom, PartialCost;
    SquareBitsLength(p.board, 0);
    CountKings(p, 0);
    HandBitsLength(Black, p.blackHand, 0);
    HandBitsLength(White, p.whiteHand, 0);
    BoxBitsLength(Box(p), 0);
    PartialIsCost(p.blackHand);
    PartialIsCost(p.whiteHand);
    PartialIsCost(Box(p));
    BoxCompletes(p);
    CompleteSet(Counts(p.board, 0), p.blackHand, p.whiteHand, Box(p));
  }

  lemma BoxCompletes(p: Position)
    requires |p.blackHand| == 8 && |p.whiteHand| == 8 && WithinSet(p)
    ensures forall raw: nat | 1 <= raw <= 7 ::
              Counts(p.board, 0)[raw] + p.blackHand[raw] + p.whiteHand[raw] + Box(p)[raw] == PHYSICAL[raw]
  {
    hide CountFrom;
    forall raw: nat | 1 <= raw <= 7
      ensures Counts(p.board, 0)[raw] + p.blackHand[raw] + p.whiteHand[raw] + Box(p)[raw] == PHYSICAL[raw]
    {
      assert Missing(p, raw) >= 0;
    }
  }

  // ----- reading it -----

  /** A board with nothing but the kings. */
  function KingsOnly(blackKing: nat, whiteKing: nat): (b: seq<Piece>)
    ensures |b| == SQUARE_NB
  {
    seq(SQUARE_NB, (s: nat) => if s == blackKing then Piece(Black, KING) else if s == whiteKing then Piece(White, KING) else NoPiece)
  }

  /** Reads the squares from `i` on; kings' squares have no bits. */
  function ParseSquares(s: Bits, i: nat, blackKing: nat, whiteKing: nat, board: seq<Piece>): (r: Parsed<seq<Piece>>)
    requires i <= SQUARE_NB && |board| == SQUARE_NB
    ensures r.Parsed? ==> r.used <= |s| && |r.value| == SQUARE_NB
    decreases SQUARE_NB - i
  {
    if i == SQUARE_NB then Parsed(board, 0)
    else if i == blackKing || i == whiteKing then ParseSquares(s, i + 1, blackKing, whiteKing, board)
    else
      var p := ParseBoardPiece(s);
      if p.Fail? then Fail
      else
        var r := ParseSquares(s[p.used..], i + 1, blackKing, whiteKing, if p.value.NoPiece? then board else board[i := p.value]);
        if r.Fail? then Fail else Parsed(r.value, p.used + r.used)
  }

  datatype Hands = Hands(black: seq<nat>, white: seq<nat>)
  {
    predicate Sized() { |black| == 8 && |white| == 8 }

    function Add(c: Color, raw: PieceType, n: nat): (h: Hands)
      requires Sized() && raw < 8
      ensures h.Sized()
    {
      if c.Black? then Hands(black[raw := black[raw] + n], white) else Hands(black, white[raw := white[raw] + n])
    }
  }

  /** Reads hand pieces to the end, passing over the pieces of the box. */
  function ParseHands(s: Bits, h: Hands): (r: Option<Hands>)
    requires h.Sized()
    ensures r.Some? ==> r.value.Sized()
    decreases |s|
  {
    if s == [] then Some(h)
    else
      var p := ParseHandPiece(s);
      if p.Fail? then None
      else ParseHands(s[p.used..], if p.value.box then h else h.Add(p.value.color, p.value.raw, 1))
  }

  /** Pieces in hand are added to packed words; a hand is what its word then shows. */
  function Decode(b: Bits): Option<Position>
    requires |b| == 256
  {
    var blackKing, whiteKing := Value(b[1..8]), Value(b[8..15]);
    if blackKing > 81 || whiteKing > 81 || (blackKing < 81 && blackKing == whiteKing) then None
    else
      var squares := ParseSquares(b[15..], 0, blackKing, whiteKing, KingsOnly(blackKing, whiteKing));
      if squares.Fail? then None
      else
        var hands := ParseHands(b[15..][squares.used..], Hands(EMPTY_HAND, EMPTY_HAND));
        if hands.None? then None
        else
          Some(Position(if b[0] then White else Black, blackKing, whiteKing, squares.value,
                        Shown(Packed(hands.value.black)), Shown(Packed(hands.value.white))))
  }

  // ----- the round trip -----

  /** Squares before `i` and the kings are on the board already, the rest is still empty. */
  ghost predicate FilledTo(p: Position, i: nat, board: seq<Piece>)
    requires |p.board| == SQUARE_NB
  {
    && |board| == SQUARE_NB
    && forall s: nat | s < SQUARE_NB ::
         board[s] == if s < i || s == p.blackKing || s == p.whiteKing then p.board[s] else NoPiece
  }

  lemma {:induction false} SquaresReadBack(p: Position, i: nat, board: seq<Piece>, rest: Bits)
    requires Valid(p) && i <= SQUARE_NB && FilledTo(p, i, board)
    ensures ParseSquares(SquareBits(p.board, i) + rest, i, p.blackKing, p.whiteKing, board) == Parsed(p.board, |SquareBits(p.board, i)|)
    decreases SQUARE_NB - i
  {
    hide BoardPieceBits, ParseBoardPiece, FilledTo, SquareBits;
    FilledSize(p, i, board);
    if i == SQUARE_NB {
      AllFilled(p, board);
      SquaresEnd(p.board);
    } else if i == p.blackKing || i == p.whiteKing {
      KingSquare(p, i);
      KingStep(p, i, board);
      SquaresReadBack(p, i + 1, board, rest);
    } else {
      var piece, more := p.board[i], SquareBits(p.board, i + 1);
      PieceSquare(p, i, rest);
      BoardPieceReadsBack(piece, more + rest);
      assert (BoardPieceBits(piece) + (more + rest))[|BoardPieceBits(piece)|..] == more + rest;
      PieceStep(p, i, board);
      SquaresReadBack(p, i + 1, if piece.NoPiece? then board else board[i := piece], rest);
    }
  }

  lemma SquaresEnd(board: seq<Piece>)
    requires IsBoard(board)
    ensures SquareBits(board, SQUARE_NB) == []
  {
  }

  lemma KingSquare(p: Position, i: nat)
    requires Valid(p) && i < SQUARE_NB && (i == p.blackKing || i == p.whiteKing)
    ensures SquareBits(p.board, i) == SquareBits(p.board, i + 1)
  {
    KingsAre(p.board[i]);
    assert p.board[i] == Piece(Black, KING) || p.board[i] == Piece(White, KING);
  }

  lemma PieceSquare(p: Position, i: nat, rest: Bits)
    requires Valid(p) && i < SQUARE_NB && i != p.blackKing && i != p.whiteKing
    ensures IsBoardContent(p.board[i])
    ensures SquareBits(p.board, i) == BoardPieceBits(p.board[i]) + SquareBits(p.board, i + 1)
    ensures SquareBits(p.board, i) + rest == BoardPieceBits(p.board[i]) + (SquareBits(p.board, i + 1) + rest)
  {
    hide BoardPieceBits;
    KingsAre(p.board[i]);
    assert p.board[i] != Piece(Black, KING) && p.board[i] != Piece(White, KING);
  }

  lemma AllFilled(p: Position, board: seq<Piece>)
    requires |p.board| == SQUARE_NB && FilledTo(p, SQUARE_NB, board)
    ensures board == p.board
  {
  }

  lemma FilledSize(p: Position, i: nat, board: seq<Piece>)
    requires |p.board| == SQUARE_NB && FilledTo(p, i, board)
    ensures |board| == SQUARE_NB
  {
  }

  lemma KingStep(p: Position, i: nat, board: seq<Piece>)
    requires |p.board| == SQUARE_NB && i < SQUARE_NB && FilledTo(p, i, board) && (i == p.blackKing || i == p.whiteKing)
    ensures FilledTo(p, i + 1, board)
  {
  }

  lemma PieceStep(p: Position, i: nat, board: seq<Piece>)
    requires |p.board| == SQUARE_NB && i < SQUARE_NB && FilledTo(p, i, board) && i != p.blackKing && i != p.whiteKing
    ensures FilledTo(p, i + 1, if p.board[i].NoPiece? then board else board[i := p.board[i]])
  {
  }

  lemma {:induction false} RepeatedHandReadsBack(c: Color, raw: PieceType, n: nat, rest: Bits, h: Hands)
    requires IsHandPiece(raw) && h.Sized()
    ensures ParseHands(Repeat(HandPieceBits(c, raw), n) + rest, h) == ParseHands(rest, h.Add(c, raw, n))
    decreases n
  {
    hide HandPieceBits, ParseHandPiece;
    var b := HandPieceBits(c, raw);
    if n == 0 {
      assert Repeat(b, 0) + rest == rest;
      assert h.Add(c, raw, 0) == h;
    } else {
      var more := Repeat(b, n - 1) + rest;
      assert Repeat(b, n) + rest == b + more;
      HandPieceReadsBack(c, raw, more);
      assert (b + more)[|b|..] == more;
      RepeatedHandReadsBack(c, raw, n - 1, rest, h.Add(c, raw, 1));
      assert h.Add(c, raw, 1).Add(c, raw, n - 1) == h.Add(c, raw, n);
    }
  }

  lemma {:induction false} RepeatedBoxIsSkipped(raw: PieceType, n: nat, rest: Bits, h: Hands)
    requires IsHandPiece(raw) && h.Sized()
    ensures ParseHands(Repeat(BoxPieceBits(raw), n) + rest, h) == ParseHands(rest, h)
    decreases n
  {
    hide BoxPieceBits, ParseHandPiece;
    var b := BoxPieceBits(raw);
    if n == 0 {
      assert Repeat(b, 0) + rest == rest;
    } else {
      var more := Repeat(b, n - 1) + rest;
      assert Repeat(b, n) + rest == b + more;
      BoxPieceReadsBack(raw, more);
      assert (b + more)[|b|..] == more;
      RepeatedBoxIsSkipped(raw, n - 1, rest, h);
    }
  }

  lemma NothingLeft(h: Hands)
    requires h.Sized()
    ensures ParseHands([], h) == Some(h)
  {
  }

  /** The missing pieces are passed over, whatever they are. */
  lemma {:induction false} BoxIsSkipped(box: seq<nat>, j: nat, h: Hands)
    requires |box| == 8 && j <= 7 && h.Sized()
    ensures ParseHands(BoxBits(box, j), h) == Some(h)
    decreases 7 - j
  {
    hide Repeat, BoxPieceBits, ParseHands;
    if j == 7 {
      NothingLeft(h);
    } else {
      RepeatedBoxIsSkipped(HAND_ORDER[j], box[HAND_ORDER[j]], BoxBits(box, j + 1), h);
      BoxIsSkipped(box, j + 1, h);
    }
  }

  /** The place of a kind in the hand order. */
  const ORDER_OF: seq<nat> := [7, 0, 1, 2, 3, 5, 6, 4]

  /** The part of a hand that the first `j` kinds of the order make up. */
  function FirstKinds(hand: seq<nat>, j: nat): (h: seq<nat>)
    requires |hand| == 8
    ensures |h| == 8
  {
    seq(8, (raw: nat) requires raw < 8 => if ORDER_OF[raw] < j then hand[raw] else 0)
  }

  function WithHand(h: Hands, c: Color, hand: seq<nat>): Hands {
    if c.Black? then Hands(hand, h.white) else Hands(h.black, hand)
  }

  lemma NextKind(h: Hands, c: Color, hand: seq<nat>, j: nat)
    requires h.Sized() && |hand| == 8 && j < 7
    ensures WithHand(h, c, FirstKinds(hand, j)).Add(c, HAND_ORDER[j], hand[HAND_ORDER[j]]) == WithHand(h, c, FirstKinds(hand, j + 1))
  {
    var raw := HAND_ORDER[j];
    assert ORDER_OF[raw] == j;
    var a, b := FirstKinds(hand, j), FirstKinds(hand, j + 1);
    forall r: nat | r < 8
      ensures a[raw := a[raw] + hand[raw]][r] == b[r]
    {
      OrderIsFaithful(r, j);
    }
    assert a[raw := a[raw] + hand[raw]] == b;
  }

  lemma OrderIsFaithful(raw: nat, j: nat)
    requires raw < 8 && j < 7
    ensures ORDER_OF[raw] == j <==> raw == HAND_ORDER[j]
  {
  }

  lemma AllKinds(hand: seq<nat>)
    requires IsHand(hand)
    ensures FirstKinds(hand, 7) == hand && FirstKinds(hand, 0) == EMPTY_HAND
  {
  }

  lemma {:induction false} HandReadsBack(c: Color, hand: seq<nat>, j: nat, rest: Bits, h: Hands)
    requires |hand| == 8 && j <= 7 && h.Sized()
    ensures ParseHands(HandBits(c, hand, j) + rest, WithHand(h, c, FirstKinds(hand, j)))
            == ParseHands(rest, WithHand(h, c, FirstKinds(hand, 7)))
    decreases 7 - j
  {
    hide Repeat, HandPieceBits, ParseHands, FirstKinds, WithHand;
    assert WithHand(h, c, FirstKinds(hand, j)).Sized() && WithHand(h, c, FirstKinds(hand, 7)).Sized() by {
      StillSized(h, c, FirstKinds(hand, j));
      StillSized(h, c, FirstKinds(hand, 7));
    }
    if j == 7 {
      assert [] + rest == rest;
    } else {
      var raw := HAND_ORDER[j];
      var first, more := Repeat(HandPieceBits(c, raw), hand[raw]), HandBits(c, hand, j + 1);
      assert HandBits(c, hand, j) + rest == first + (more + rest);
      RepeatedHandReadsBack(c, raw, hand[raw], more + rest, WithHand(h, c, FirstKinds(hand, j)));
      NextKind(h, c, hand, j);
      HandReadsBack(c, hand, j + 1, rest, h);
    }
  }

  lemma StillSized(h: Hands, c: Color, hand: seq<nat>)
    requires h.Sized() && |hand| == 8
    ensures WithHand(h, c, hand).Sized()
  {
  }

  lemma AllHandsReadBack(p: Position)
    requires Valid(p)
    ensures ParseHands(HandBits(Black, p.blackHand, 0) + (HandBits(White, p.whiteHand, 0) + BoxBits(Box(p), 0)), Hands(EMPTY_HAND, EMPTY_HAND))
            == Some(Hands(p.blackHand, p.whiteHand))
  {
    hide HandBits, BoxBits, ParseHands, Box, FirstKinds;
    var h := Hands(EMPTY_HAND, EMPTY_HAND);
    AllKinds(p.blackHand);
    AllKinds(p.whiteHand);
    HandReadsBack(Black, p.blackHand, 0, HandBits(White, p.whiteHand, 0) + BoxBits(Box(p), 0), h);
    HandReadsBack(White, p.whiteHand, 0, BoxBits(Box(p), 0), Hands(p.blackHand, EMPTY_HAND));
    BoxIsSkipped(Box(p), 0, Hands(p.blackHand, p.whiteHand));
  }

  lemma HeaderReadsBack(p: Position, rest: Bits)
    requires p.blackKing <= 81 && p.whiteKing <= 81
    ensures var b := HeaderBits(p) + rest;
            b[0] == p.side.White? && Value(b[1..8]) == p.blackKing && Value(b[8..15]) == p.whiteKing && b[15..] == rest
  {
    hide CodeBits;
    var b := HeaderBits(p) + rest;
    assert b[1..8] == CodeBits(p.blackKing, 7)[..7];
    assert b[8..15] == CodeBits(p.whiteKing, 7)[..7];
    ValueOfPrefix(p.blackKing, 7, 7);
    ValueOfPrefix(p.whiteKing, 7, 7);
    LowOfSquare(p.blackKing);
    LowOfSquare(p.whiteKing);
  }

  lemma LowOfSquare(v: nat)
    requires v < 128
    ensures Low(v, 7) == v
  {
    SmallIsLow(v, 7, 128);
  }

  lemma {:induction false} SmallIsLow(v: nat, k: nat, bound: nat)
    requires v < bound && bound == Pow2(k)
    ensures Low(v, k) == v
  {
    if k > 0 {
      var half := Pow2(k - 1);
      assert bound == 2 * half && v / 2 < half;
      SmallIsLow(v / 2, k - 1, half);
    }
  }

  /** Decoding the bits of a position gives the position back. */
  lemma {:induction false} RoundTrip(p: Position)
    requires Valid(p) && WithinSet(p) && p.blackKing < NO_SQUARE && p.whiteKing < NO_SQUARE
    ensures |Layout(p)| == 256 && Decode(Layout(p)) == Some(p)
  {
    hide HandBits, BoxBits, ParseHands, Box, SquareBits, ParseSquares, HeaderBits, Value, WithinSet, Packed, Shown;
    LayoutLength(p);
    var hands := HandBits(Black, p.blackHand, 0) + (HandBits(White, p.whiteHand, 0) + BoxBits(Box(p), 0));
    var rest := SquareBits(p.board, 0) + hands;
    HeaderReadsBack(p, rest);
    KingsApart(p);
    SquaresReadBack(p, 0, KingsOnly(p.blackKing, p.whiteKing), hands);
    assert rest[|SquareBits(p.board, 0)|..] == hands;
    AllHandsReadBack(p);
    HandsFit(p);
  }

  /** A physical set fits the fields of a packed hand. */
  lemma HandsFit(p: Position)
    requires Valid(p) && WithinSet(p)
    ensures Shown(Packed(p.blackHand)) == p.blackHand && Shown(Packed(p.whiteHand)) == p.whiteHand
  {
    hide CountFrom, Packed, Shown;
    forall raw: nat | 1 <= raw < 8
      ensures p.blackHand[raw] < FIELD[raw] && p.whiteHand[raw] < FIELD[raw]
    {
      assert Missing(p, raw) >= 0;
    }
    FittingHandIsShown(p.blackHand);
    FittingHandIsShown(p.whiteHand);
  }

  lemma KingsApart(p: Position)
    requires Valid(p) && p.blackKing < NO_SQUARE && p.whiteKing < NO_SQUARE
    ensures p.blackKing != p.whiteKing
    ensures FilledTo(p, 0, KingsOnly(p.blackKing, p.whiteKing))
  {
    assert p.board[p.blackKing] == Piece(Black, KING);
    assert p.board[p.whiteKing] == Piece(White, KING);
  }

  /** Two positions with the same bits are the same position. */
  lemma {:induction false} LayoutIsInjective(p: Position, q: Position)
    requires Valid(p) && WithinSet(p) && p.blackKing < NO_SQUARE && p.whiteKing < NO_SQUARE
    requires Valid(q) && WithinSet(q) && q.blackKing < NO_SQUARE && q.whiteKing < NO_SQUARE
    requires Layout(p) == Layout(q)
    ensures p == q
  {
    hide Layout, Decode;
    RoundTrip(p);
    RoundTrip(q);
  }
}
