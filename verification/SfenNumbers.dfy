/** The number that bytes of the 32-byte position format stand for, and that of a position's layout. */
module SfenNumbers {
  import opened Arithmetic
  import opened Shogi
  import opened SfenCodes
  import opened SfenLayout
  import opened PackedSfen

  // ----- bytes as one number, the first byte lowest -----

  function Number(data: seq<bv8>): nat { if data == [] then 0 else data[0] as nat + 256 * Number(data[1..]) }

  lemma ByteBits(b: bv8)
    ensures b as nat == (if b & 0x01 != 0 then 1 else 0) + (if b & 0x02 != 0 then 2 else 0) + (if b & 0x04 != 0 then 4 else 0)
                        + (if b & 0x08 != 0 then 8 else 0) + (if b & 0x10 != 0 then 16 else 0) + (if b & 0x20 != 0 then 32 else 0)
                        + (if b & 0x40 != 0 then 64 else 0) + (if b & 0x80 != 0 then 128 else 0)
  {
  }

  function Digit(x: bool): nat { if x then 1 else 0 }

  function Nibble(q: Bits): nat
    requires |q| == 4
  {
    Digit(q[0]) + 2 * Digit(q[1]) + 4 * Digit(q[2]) + 8 * Digit(q[3])
  }

  function LowBits(b: bv8): Bits { [BitOf(b, 0), BitOf(b, 1), BitOf(b, 2), BitOf(b, 3)] }

  function HighBits(b: bv8): Bits { [BitOf(b, 4), BitOf(b, 5), BitOf(b, 6), BitOf(b, 7)] }

  lemma ByteNibbles(b: bv8)
    ensures b as nat == Nibble(LowBits(b)) + 16 * Nibble(HighBits(b))
  {
    ByteBits(b);
  }

  lemma OneBit(x: bool, tail: Bits)
    ensures Value([x] + tail) == Digit(x) + 2 * Value(tail)
  {
    assert ([x] + tail)[1..] == tail;
  }

  lemma FourBits(q: Bits, tail: Bits)
    requires |q| == 4
    ensures Value(q + tail) == Nibble(q) + 16 * Value(tail)
  {
    hide Value, Digit;
    OneBit(q[3], tail);
    OneBit(q[2], [q[3]] + tail);
    OneBit(q[1], [q[2]] + ([q[3]] + tail));
    OneBit(q[0], [q[1]] + ([q[2]] + ([q[3]] + tail)));
    assert [q[0]] + ([q[1]] + ([q[2]] + ([q[3]] + tail))) == q + tail;
  }

  lemma ByteValue(b: bv8, tail: Bits)
    ensures Value(LowBits(b) + (HighBits(b) + tail)) == b as nat + 256 * Value(tail)
  {
    hide Value, BitOf, Nibble;
    ByteNibbles(b);
    FourBits(HighBits(b), tail);
    FourBits(LowBits(b), HighBits(b) + tail);
  }

  lemma StreamStep(data: seq<bv8>)
    requires data != []
    ensures Stream(data) == LowBits(data[0]) + (HighBits(data[0]) + Stream(data[1..]))
  {
    hide BitOf;
    var s := LowBits(data[0]) + (HighBits(data[0]) + Stream(data[1..]));
    forall i: nat | i < 8 * |data|
      ensures Stream(data)[i] == s[i]
    {
      if i >= 8 {
        assert data[i / 8] == data[1..][(i - 8) / 8];
      }
    }
    assert |s| == 8 * |data|;
  }

  /** The bit stream of any bytes is their number in binary. */
  lemma {:induction false} StreamIsNumber(data: seq<bv8>)
    ensures Value(Stream(data)) == Number(data)
  {
    hide Stream, LowBits, HighBits;
    if data != [] {
      StreamIsNumber(data[1..]);
      StreamStep(data);
      ByteValue(data[0], Stream(data[1..]));
    } else {
      NoBytes();
    }
  }

  lemma NoBytes()
    ensures Stream([]) == []
  {
  }

  lemma {:induction false} SameValue(a: Bits, b: Bits)
    requires |a| == |b| && Value(a) == Value(b)
    ensures a == b
  {
    if a != [] {
      SameValue(a[1..], b[1..]);
      assert a == [a[0]] + a[1..] && b == [b[0]] + b[1..];
    }
  }

  lemma ByteIsSmall(b: bv8)
    ensures b as nat < 256
  {
  }

  lemma HeadAndRest(b: nat, n: nat, c: nat, m: nat)
    requires b < 256 && c < 256 && b + 256 * n == c + 256 * m
    ensures b == c && n == m
  {
  }

  lemma FourBytes(a: bv8, b: bv8, c: bv8, d: bv8, rest: seq<bv8>)
    ensures Number([a, b, c, d] + rest) == a as nat + 0x100 * (b as nat) + 0x1_0000 * (c as nat) + 0x100_0000 * (d as nat) + 0x1_0000_0000 * Number(rest)
  {
    hide Number;
    OneByte(d, rest);
    OneByte(c, [d] + rest);
    OneByte(b, [c] + ([d] + rest));
    OneByte(a, [b] + ([c] + ([d] + rest)));
    assert [a] + ([b] + ([c] + ([d] + rest))) == [a, b, c, d] + rest;
  }

  lemma OneByte(b: bv8, rest: seq<bv8>)
    ensures Number([b] + rest) == b as nat + 0x100 * Number(rest)
  {
    assert ([b] + rest)[1..] == rest;
  }

  lemma {:induction false} NumbersDiffer(data: seq<bv8>, data': seq<bv8>)
    requires |data| == |data'| && Number(data) == Number(data')
    ensures data == data'
  {
    if data != [] {
      ByteIsSmall(data[0]);
      ByteIsSmall(data'[0]);
      HeadAndRest(data[0] as nat, Number(data[1..]), data'[0] as nat, Number(data'[1..]));
      SameByte(data[0], data'[0]);
      NumbersDiffer(data[1..], data'[1..]);
      assert data == [data[0]] + data[1..] && data' == [data'[0]] + data'[1..];
    }
  }

  lemma SameByte(b: bv8, c: bv8)
    requires b as nat == c as nat
    ensures b == c
  {
    assert (b as nat) as bv8 == b && (c as nat) as bv8 == c;
  }

  // ----- the layout as one number -----

  lemma Twice(n: nat, y: nat)
    requires n > 0
    ensures Pow2(n) * y == 2 * (Pow2(n - 1) * y)
  {
  }

  lemma FirstBit(a: Bits, b: Bits)
    requires a != []
    ensures a + b == [a[0]] + (a[1..] + b) && a == [a[0]] + a[1..] && |a[1..]| == |a| - 1
  {
  }

  lemma NoBits(b: Bits)
    ensures Value([]) == 0 && Pow2(0) == 1 && [] + b == b
  {
  }

  lemma {:induction false} ValueConcat(a: Bits, b: Bits)
    ensures Value(a + b) == Value(a) + Pow2(|a|) * Value(b)
  {
    hide *;
    if a == [] {
      NoBits(b);
    } else {
      FirstBit(a, b);
      ValueConcat(a[1..], b);
      Twice(|a|, Value(b));
      OneBit(a[0], a[1..] + b);
      OneBit(a[0], a[1..]);
    }
  }

  lemma {:induction false} CodeValue(v: nat, n: nat)
    requires v < Pow2(n)
    ensures Value(CodeBits(v, n)) == v
  {
    if n > 0 {
      CodeValue(v / 2, n - 1);
      assert CodeBits(v, n)[1..] == CodeBits(v / 2, n - 1);
    }
  }

  lemma CodeThen(v: nat, n: nat, tail: Bits)
    requires v < Pow2(n)
    ensures Value(CodeBits(v, n) + tail) == v + Pow2(n) * Value(tail)
  {
    CodeValue(v, n);
    ValueConcat(CodeBits(v, n), tail);
  }

  const WEIGHTS: seq<nat> := [2, 4, 16, 16, 16, 64, 64, 32]

  lemma WeightsAre(raw: nat)
    requires raw < 8
    ensures WEIGHTS[raw] == Pow2(CODE_BITS[raw]) && BOARD_CODE[raw] < WEIGHTS[raw] && BOX_CODE[raw] < WEIGHTS[raw]
    ensures raw > 0 ==> WEIGHTS[raw] == 2 * Pow2(CODE_BITS[raw] - 1) && BOARD_CODE[raw] / 2 < Pow2(CODE_BITS[raw] - 1)
  {
  }

  /** A piece followed by bits that stand for `rest`. */
  function PieceNumber(p: Piece, rest: nat): nat
    requires IsBoardContent(p)
  {
    if p.NoPiece? then BOARD_CODE[0] + 2 * rest
    else
      var raw := Raw(p.kind);
      BOARD_CODE[raw] + WEIGHTS[raw] * Flags(raw, IsPromoted(p.kind), p.color, rest)
  }

  function Flags(raw: PieceType, promoted: bool, c: Color, rest: nat): nat {
    if raw == GOLD then Digit(c.White?) + 2 * rest else Digit(promoted) + 2 * (Digit(c.White?) + 2 * rest)
  }

  lemma FlagBits(raw: PieceType, promoted: bool, c: Color, tail: Bits)
    ensures Value((if raw != GOLD then [promoted] else []) + [c.White?] + tail) == Flags(raw, promoted, c, Value(tail))
  {
    hide Value;
    OneBit(c.White?, tail);
    if raw != GOLD {
      OneBit(promoted, [c.White?] + tail);
      assert [promoted] + [c.White?] + tail == [promoted] + ([c.White?] + tail);
    } else {
      assert [] + [c.White?] + tail == [c.White?] + tail;
    }
  }

  lemma PieceValue(p: Piece, tail: Bits)
    requires IsBoardContent(p)
    ensures Value(BoardPieceBits(p) + tail) == PieceNumber(p, Value(tail))
  {
    hide Value, CodeBits, Flags, Pow2;
    if p.NoPiece? {
      WeightsAre(0);
      CodeThen(BOARD_CODE[0], CODE_BITS[0], tail);
    } else {
      var raw := Raw(p.kind);
      WeightsAre(raw);
      var flags := (if raw != GOLD then [IsPromoted(p.kind)] else []) + [p.color.White?];
      FlagBits(raw, IsPromoted(p.kind), p.color, tail);
      CodeThen(BOARD_CODE[raw], CODE_BITS[raw], flags + tail);
      assert BoardPieceBits(p) + tail == CodeBits(BOARD_CODE[raw], CODE_BITS[raw]) + (flags + tail);
    }
  }

  lemma HandPieceValue(c: Color, raw: PieceType, tail: Bits)
    requires IsHandPiece(raw)
    ensures Value(HandPieceBits(c, raw) + tail) == BOARD_CODE[raw] / 2 + WEIGHTS[raw] / 2 * Flags(raw, false, c, Value(tail))
  {
    hide Value, CodeBits, Flags, Pow2;
    WeightsAre(raw);
    var flags := (if raw != GOLD then [false] else []) + [c.White?];
    FlagBits(raw, false, c, tail);
    CodeThen(BOARD_CODE[raw] / 2, CODE_BITS[raw] - 1, flags + tail);
    assert HandPieceBits(c, raw) + tail == CodeBits(BOARD_CODE[raw] / 2, CODE_BITS[raw] - 1) + (flags + tail);
  }

  lemma BoxPieceValue(raw: PieceType, tail: Bits)
    requires IsHandPiece(raw)
    ensures Value(BoxPieceBits(raw) + tail) == BOX_CODE[raw] + WEIGHTS[raw] * if raw == GOLD then Value(tail) else 2 * Value(tail)
  {
    hide Value, CodeBits, Pow2;
    WeightsAre(raw);
    var flag := if raw != GOLD then [false] else [];
    OneBit(false, tail);
    CodeThen(BOX_CODE[raw], CODE_BITS[raw], flag + tail);
    assert [] + tail == tail;
    assert BoxPieceBits(raw) + tail == CodeBits(BOX_CODE[raw], CODE_BITS[raw]) + (flag + tail);
  }

  /** A square: a king's takes no bits. */
  function Put(p: Piece, rest: nat): nat
    requires IsKing(p) || IsBoardContent(p)
  {
    if IsKing(p) then rest else PieceNumber(p, rest)
  }

  /** `n` squares from `i` on, followed by bits that stand for `rest`. */
  function SquaresNumber(board: seq<Piece>, i: nat, n: nat, rest: nat): nat
    requires IsBoard(board) && i + n <= SQUARE_NB
    decreases n
  {
    if n == 0 then rest else Put(board[i], SquaresNumber(board, i + 1, n - 1, rest))
  }

  lemma BitsOfSquare(board: seq<Piece>, i: nat, tail: Bits)
    requires IsBoard(board) && i < SQUARE_NB
    ensures IsKing(board[i]) || IsBoardContent(board[i])
    ensures SquareBits(board, i) + tail ==
            if IsKing(board[i]) then SquareBits(board, i + 1) + tail else BoardPieceBits(board[i]) + (SquareBits(board, i + 1) + tail)
  {
    hide BoardPieceBits;
    assert [] + SquareBits(board, i + 1) == SquareBits(board, i + 1);
  }

  lemma SquareValue(board: seq<Piece>, i: nat, tail: Bits)
    requires IsBoard(board) && i < SQUARE_NB
    ensures IsKing(board[i]) || IsBoardContent(board[i])
    ensures Value(SquareBits(board, i) + tail) == Put(board[i], Value(SquareBits(board, i + 1) + tail))
  {
    hide Value, PieceNumber, BoardPieceBits, SquareBits, IsBoardContent, IsKing;
    BitsOfSquare(board, i, tail);
    if !IsKing(board[i]) {
      PieceValue(board[i], SquareBits(board, i + 1) + tail);
    }
  }

  lemma {:induction false} SquaresValue(board: seq<Piece>, i: nat, n: nat, tail: Bits)
    requires IsBoard(board) && i + n <= SQUARE_NB
    ensures Value(SquareBits(board, i) + tail) == SquaresNumber(board, i, n, Value(SquareBits(board, i + n) + tail))
    decreases n
  {
    hide Value, Put, SquareBits, IsBoard;
    if n > 0 {
      SquaresValue(board, i + 1, n - 1, tail);
      SquareValue(board, i, tail);
    }
  }

  /** `n` pieces in hand, and `n` in the box, followed by bits that stand for `rest`. */
  function HeldNumber(c: Color, raw: PieceType, n: nat, rest: nat): nat
    requires IsHandPiece(raw)
  {
    if n == 0 then rest else BOARD_CODE[raw] / 2 + WEIGHTS[raw] / 2 * Flags(raw, false, c, HeldNumber(c, raw, n - 1, rest))
  }

  function BoxedNumber(raw: PieceType, n: nat, rest: nat): nat
    requires IsHandPiece(raw)
  {
    if n == 0 then rest
    else
      var after := BoxedNumber(raw, n - 1, rest);
      BOX_CODE[raw] + WEIGHTS[raw] * if raw == GOLD then after else 2 * after
  }

  lemma {:induction false} HeldValue(c: Color, raw: PieceType, n: nat, tail: Bits)
    requires IsHandPiece(raw)
    ensures Value(Repeat(HandPieceBits(c, raw), n) + tail) == HeldNumber(c, raw, n, Value(tail))
  {
    hide Value, HandPieceBits, Flags;
    if n > 0 {
      var rest := Repeat(HandPieceBits(c, raw), n - 1) + tail;
      HandPieceValue(c, raw, rest);
      assert Repeat(HandPieceBits(c, raw), n) + tail == HandPieceBits(c, raw) + rest;
      HeldValue(c, raw, n - 1, tail);
    } else {
      assert Repeat(HandPieceBits(c, raw), 0) + tail == tail;
    }
  }

  lemma {:induction false} BoxedValue(raw: PieceType, n: nat, tail: Bits)
    requires IsHandPiece(raw)
    ensures Value(Repeat(BoxPieceBits(raw), n) + tail) == BoxedNumber(raw, n, Value(tail))
  {
    hide Value, BoxPieceBits;
    if n > 0 {
      var rest := Repeat(BoxPieceBits(raw), n - 1) + tail;
      BoxPieceValue(raw, rest);
      assert Repeat(BoxPieceBits(raw), n) + tail == BoxPieceBits(raw) + rest;
      BoxedValue(raw, n - 1, tail);
    } else {
      assert Repeat(BoxPieceBits(raw), 0) + tail == tail;
    }
  }

  function HandNumber(c: Color, hand: seq<nat>, j: nat, rest: nat): nat
    requires |hand| == 8 && j <= 7
    decreases 7 - j
  {
    if j == 7 then rest else HeldNumber(c, HAND_ORDER[j], hand[HAND_ORDER[j]], HandNumber(c, hand, j + 1, rest))
  }

  function BoxNumber(box: seq<nat>, j: nat, rest: nat): nat
    requires |box| == 8 && j <= 7
    decreases 7 - j
  {
    if j == 7 then rest else BoxedNumber(HAND_ORDER[j], box[HAND_ORDER[j]], BoxNumber(box, j + 1, rest))
  }

  lemma {:induction false} HandValue(c: Color, hand: seq<nat>, j: nat, tail: Bits)
    requires |hand| == 8 && j <= 7
    ensures Value(HandBits(c, hand, j) + tail) == HandNumber(c, hand, j, Value(tail))
    decreases 7 - j
  {
    hide Value, HeldNumber, Repeat, HandPieceBits;
    if j < 7 {
      var rest := HandBits(c, hand, j + 1) + tail;
      HandValue(c, hand, j + 1, tail);
      HeldValue(c, HAND_ORDER[j], hand[HAND_ORDER[j]], rest);
      assert HandBits(c, hand, j) + tail == Repeat(HandPieceBits(c, HAND_ORDER[j]), hand[HAND_ORDER[j]]) + rest;
    } else {
      assert HandBits(c, hand, 7) + tail == tail;
    }
  }

  lemma {:induction false} BoxValue(box: seq<nat>, j: nat, tail: Bits)
    requires |box| == 8 && j <= 7
    ensures Value(BoxBits(box, j) + tail) == BoxNumber(box, j, Value(tail))
    decreases 7 - j
  {
    hide Value, BoxedNumber, Repeat, BoxPieceBits;
    if j < 7 {
      var rest := BoxBits(box, j + 1) + tail;
      BoxValue(box, j + 1, tail);
      BoxedValue(HAND_ORDER[j], box[HAND_ORDER[j]], rest);
      assert BoxBits(box, j) + tail == Repeat(BoxPieceBits(HAND_ORDER[j]), box[HAND_ORDER[j]]) + rest;
    } else {
      assert BoxBits(box, 7) + tail == tail;
    }
  }

  /** Side to move and king squares, then squares, hands and box. */
  function HeaderNumber(p: Position, rest: nat): nat { Digit(p.side.White?) + 2 * (p.blackKing + 128 * (p.whiteKing + 128 * rest)) }

  lemma HeaderValue(p: Position, tail: Bits)
    requires p.blackKing <= NO_SQUARE && p.whiteKing <= NO_SQUARE
    ensures Value(HeaderBits(p) + tail) == HeaderNumber(p, Value(tail))
  {
    hide Value, CodeBits;
    assert Pow2(7) == 128;
    CodeThen(p.whiteKing, 7, tail);
    CodeThen(p.blackKing, 7, CodeBits(p.whiteKing, 7) + tail);
    OneBit(p.side.White?, CodeBits(p.blackKing, 7) + (CodeBits(p.whiteKing, 7) + tail));
    assert HeaderBits(p) + tail == [p.side.White?] + (CodeBits(p.blackKing, 7) + (CodeBits(p.whiteKing, 7) + tail));
  }

  /** What follows the squares. */
  function TailNumber(p: Position, box: seq<nat>): nat
    requires |p.blackHand| == 8 && |p.whiteHand| == 8 && |box| == 8
  {
    HandNumber(Black, p.blackHand, 0, HandNumber(White, p.whiteHand, 0, BoxNumber(box, 0, 0)))
  }

  /** The layout as a number, once the squares' part is known. */
  lemma LayoutValue(p: Position, squares: nat)
    requires IsBoard(p.board) && |p.blackHand| == 8 && |p.whiteHand| == 8 && p.blackKing <= NO_SQUARE && p.whiteKing <= NO_SQUARE
    requires forall tail: Bits | Value(tail) == TailNumber(p, Box(p)) :: Value(SquareBits(p.board, 0) + tail) == squares
    ensures Value(Layout(p)) == HeaderNumber(p, squares)
  {
    hide Value, SquareBits, HandBits, BoxBits, HeaderBits, HandNumber, BoxNumber, Box, HeaderNumber;
    var box := BoxBits(Box(p), 0);
    var white := HandBits(White, p.whiteHand, 0) + box;
    var black := HandBits(Black, p.blackHand, 0) + white;
    BoxValue(Box(p), 0, []);
    assert box + [] == box;
    EmptyValue();
    HandValue(White, p.whiteHand, 0, box);
    HandValue(Black, p.blackHand, 0, white);
    HeaderValue(p, SquareBits(p.board, 0) + black);
  }

  lemma {:induction false} CountsAdd(board: seq<Piece>, i: nat, n: nat, raw: PieceType)
    requires i + n <= |board|
    ensures CountFrom(board, i, raw) == CountAmong(board, i, n, raw) + CountFrom(board, i + n, raw)
    decreases n
  {
    if n > 0 {
      CountsAdd(board, i + 1, n - 1, raw);
    }
  }

  function CountAmong(board: seq<Piece>, i: nat, n: nat, raw: PieceType): nat
    requires i + n <= |board|
    decreases n
  {
    if n == 0 then 0 else (if IsOnBoard(board[i], raw) then 1 else 0) + CountAmong(board, i + 1, n - 1, raw)
  }

  /** Bytes that stand for the layout's number are the only ones that read as it. */
  lemma BytesOf(p: Position, bytes: seq<bv8>, data: seq<bv8>)
    requires Valid(p) && WithinSet(p) && p.blackKing < NO_SQUARE && p.whiteKing < NO_SQUARE
    requires |data| == |bytes| == BYTES && Value(Layout(p)) == Number(bytes)
    ensures Stream(data) == Layout(p) <==> data == bytes
  {
    hide Value, Layout, Number, Stream, WithinSet;
    LayoutLength(p);
    StreamIsNumber(data);
    StreamIsNumber(bytes);
    if Stream(data) == Layout(p) {
      NumbersDiffer(data, bytes);
    }
    SameValue(Stream(bytes), Layout(p));
  }
}
