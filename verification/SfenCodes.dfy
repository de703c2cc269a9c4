/** The Huffman codes of the 32-byte position format, least-significant bit first, and the
    parsers that read them back. */
module SfenCodes {
  import opened Arithmetic
  import opened Shogi

  type Bits = seq<bool>

  function CodeBits(v: nat, n: nat): (b: Bits)
    ensures |b| == n
  {
    if n == 0 then [] else [v % 2 == 1] + CodeBits(v / 2, n - 1)
  }

  /** The value shifted right by `i` bits, and its `k` lowest bits. */
  function Shift(v: nat, i: nat): nat { if i == 0 then v else Shift(v / 2, i - 1) }

  function Low(v: nat, k: nat): nat { if k == 0 then 0 else v % 2 + 2 * Low(v / 2, k - 1) }

  lemma {:induction false} ValueOfPrefix(v: nat, n: nat, k: nat)
    requires k <= n
    ensures Value(CodeBits(v, n)[..k]) == Low(v, k)
  {
    if k > 0 {
      ValueOfPrefix(v / 2, n - 1, k - 1);
      assert CodeBits(v, n)[..k][1..] == CodeBits(v / 2, n - 1)[..k - 1];
    }
  }

  lemma {:induction false} BitAt(v: nat, n: nat, i: nat)
    requires i < n
    ensures CodeBits(v, n)[i] == (Shift(v, i) % 2 == 1)
  {
    if i > 0 {
      BitAt(v / 2, n - 1, i - 1);
    }
  }

  lemma {:induction false} ValueAppend(b: Bits, x: bool)
    ensures Value(b + [x]) == Value(b) + (if x then Pow2(|b|) else 0)
  {
    if b == [] {
      assert [x][1..] == [];
      assert b + [x] == [x];
    } else {
      ValueAppend(b[1..], x);
      assert (b + [x])[1..] == b[1..] + [x];
    }
  }

  // ----- the codes -----

  const BOARD_CODE: seq<nat> := [0x00, 0x01, 0x03, 0x0b, 0x07, 0x1f, 0x3f, 0x0f]
  const BOX_CODE: seq<nat> := [0x00, 0x02, 0x09, 0x0d, 0x0b, 0x2f, 0x3f, 0x1b]
  const CODE_BITS: seq<nat> := [1, 2, 4, 4, 4, 6, 6, 5]

  /** What stands on a square other than a king. */
  predicate IsBoardContent(p: Piece) {
    p.Piece? ==> (1 <= p.kind <= 14 && p.kind != KING)
  }

  /** The base kind of a piece. */
  function Raw(t: PieceType): PieceType { if IsPromoted(t) then Unpromote(t) else t }

  function BoardPieceBits(p: Piece): (b: Bits)
    requires IsBoardContent(p)
    ensures |b| >= 1
  {
    if p.NoPiece? then CodeBits(BOARD_CODE[0], CODE_BITS[0])
    else
      var raw := Raw(p.kind);
      CodeBits(BOARD_CODE[raw], CODE_BITS[raw]) + (if raw != GOLD then [IsPromoted(p.kind)] else []) + [p.color.White?]
  }

  function HandPieceBits(c: Color, raw: PieceType): (b: Bits)
    requires IsHandPiece(raw)
    ensures |b| >= 1
  {
    CodeBits(BOARD_CODE[raw] / 2, CODE_BITS[raw] - 1) + (if raw != GOLD then [false] else []) + [c.White?]
  }

  function BoxPieceBits(raw: PieceType): (b: Bits)
    requires IsHandPiece(raw)
    ensures |b| >= 1
  {
    CodeBits(BOX_CODE[raw], CODE_BITS[raw]) + if raw != GOLD then [false] else []
  }

  /** The bits a piece costs beyond the one of an empty square, wherever it is. */
  function PieceCost(raw: PieceType): nat
    requires IsHandPiece(raw)
  {
    if raw == GOLD then CODE_BITS[raw] else CODE_BITS[raw] + 1
  }

  /** On the board, in a hand or in the box, a piece costs the same. */
  lemma {:induction false} SameCostEverywhere(p: Piece, c: Color)
    requires p.Piece? && IsBoardContent(p)
    ensures IsHandPiece(Raw(p.kind))
    ensures |BoardPieceBits(p)| == 1 + PieceCost(Raw(p.kind))
    ensures |HandPieceBits(c, Raw(p.kind))| == PieceCost(Raw(p.kind)) == |BoxPieceBits(Raw(p.kind))|
  {
  }

  // ----- the parsers -----

  datatype Parsed<T> = Fail | Parsed(value: T, used: nat)

  /** The first kind from `raw` on whose board code has `n` bits and this value, or 8. */
  function MatchBoard(code: nat, n: nat, raw: nat): (r: nat)
    requires raw <= 8
    ensures r <= 8
    decreases 8 - raw
  {
    if raw == 8 then 8
    else if CODE_BITS[raw] == n && BOARD_CODE[raw] == code then raw
    else MatchBoard(code, n, raw + 1)
  }

  function BoardType(s: Bits, n: nat): (r: Parsed<PieceType>)
    requires n >= 1
    ensures r.Parsed? ==> r.value < 8 && 1 <= r.used <= |s|
    decreases 7 - n
  {
    if n > 6 || |s| < n then Fail
    else
      var raw := MatchBoard(Value(s[..n]), n, 0);
      if raw < 8 then Parsed(raw, n) else BoardType(s, n + 1)
  }

  function ParseBoardPiece(s: Bits): (r: Parsed<Piece>)
    ensures r.Parsed? ==> 1 <= r.used <= |s|
  {
    var t := BoardType(s, 1);
    if t.Fail? then Fail
    else if t.value == NO_PIECE_TYPE then Parsed(NoPiece, t.used)
    else
      var n := if t.value != GOLD then t.used + 1 else t.used;
      if |s| < n + 1 then Fail
      else
        var promoted := t.value != GOLD && s[t.used];
        Parsed(Piece(if s[n] then White else Black, if promoted then Promote(t.value) else t.value), n + 1)
  }

  function MatchHand(code: nat, n: nat, raw: nat): (r: nat)
    requires 1 <= raw <= 8
    ensures 1 <= r <= 8
    decreases 8 - raw
  {
    if raw == 8 then 8
    else if CODE_BITS[raw] - 1 == n && BOARD_CODE[raw] / 2 == code then raw
    else MatchHand(code, n, raw + 1)
  }

  function HandType(s: Bits, n: nat): (r: Parsed<PieceType>)
    requires n >= 1
    ensures r.Parsed? ==> IsHandPiece(r.value) && 1 <= r.used <= |s|
    decreases 6 - n
  {
    if n > 5 || |s| < n then Fail
    else
      var raw := MatchHand(Value(s[..n]), n, 1);
      if raw < 8 then Parsed(raw, n) else HandType(s, n + 1)
  }

  datatype HandPiece = HandPiece(raw: PieceType, color: Color, box: bool)

  function ParseHandPiece(s: Bits): (r: Parsed<HandPiece>)
    ensures r.Parsed? ==> IsHandPiece(r.value.raw) && 1 <= r.used <= |s|
  {
    var t := HandType(s, 1);
    if t.Fail? then Fail
    else
      var n := if t.value != GOLD then t.used + 1 else t.used;
      if |s| < n + 1 then Fail
      else Parsed(HandPiece(t.value, if s[n] then White else Black, t.value != GOLD && s[t.used]), n + 1)
  }

  // ----- reading back what was written -----

  lemma MatchBoardIs(code: nat, n: nat)
    ensures MatchBoard(code, n, 0) ==
            if n == 1 && code == 0 then 0 else if n == 2 && code == 1 then 1
            else if n == 4 && code == 3 then 2 else if n == 4 && code == 0xb then 3 else if n == 4 && code == 7 then 4
            else if n == 6 && code == 0x1f then 5 else if n == 6 && code == 0x3f then 6
            else if n == 5 && code == 0xf then 7 else 8
  {
    assert MatchBoard(code, n, 6) == if n == 6 && code == 0x3f then 6 else if n == 5 && code == 0xf then 7 else 8;
    assert MatchBoard(code, n, 4) == if n == 4 && code == 7 then 4 else if n == 6 && code == 0x1f then 5 else MatchBoard(code, n, 6);
    assert MatchBoard(code, n, 2) == if n == 4 && code == 3 then 2 else if n == 4 && code == 0xb then 3 else MatchBoard(code, n, 4);
  }

  lemma MatchHandIs(code: nat, n: nat)
    ensures MatchHand(code, n, 1) ==
            if n == 1 && code == 0 then 1
            else if n == 3 && code == 1 then 2 else if n == 3 && code == 5 then 3 else if n == 3 && code == 3 then 4
            else if n == 5 && code == 0xf then 5 else if n == 5 && code == 0x1f then 6
            else if n == 4 && code == 7 then 7 else 8
  {
    assert MatchHand(code, n, 6) == if n == 5 && code == 0x1f then 6 else if n == 4 && code == 7 then 7 else 8;
    assert MatchHand(code, n, 4) == if n == 3 && code == 3 then 4 else if n == 5 && code == 0xf then 5 else MatchHand(code, n, 6);
    assert MatchHand(code, n, 2) == if n == 3 && code == 1 then 2 else if n == 3 && code == 5 then 3 else MatchHand(code, n, 4);
  }

  lemma LowOfCodes()
    ensures Low(0x0, 1) == 0x0
    ensures Low(0x1, 1) == 0x1 && Low(0x1, 2) == 0x1 && Low(0x1, 3) == 0x1
    ensures Low(0x3, 1) == 0x1 && Low(0x3, 2) == 0x3 && Low(0x3, 3) == 0x3 && Low(0x3, 4) == 0x3
    ensures Low(0x5, 1) == 0x1 && Low(0x5, 2) == 0x1 && Low(0x5, 3) == 0x5
    ensures Low(0x7, 1) == 0x1 && Low(0x7, 2) == 0x3 && Low(0x7, 3) == 0x7 && Low(0x7, 4) == 0x7
    ensures Low(0xb, 1) == 0x1 && Low(0xb, 2) == 0x3 && Low(0xb, 3) == 0x3 && Low(0xb, 4) == 0xb
    ensures Low(0xf, 1) == 0x1 && Low(0xf, 2) == 0x3 && Low(0xf, 3) == 0x7 && Low(0xf, 4) == 0xf && Low(0xf, 5) == 0xf
    ensures Low(0x1f, 1) == 0x1 && Low(0x1f, 2) == 0x3 && Low(0x1f, 3) == 0x7 && Low(0x1f, 4) == 0xf && Low(0x1f, 5) == 0x1f && Low(0x1f, 6) == 0x1f
    ensures Low(0x3f, 1) == 0x1 && Low(0x3f, 2) == 0x3 && Low(0x3f, 3) == 0x7 && Low(0x3f, 4) == 0xf && Low(0x3f, 5) == 0x1f && Low(0x3f, 6) == 0x3f
  {
  }

  /** No board code is a prefix of another. */
  lemma BoardCodesArePrefixFree(raw: PieceType, n: nat)
    requires raw < 8 && 1 <= n <= CODE_BITS[raw]
    ensures MatchBoard(Low(BOARD_CODE[raw], n), n, 0) == if n == CODE_BITS[raw] then raw else 8
  {
    LowOfCodes();
    MatchBoardIs(Low(BOARD_CODE[raw], n), n);
  }

  lemma HandCodesArePrefixFree(raw: PieceType, n: nat)
    requires IsHandPiece(raw) && 1 <= n < CODE_BITS[raw]
    ensures MatchHand(Low(BOARD_CODE[raw] / 2, n), n, 1) == if n == CODE_BITS[raw] - 1 then raw else 8
  {
    LowOfCodes();
    MatchHandIs(Low(BOARD_CODE[raw] / 2, n), n);
  }

  lemma {:induction false} BoardTypeReadsBack(raw: PieceType, rest: Bits, n: nat)
    requires raw < 8 && 1 <= n <= CODE_BITS[raw]
    ensures BoardType(CodeBits(BOARD_CODE[raw], CODE_BITS[raw]) + rest, n) == Parsed(raw, CODE_BITS[raw])
    decreases CODE_BITS[raw] - n
  {
    var code := CodeBits(BOARD_CODE[raw], CODE_BITS[raw]);
    assert (code + rest)[..n] == code[..n];
    ValueOfPrefix(BOARD_CODE[raw], CODE_BITS[raw], n);
    BoardCodesArePrefixFree(raw, n);
    assert n <= 6;
    if n < CODE_BITS[raw] {
      BoardTypeReadsBack(raw, rest, n + 1);
    }
  }

  /** A hand code, possibly followed by more bits of the box code that extends it. */
  lemma {:induction false} HandTypeReadsBack(raw: PieceType, rest: Bits, n: nat)
    requires IsHandPiece(raw) && 1 <= n < CODE_BITS[raw]
    ensures HandType(CodeBits(BOARD_CODE[raw] / 2, CODE_BITS[raw] - 1) + rest, n) == Parsed(raw, CODE_BITS[raw] - 1)
    decreases CODE_BITS[raw] - n
  {
    var code := CodeBits(BOARD_CODE[raw] / 2, CODE_BITS[raw] - 1);
    assert (code + rest)[..n] == code[..n];
    ValueOfPrefix(BOARD_CODE[raw] / 2, CODE_BITS[raw] - 1, n);
    HandCodesArePrefixFree(raw, n);
    assert n <= 5;
    if n < CODE_BITS[raw] - 1 {
      HandTypeReadsBack(raw, rest, n + 1);
    }
  }

  lemma PromoteReadsBack(t: PieceType)
    requires 1 <= t <= 14 && t != KING
    ensures Raw(t) < 8 && IsHandPiece(Raw(t)) && t == if IsPromoted(t) then Promote(Raw(t)) else Raw(t)
    ensures Raw(t) == GOLD ==> !IsPromoted(t)
  {
  }

  /** What follows the code of a board piece. */
  function PieceTail(p: Piece): Bits
    requires p.Piece? && IsBoardContent(p)
  {
    (if Raw(p.kind) != GOLD then [IsPromoted(p.kind)] else []) + [p.color.White?]
  }

  /** A board piece is read back, with exactly its own bits consumed. */
  lemma {:induction false} BoardPieceReadsBack(p: Piece, rest: Bits)
    requires IsBoardContent(p)
    ensures ParseBoardPiece(BoardPieceBits(p) + rest) == Parsed(p, |BoardPieceBits(p)|)
  {
    hide BoardType, CodeBits, PieceTail;
    if p.NoPiece? {
      BoardTypeReadsBack(0, rest, 1);
    } else {
      var raw := Raw(p.kind);
      PromoteReadsBack(p.kind);
      var code := CodeBits(BOARD_CODE[raw], CODE_BITS[raw]);
      BoardBitsSplit(p, rest);
      BoardTypeReadsBack(raw, PieceTail(p) + rest, 1);
      TailReadsBack(p, code, rest);
    }
  }

  lemma BoardBitsSplit(p: Piece, rest: Bits)
    requires p.Piece? && IsBoardContent(p)
    ensures BoardPieceBits(p) == CodeBits(BOARD_CODE[Raw(p.kind)], CODE_BITS[Raw(p.kind)]) + PieceTail(p)
    ensures BoardPieceBits(p) + rest == CodeBits(BOARD_CODE[Raw(p.kind)], CODE_BITS[Raw(p.kind)]) + (PieceTail(p) + rest)
  {
    hide CodeBits;
  }

  lemma TailReadsBack(p: Piece, code: Bits, rest: Bits)
    requires p.Piece? && IsBoardContent(p)
    ensures var s, n := code + (PieceTail(p) + rest), |code| + if Raw(p.kind) != GOLD then 1 else 0;
            && |s| > n && s[n] == p.color.White? && |PieceTail(p)| == n + 1 - |code|
            && (Raw(p.kind) != GOLD ==> s[|code|] == IsPromoted(p.kind))
  {
  }

  lemma {:induction false} HandPieceReadsBack(c: Color, raw: PieceType, rest: Bits)
    requires IsHandPiece(raw)
    ensures ParseHandPiece(HandPieceBits(c, raw) + rest) == Parsed(HandPiece(raw, c, false), |HandPieceBits(c, raw)|)
  {
    hide HandType, CodeBits;
    var s := HandPieceBits(c, raw) + rest;
    var code := CodeBits(BOARD_CODE[raw] / 2, CODE_BITS[raw] - 1);
    var tail := (if raw != GOLD then [false] else []) + [c.White?] + rest;
    assert s == code + tail;
    HandTypeReadsBack(raw, tail, 1);
  }

  /** The kind a box code is mistaken for: the gold of the box reads as a silver. */
  function ReadAs(raw: PieceType): PieceType { if raw == GOLD then SILVER else raw }

  /** Every box code is the hand code of the kind it reads as, then a set box bit, then the
      bit that passes for the colour. */
  lemma BoxCodeSplits(raw: PieceType)
    requires IsHandPiece(raw)
    ensures var t := ReadAs(raw);
            BoxPieceBits(raw) == CodeBits(BOARD_CODE[t] / 2, CODE_BITS[t] - 1) + [true] + [raw == GOLD]
  {
    CodesSpelled();
  }

  lemma CodesSpelled()
    ensures CodeBits(0x2, 2) == [false, true]
    ensures CodeBits(0x0, 1) == [false]
    ensures CodeBits(0x9, 4) == [true, false, false, true]
    ensures CodeBits(0x1, 3) == [true, false, false]
    ensures CodeBits(0xd, 4) == [true, false, true, true]
    ensures CodeBits(0x5, 3) == [true, false, true]
    ensures CodeBits(0xb, 4) == [true, true, false, true]
    ensures CodeBits(0x3, 3) == [true, true, false]
    ensures CodeBits(0x2f, 6) == [true, true, true, true, false, true]
    ensures CodeBits(0xf, 5) == [true, true, true, true, false]
    ensures CodeBits(0x3f, 6) == [true, true, true, true, true, true]
    ensures CodeBits(0x1f, 5) == [true, true, true, true, true]
    ensures CodeBits(0x1b, 5) == [true, true, false, true, true]
    ensures CodeBits(0x7, 4) == [true, true, true, false]
  {
  }

  /** A piece of the box is always recognized as one, and exactly its bits are consumed. */
  lemma {:induction false} BoxPieceReadsBack(raw: PieceType, rest: Bits)
    requires IsHandPiece(raw)
    ensures ParseHandPiece(BoxPieceBits(raw) + rest) ==
            Parsed(HandPiece(ReadAs(raw), if raw == GOLD then White else Black, true), |BoxPieceBits(raw)|)
  {
    var t := ReadAs(raw);
    BoxCodeSplits(raw);
    var code := CodeBits(BOARD_CODE[t] / 2, CODE_BITS[t] - 1);
    var tail := [true] + [raw == GOLD] + rest;
    assert BoxPieceBits(raw) + rest == code + tail;
    HandTypeReadsBack(t, tail, 1);
  }
}
