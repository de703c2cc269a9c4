/** The 32-byte position codec: a bit writer and a bit reader over the bytes, and the
    encoder and decoder that use them. */
module PackedSfen {
  import opened Arithmetic
  import opened Wrappers
  import opened Shogi
  import opened SfenCodes
  import opened SfenLayout
  import opened PackedHand

  const BYTES: nat := 32
  const TOTAL_BITS: nat := 256

  // ----- bytes and bits -----

  function Mask(k: nat): bv8
    requires k < 8
  {
    match k
    case 0 => 0x01
    case 1 => 0x02
    case 2 => 0x04
    case 3 => 0x08
    case 4 => 0x10
    case 5 => 0x20
    case 6 => 0x40
    case _ => 0x80
  }

  function BitOf(b: bv8, k: nat): bool
    requires k < 8
  {
    b & Mask(k) != 0
  }

  /** The bits of the bytes, least-significant bit of the first byte first. */
  function Stream(data: seq<bv8>): (s: Bits)
    ensures |s| == 8 * |data|
  {
    seq(8 * |data|, (i: nat) requires i < 8 * |data| => BitOf(data[i / 8], i % 8))
  }

  lemma SetOneBit(b: bv8, k: nat, j: nat)
    requires k < 8 && j < 8
    ensures BitOf(b | Mask(k), j) == (BitOf(b, j) || j == k)
  {
    MaskedOr(b, Mask(k), Mask(j));
    MasksAreDisjoint(k, j);
  }

  lemma MaskedOr(b: bv8, m: bv8, n: bv8)
    ensures (b | m) & n == (b & n) | (m & n)
    ensures m & n == 0 ==> (b | m) & n == b & n
    ensures m == n && n != 0 ==> (b | m) & n != 0
  {
  }

  lemma MasksAreDisjoint(k: nat, j: nat)
    requires k < 8 && j < 8
    ensures Mask(k) != 0 && (k != j ==> Mask(k) & Mask(j) == 0)
  {
  }

  lemma SetStreamBit(data: seq<bv8>, c: nat)
    requires c < 8 * |data|
    ensures Stream(data[c / 8 := data[c / 8] | Mask(c % 8)]) == Stream(data)[c := true]
  {
    hide BitOf, Mask;
    var data' := data[c / 8 := data[c / 8] | Mask(c % 8)];
    forall i: nat | i < 8 * |data|
      ensures Stream(data')[i] == Stream(data)[c := true][i]
    {
      SetOneBit(data[c / 8], c % 8, i % 8);
    }
    assert Stream(data') == Stream(data)[c := true];
  }

  class BitWriter {
    const data: array<bv8>
    var cursor: nat

    ghost predicate Valid()
      reads this`cursor, data
    {
      && data.Length == BYTES && cursor <= TOTAL_BITS
      && forall i: nat | cursor <= i < TOTAL_BITS :: !Stream(data[..])[i]
    }

    ghost function Written(): Bits
      requires Valid()
      reads this`cursor, data
    {
      Stream(data[..])[..cursor]
    }

    constructor (packed: array<bv8>)
      requires packed.Length == BYTES
      modifies packed
      ensures data == packed && cursor == 0 && Valid() && Written() == []
    {
      data := packed;
      cursor := 0;
      new;
      var i: nat := 0;
      while i < packed.Length
        invariant i <= packed.Length && cursor == 0 && data == packed
        invariant forall k: nat | k < i :: packed[k] == 0
      {
        packed[i] := 0;
        i := i + 1;
      }
      ZeroStream(data[..]);
    }

    /** Sets the bit at the cursor. */
    method SetBit()
      requires data.Length == BYTES && cursor < TOTAL_BITS
      modifies data
      ensures Stream(data[..]) == old(Stream(data[..]))[cursor := true]
    {
      ghost var was := data[..];
      SetStreamBit(was, cursor);
      data[cursor / 8] := data[cursor / 8] | Mask(cursor % 8);
      assert data[..] == was[cursor / 8 := was[cursor / 8] | Mask(cursor % 8)];
    }

    /** Appends one bit. */
    method Push(bit: bool)
      requires Valid() && cursor < TOTAL_BITS
      modifies this`cursor, data
      ensures Valid() && cursor == old(cursor) + 1 && Written() == old(Written()) + [bit]
    {
      hide Stream;
      ghost var was := Stream(data[..]);
      if bit {
        SetBit();
      }
      cursor := cursor + 1;
      assert Stream(data[..])[..cursor] == was[..cursor - 1] + [bit];
    }

    /** Appends the `bits` lowest bits of a value, or nothing when they do not fit. */
    method Write(value: nat, bits: nat) returns (ok: bool)
      requires Valid()
      modifies this`cursor, data
      ensures Valid() && (ok <==> old(cursor) + bits <= TOTAL_BITS)
      ensures ok ==> Written() == old(Written()) + CodeBits(value, bits)
      ensures !ok ==> Written() == old(Written())
      ensures ok ==> cursor == old(cursor) + bits
    {
      if cursor + bits > TOTAL_BITS {
        return false;
      }
      hide Stream, Shift, CodeBits;
      var i: nat := 0;
      while i < bits
        invariant i <= bits && Valid() && cursor == old(cursor) + i
        invariant Written() == old(Written()) + CodeBits(value, bits)[..i]
      {
        BitAt(value, bits, i);
        Push(Shift(value, i) % 2 == 1);
        assert CodeBits(value, bits)[..i + 1] == CodeBits(value, bits)[..i] + [CodeBits(value, bits)[i]];
        i := i + 1;
      }
      assert CodeBits(value, bits)[..bits] == CodeBits(value, bits);
      ok := true;
    }
  }

  lemma ZeroStream(data: seq<bv8>)
    requires forall k: nat | k < |data| :: data[k] == 0
    ensures forall i: nat | i < 8 * |data| :: !Stream(data)[i]
  {
    forall i: nat | i < 8 * |data|
      ensures !Stream(data)[i]
    {
      assert data[i / 8] == 0;
      ZeroByte(i % 8);
    }
  }

  lemma ZeroByte(k: nat)
    requires k < 8
    ensures !BitOf(0, k)
  {
    MaskedZero(Mask(k));
  }

  lemma MaskedZero(m: bv8)
    ensures 0 & m == 0
  {
  }

  class BitReader {
    const packed: array<bv8>
    var cursor: nat

    ghost predicate Valid()
      reads this`cursor
    {
      packed.Length == BYTES && cursor <= TOTAL_BITS
    }

    /** The bits not read yet. */
    ghost function Rest(): Bits
      requires Valid()
      reads this`cursor, packed
    {
      Stream(packed[..])[cursor..]
    }

    constructor (packed: array<bv8>)
      requires packed.Length == BYTES
      ensures this.packed == packed && Valid() && cursor == 0
    {
      this.packed := packed;
      cursor := 0;
    }

    /** The bit under the cursor. */
    function BitAtCursor(): (bit: bool)
      requires Valid() && cursor < TOTAL_BITS
      reads this`cursor, packed
      ensures bit == Stream(packed[..])[cursor]
    {
      BitOf(packed[cursor / 8], cursor % 8)
    }

    method Read(bits: nat) returns (ok: bool, value: nat)
      requires Valid()
      modifies this`cursor
      ensures Valid() && (ok <==> old(cursor) + bits <= TOTAL_BITS)
      ensures ok ==> cursor == old(cursor) + bits && value == Value(old(Rest())[..bits])
      ensures !ok ==> cursor == old(cursor)
    {
      value := 0;
      if cursor + bits > TOTAL_BITS {
        return false, 0;
      }
      hide Value, Stream, BitOf;
      ghost var rest := Rest();
      var i: nat := 0;
      EmptyValue();
      while i < bits
        invariant i <= bits && Valid() && cursor == old(cursor) + i
        invariant value == Value(rest[..i])
      {
        var bit := BitAtCursor();
        AppendedBit(rest, i);
        value := value + if bit then Pow2(i) else 0;
        cursor := cursor + 1;
        i := i + 1;
      }
      ok := true;
    }

    method ReadBit() returns (ok: bool, bit: bool)
      requires Valid()
      modifies this`cursor
      ensures Valid() && (ok <==> old(cursor) + 1 <= TOTAL_BITS)
      ensures ok ==> cursor == old(cursor) + 1 && bit == old(Rest())[0]
      ensures !ok ==> cursor == old(cursor)
    {
      var v: nat;
      ghost var rest := Rest();
      ok, v := Read(1);
      bit := v != 0;
      if ok {
        ValueOfBit(rest);
      }
    }
  }

  lemma EmptyValue()
    ensures Value([]) == 0
  {
  }

  lemma ValueOfBit(s: Bits)
    requires |s| >= 1
    ensures Value(s[..1]) == if s[0] then 1 else 0
  {
    assert s[..1][1..] == [];
  }

  // ----- writing pieces -----

  /** What a write that may run out of room does: it appends exactly `b`, or `b` does not
      fit. */
  ghost predicate Appends(before: Bits, after: Bits, b: Bits, ok: bool) {
    if ok then after == before + b else |before| + |b| > TOTAL_BITS
  }

  method WriteBoardPiece(w: BitWriter, piece: Piece) returns (ok: bool)
    requires w.Valid() && IsBoardContent(piece)
    modifies w`cursor, w.data
    ensures w.Valid() && Appends(old(w.Written()), w.Written(), BoardPieceBits(piece), ok)
  {
    hide Stream, CodeBits;
    if piece.NoPiece? {
      ok := w.Write(BOARD_CODE[0], CODE_BITS[0]);
      return;
    }
    var promoted := IsPromoted(piece.kind);
    var raw: PieceType := if promoted then Unpromote(piece.kind) else piece.kind;
    if raw < 1 || raw > 7 {
      return false;
    }
    ok := w.Write(BOARD_CODE[raw], CODE_BITS[raw]);
    if !ok {
      return;
    }
    OneBitCodes();
    if raw != GOLD {
      ok := w.Write(if promoted then 1 else 0, 1);
      if !ok {
        return;
      }
    }
    ok := w.Write(if piece.color.White? then 1 else 0, 1);
  }

  lemma OneBitCodes()
    ensures CodeBits(0, 1) == [false] && CodeBits(1, 1) == [true]
  {
    assert CodeBits(0, 1) == [0 % 2 == 1] + CodeBits(0, 0);
    assert CodeBits(1, 1) == [1 % 2 == 1] + CodeBits(0, 0);
  }

  method WriteHandPiece(w: BitWriter, color: Color, raw: PieceType) returns (ok: bool)
    requires w.Valid() && IsHandPiece(raw)
    modifies w`cursor, w.data
    ensures w.Valid() && Appends(old(w.Written()), w.Written(), HandPieceBits(color, raw), ok)
  {
    hide Stream, CodeBits;
    ok := w.Write(BOARD_CODE[raw] / 2, CODE_BITS[raw] - 1);
    if !ok {
      return;
    }
    OneBitCodes();
    if raw != GOLD {
      ok := w.Write(0, 1);
      if !ok {
        return;
      }
    }
    ok := w.Write(if color.White? then 1 else 0, 1);
  }

  method WritePieceBoxPiece(w: BitWriter, raw: PieceType) returns (ok: bool)
    requires w.Valid() && IsHandPiece(raw)
    modifies w`cursor, w.data
    ensures w.Valid() && Appends(old(w.Written()), w.Written(), BoxPieceBits(raw), ok)
  {
    hide Stream, CodeBits;
    ok := w.Write(BOX_CODE[raw], CODE_BITS[raw]);
    if !ok {
      return;
    }
    OneBitCodes();
    if raw != GOLD {
      ok := w.Write(0, 1);
    }
  }

  lemma RepeatOnce(b: Bits, n: nat)
    ensures Repeat(b, n) + b == Repeat(b, n + 1)
  {
    if n > 0 {
      RepeatOnce(b, n - 1);
      assert b + Repeat(b, n - 1) + b == b + (Repeat(b, n - 1) + b);
    } else {
      assert b + [] == b;
    }
  }

  lemma {:induction false} RepeatGrows(b: Bits, n: nat, m: nat)
    requires n <= m
    ensures |Repeat(b, n)| <= |Repeat(b, m)|
    decreases m
  {
    if n < m {
      RepeatOnce(b, m - 1);
      RepeatGrows(b, n, m - 1);
    }
  }

  method WriteHandPieces(w: BitWriter, color: Color, raw: PieceType, count: nat) returns (ok: bool)
    requires w.Valid() && IsHandPiece(raw)
    modifies w`cursor, w.data
    ensures w.Valid() && Appends(old(w.Written()), w.Written(), Repeat(HandPieceBits(color, raw), count), ok)
  {
    hide Stream, HandPieceBits, Repeat;
    ghost var b := HandPieceBits(color, raw);
    RepeatNone(b);
    var i: nat := 0;
    while i < count
      invariant i <= count && w.Valid() && Appends(old(w.Written()), w.Written(), Repeat(b, i), true)
    {
      RepeatOnce(b, i);
      RepeatGrows(b, i + 1, count);
      ok := WriteHandPiece(w, color, raw);
      if !ok {
        return;
      }
      i := i + 1;
    }
    ok := true;
  }

  lemma RepeatNone(b: Bits)
    ensures Repeat(b, 0) == []
  {
  }

  method WriteBoxPieces(w: BitWriter, raw: PieceType, count: nat) returns (ok: bool)
    requires w.Valid() && IsHandPiece(raw)
    modifies w`cursor, w.data
    ensures w.Valid() && Appends(old(w.Written()), w.Written(), Repeat(BoxPieceBits(raw), count), ok)
  {
    hide Stream, BoxPieceBits, Repeat;
    ghost var b := BoxPieceBits(raw);
    RepeatNone(b);
    var i: nat := 0;
    while i < count
      invariant i <= count && w.Valid() && Appends(old(w.Written()), w.Written(), Repeat(b, i), true)
    {
      RepeatOnce(b, i);
      RepeatGrows(b, i + 1, count);
      ok := WritePieceBoxPiece(w, raw);
      if !ok {
        return;
      }
      i := i + 1;
    }
    ok := true;
  }

  // ----- the encoder -----

  /** The header: side to move and both king squares. */
  method WriteHeader(w: BitWriter, p: Position) returns (ok: bool)
    requires w.Valid() && w.cursor == 0 && Valid(p)
    modifies w`cursor, w.data
    ensures w.Valid() && ok && w.Written() == HeaderBits(p)
  {
    hide Stream, CodeBits;
    OneBitCodes();
    ok := w.Write(if p.side.White? then 1 else 0, 1);
    ok := w.Write(p.blackKing, 7);
    ok := w.Write(p.whiteKing, 7);
  }

  /** The physical pieces not yet used up once the squares before `i` are counted. */
  ghost predicate LeftAfter(board: seq<Piece>, i: nat, remaining: seq<int>)
    requires i <= |board|
  {
    && |remaining| == 8
    && forall raw: nat | 1 <= raw <= 7 :: remaining[raw] == PHYSICAL[raw] - CountFrom(board, 0, raw) + CountFrom(board, i, raw)
  }

  lemma CountSquare(board: seq<Piece>, i: nat, remaining: seq<int>)
    requires IsBoard(board) && i < SQUARE_NB && LeftAfter(board, i, remaining)
    ensures !IsKing(board[i]) && board[i].Piece? ==>
              1 <= Raw(board[i].kind) <= 7 && LeftAfter(board, i + 1, remaining[Raw(board[i].kind) := remaining[Raw(board[i].kind)] - 1])
    ensures IsKing(board[i]) || board[i].NoPiece? ==> LeftAfter(board, i + 1, remaining)
  {
  }

  /** Too many of a kind on the board already. */
  lemma Overfull(p: Position, i: nat, remaining: seq<int>, raw: nat)
    requires Valid(p) && i <= SQUARE_NB && LeftAfter(p.board, i, remaining) && 1 <= raw <= 7 && remaining[raw] < 0
    ensures !WithinSet(p)
  {
    assert Missing(p, raw) < 0;
  }

  /** The squares, each piece taken off the physical set. */
  method WriteSquares(w: BitWriter, p: Position) returns (ok: bool, remaining: seq<int>)
    requires w.Valid() && Valid(p)
    modifies w`cursor, w.data
    ensures w.Valid()
    ensures |remaining| == 8
    ensures ok ==> w.Written() == old(w.Written()) + SquareBits(p.board, 0) && LeftAfter(p.board, SQUARE_NB, remaining)
    ensures !ok ==> !WithinSet(p) || |old(w.Written())| + |SquareBits(p.board, 0)| > TOTAL_BITS
  {
    hide Stream, BoardPieceBits, LeftAfter, WithinSet, SquareBits;
    remaining := PHYSICAL;
    ghost var done: Bits := [];
    AllLeft(p.board);
    var square: nat := 0;
    while square < SQUARE_NB
      invariant square <= SQUARE_NB && w.Valid() && w.Written() == old(w.Written()) + done
      invariant done + SquareBits(p.board, square) == SquareBits(p.board, 0)
      invariant LeftAfter(p.board, square, remaining) && |remaining| == 8
    {
      var piece := p.board[square];
      SquareStep(p.board, square);
      CountSquare(p.board, square, remaining);
      if !(piece.Piece? && piece.kind == KING) {
        ghost var next := BoardPieceBits(piece);
        assert done + next + SquareBits(p.board, square + 1) == SquareBits(p.board, 0);
        ok := WriteBoardPiece(w, piece);
        if !ok {
          return;
        }
        done := done + next;
        if piece.Piece? {
          var raw: PieceType := if IsPromoted(piece.kind) then Unpromote(piece.kind) else piece.kind;
          remaining := remaining[raw := remaining[raw] - 1];
          if raw < 1 || raw > 7 || remaining[raw] < 0 {
            Overfull(p, square + 1, remaining, raw);
            return false, remaining;
          }
        }
      }
      square := square + 1;
    }
    SquaresEnd(p.board);
    ok := true;
  }

  lemma AllLeft(board: seq<Piece>)
    ensures LeftAfter(board, 0, PHYSICAL)
  {
  }

  lemma SquareStep(board: seq<Piece>, i: nat)
    requires IsBoard(board) && i < SQUARE_NB
    ensures IsKing(board[i]) ==> SquareBits(board, i) == SquareBits(board, i + 1)
    ensures !IsKing(board[i]) ==> IsBoardContent(board[i]) && SquareBits(board, i) == BoardPieceBits(board[i]) + SquareBits(board, i + 1)
  {
    hide BoardPieceBits;
  }

  /** What is left after taking the first `j` kinds of a hand. */
  ghost predicate LessHand(before: seq<int>, hand: seq<nat>, j: nat, after: seq<int>) {
    && |before| == 8 && |after| == 8 && |hand| == 8
    && forall raw: nat | 1 <= raw <= 7 :: after[raw] == before[raw] - (if ORDER_OF[raw] < j then hand[raw] else 0)
  }

  lemma LessNextKind(before: seq<int>, hand: seq<nat>, j: nat, after: seq<int>)
    requires j < 7 && LessHand(before, hand, j, after)
    ensures var raw := HAND_ORDER[j];
            LessHand(before, hand, j + 1, after[raw := after[raw] - hand[raw]]) && after[raw] == before[raw]
  {
    forall r: nat | 1 <= r <= 7
      ensures ORDER_OF[r] == j <==> r == HAND_ORDER[j]
    {
      OrderIsFaithful(r, j);
    }
  }

  method WriteHand(w: BitWriter, color: Color, hand: seq<nat>, before: seq<int>) returns (ok: bool, remaining: seq<int>)
    requires w.Valid() && |hand| == 8 && |before| == 8
    modifies w`cursor, w.data
    ensures w.Valid()
    ensures |remaining| == 8
    ensures ok ==> w.Written() == old(w.Written()) + HandBits(color, hand, 0) && LessHand(before, hand, 7, remaining)
    ensures ok ==> forall raw: nat | 1 <= raw <= 7 :: remaining[raw] >= 0
    ensures !ok ==> (exists raw: nat :: 1 <= raw <= 7 && before[raw] - hand[raw] < 0)
                    || |old(w.Written())| + |HandBits(color, hand, 0)| > TOTAL_BITS
  {
    hide Stream, HandBits, Repeat, HandPieceBits, LessHand;
    remaining := before;
    ghost var done: Bits := [];
    LessNothing(before, hand);
    var j: nat := 0;
    while j < |HAND_ORDER|
      invariant j <= 7 && w.Valid() && w.Written() == old(w.Written()) + done
      invariant done + HandBits(color, hand, j) == HandBits(color, hand, 0)
      invariant LessHand(before, hand, j, remaining) && |remaining| == 8
      invariant forall k: nat | k < j :: remaining[HAND_ORDER[k]] >= 0
    {
      var raw := HAND_ORDER[j];
      LessNextKind(before, hand, j, remaining);
      OrderIsDistinct(j);
      remaining := remaining[raw := remaining[raw] - hand[raw]];
      if remaining[raw] < 0 {
        return false, remaining;
      }
      ghost var next := Repeat(HandPieceBits(color, raw), hand[raw]);
      HandStep(color, hand, j);
      assert done + next + HandBits(color, hand, j + 1) == HandBits(color, hand, 0);
      ok := WriteHandPieces(w, color, raw, hand[raw]);
      if !ok {
        return;
      }
      done := done + next;
      j := j + 1;
    }
    HandsEnd(color, hand);
    EveryKindInOrder(remaining);
    ok := true;
  }

  lemma LessNothing(before: seq<int>, hand: seq<nat>)
    requires |before| == 8 && |hand| == 8
    ensures LessHand(before, hand, 0, before)
  {
  }

  lemma OrderIsDistinct(j: nat)
    requires j < 7
    ensures forall k: nat | k < j :: HAND_ORDER[k] != HAND_ORDER[j]
  {
    forall k: nat | k < j
      ensures HAND_ORDER[k] != HAND_ORDER[j]
    {
      OrderIsFaithful(HAND_ORDER[j], j);
      OrderIsFaithful(HAND_ORDER[k], k);
    }
  }

  lemma EveryKindInOrder(n: seq<int>)
    requires |n| == 8 && forall k: nat | k < 7 :: n[HAND_ORDER[k]] >= 0
    ensures forall raw: nat | 1 <= raw <= 7 :: n[raw] >= 0
  {
    forall raw: nat | 1 <= raw <= 7
      ensures n[raw] >= 0
    {
      assert ORDER_OF[raw] < 7;
      OrderIsFaithful(raw, ORDER_OF[raw]);
    }
  }

  lemma HandStep(color: Color, hand: seq<nat>, j: nat)
    requires |hand| == 8 && j < 7
    ensures HandBits(color, hand, j) == Repeat(HandPieceBits(color, HAND_ORDER[j]), hand[HAND_ORDER[j]]) + HandBits(color, hand, j + 1)
  {
    hide Repeat, HandPieceBits;
  }

  lemma HandsEnd(color: Color, hand: seq<nat>)
    requires |hand| == 8
    ensures HandBits(color, hand, 7) == []
  {
  }

  method WriteBox(w: BitWriter, remaining: seq<int>, ghost box: seq<nat>) returns (ok: bool)
    requires w.Valid() && |remaining| == 8 && |box| == 8 && forall raw: nat | 1 <= raw <= 7 :: remaining[raw] == box[raw]
    modifies w`cursor, w.data
    ensures w.Valid() && Appends(old(w.Written()), w.Written(), BoxBits(box, 0), ok)
  {
    hide Stream, BoxBits, Repeat, BoxPieceBits;
    ghost var done: Bits := [];
    var j: nat := 0;
    while j < |HAND_ORDER|
      invariant j <= 7 && w.Valid() && w.Written() == old(w.Written()) + done
      invariant done + BoxBits(box, j) == BoxBits(box, 0)
    {
      var raw := HAND_ORDER[j];
      ghost var next := Repeat(BoxPieceBits(raw), box[raw]);
      BoxStep(box, j);
      assert done + next + BoxBits(box, j + 1) == BoxBits(box, 0);
      assert remaining[raw] == box[raw];
      ok := WriteBoxPieces(w, raw, remaining[raw]);
      if !ok {
        return;
      }
      done := done + next;
      j := j + 1;
    }
    BoxEnd(box);
    ok := true;
  }

  lemma BoxStep(box: seq<nat>, j: nat)
    requires |box| == 8 && j < 7
    ensures BoxBits(box, j) == Repeat(BoxPieceBits(HAND_ORDER[j]), box[HAND_ORDER[j]]) + BoxBits(box, j + 1)
  {
    hide Repeat, BoxPieceBits;
  }

  lemma BoxEnd(box: seq<nat>)
    requires |box| == 8
    ensures BoxBits(box, 7) == []
  {
  }

  /** The positions the format can hold. */
  ghost predicate Encodable(p: Position)
    requires |p.blackHand| == 8 && |p.whiteHand| == 8
  {
    WithinSet(p) && p.blackKing < NO_SQUARE && p.whiteKing < NO_SQUARE
  }

  lemma EncodableFits(p: Position)
    requires Valid(p) && WithinSet(p)
    ensures Encodable(p) <==> |Layout(p)| <= TOTAL_BITS
    ensures Encodable(p) ==> |Layout(p)| == TOTAL_BITS
  {
    hide Layout, WithinSet;
    LayoutLength(p);
  }

  /** Where the pieces went, once both hands are written. */
  lemma HandsCounted(p: Position, r0: seq<int>, r1: seq<int>, r2: seq<int>)
    requires Valid(p) && LeftAfter(p.board, SQUARE_NB, r0) && LessHand(r0, p.blackHand, 7, r1) && LessHand(r1, p.whiteHand, 7, r2)
    ensures forall raw: nat | 1 <= raw <= 7 :: r2[raw] == Missing(p, raw)
    ensures (forall raw: nat | 1 <= raw <= 7 :: r2[raw] >= 0) ==> WithinSet(p) && forall raw: nat | 1 <= raw <= 7 :: r2[raw] == Box(p)[raw]
  {
    assert forall raw: nat | 1 <= raw <= 7 :: ORDER_OF[raw] < 7;
    assert forall raw: nat | raw < 8 :: CountFrom(p.board, SQUARE_NB, raw) == 0;
  }

  lemma BlackHandOverfull(p: Position, r0: seq<int>, raw: nat)
    requires Valid(p) && LeftAfter(p.board, SQUARE_NB, r0) && 1 <= raw <= 7 && r0[raw] - p.blackHand[raw] < 0
    ensures !WithinSet(p)
  {
    assert CountFrom(p.board, SQUARE_NB, raw) == 0;
    assert Missing(p, raw) < 0;
  }

  lemma WhiteHandOverfull(p: Position, r0: seq<int>, r1: seq<int>, raw: nat)
    requires Valid(p) && LeftAfter(p.board, SQUARE_NB, r0) && LessHand(r0, p.blackHand, 7, r1)
    requires 1 <= raw <= 7 && r1[raw] - p.whiteHand[raw] < 0
    ensures !WithinSet(p)
  {
    assert CountFrom(p.board, SQUARE_NB, raw) == 0;
    assert ORDER_OF[raw] < 7;
    assert Missing(p, raw) < 0;
  }

  /** A part that does not fit makes the whole too long. */
  lemma PartTooLong(p: Position)
    requires Valid(p) && WithinSet(p)
    requires || 15 + |SquareBits(p.board, 0)| > TOTAL_BITS
             || 15 + |SquareBits(p.board, 0)| + |HandBits(Black, p.blackHand, 0)| > TOTAL_BITS
             || 15 + |SquareBits(p.board, 0)| + |HandBits(Black, p.blackHand, 0)| + |HandBits(White, p.whiteHand, 0)| > TOTAL_BITS
             || |Layout(p)| > TOTAL_BITS
    ensures !Encodable(p)
  {
    hide SquareBits, HandBits, BoxBits, WithinSet;
    EncodableFits(p);
  }

  /** Encodes exactly the positions of a physical set with both kings, each into exactly
      256 bits. */
  method ToPackedSfen(p: Position, packed: array<bv8>) returns (ok: bool)
    requires Valid(p) && packed.Length == BYTES
    modifies packed
    ensures ok <==> Encodable(p)
    ensures ok ==> Stream(packed[..]) == Layout(p)
  {
    hide Stream, SquareBits, HandBits, BoxBits, HeaderBits, WithinSet, LeftAfter, LessHand, Valid, Box;
    IsSized(p);
    var w := new BitWriter(packed);
    ok := WriteHeader(w, p);
    var remaining: seq<int>, r1: seq<int>, r2: seq<int>;
    ok, remaining := WriteSquares(w, p);
    if !ok {
      if WithinSet(p) {
        PartTooLong(p);
      }
      return;
    }
    ok, r1 := WriteHand(w, Black, p.blackHand, remaining);
    if !ok {
      if WithinSet(p) {
        NoBlackOverflow(p, remaining);
        PartTooLong(p);
      }
      return;
    }
    ok, r2 := WriteHand(w, White, p.whiteHand, r1);
    if !ok {
      if WithinSet(p) {
        NoWhiteOverflow(p, remaining, r1);
        PartTooLong(p);
      }
      return;
    }
    HandsCounted(p, remaining, r1, r2);
    EncodableFits(p);
    ok := WriteBox(w, r2, Box(p));
    if !ok {
      return;
    }
    LayoutParts(p, w.Written());
    ok := w.cursor == TOTAL_BITS;
  }

  lemma IsSized(p: Position)
    requires Valid(p)
    ensures |p.board| == SQUARE_NB && IsBoard(p.board) && |p.blackHand| == 8 && |p.whiteHand| == 8
  {
  }

  lemma NoBlackOverflow(p: Position, r0: seq<int>)
    requires Valid(p) && LeftAfter(p.board, SQUARE_NB, r0) && WithinSet(p)
    ensures forall raw: nat | 1 <= raw <= 7 :: r0[raw] - p.blackHand[raw] >= 0
  {
    forall raw: nat | 1 <= raw <= 7 && r0[raw] - p.blackHand[raw] < 0
      ensures false
    {
      BlackHandOverfull(p, r0, raw);
    }
  }

  lemma NoWhiteOverflow(p: Position, r0: seq<int>, r1: seq<int>)
    requires Valid(p) && LeftAfter(p.board, SQUARE_NB, r0) && LessHand(r0, p.blackHand, 7, r1) && WithinSet(p)
    ensures forall raw: nat | 1 <= raw <= 7 :: r1[raw] - p.whiteHand[raw] >= 0
  {
    forall raw: nat | 1 <= raw <= 7 && r1[raw] - p.whiteHand[raw] < 0
      ensures false
    {
      WhiteHandOverfull(p, r0, r1, raw);
    }
  }

  lemma LayoutParts(p: Position, b: Bits)
    requires IsBoard(p.board) && |p.blackHand| == 8 && |p.whiteHand| == 8
    requires b == HeaderBits(p) + SquareBits(p.board, 0) + HandBits(Black, p.blackHand, 0) + HandBits(White, p.whiteHand, 0) + BoxBits(Box(p), 0)
    ensures b == Layout(p)
  {
    hide SquareBits, HandBits, BoxBits, HeaderBits, Box;
  }

  // ----- the decoder -----

  method FindBoardCode(code: nat, bits: nat) returns (raw: nat)
    ensures raw == MatchBoard(code, bits, 0)
  {
    raw := 0;
    while raw < 8
      invariant raw <= 8 && MatchBoard(code, bits, 0) == MatchBoard(code, bits, raw)
    {
      if CODE_BITS[raw] == bits && BOARD_CODE[raw] == code {
        return;
      }
      raw := raw + 1;
    }
  }

  method FindHandCode(code: nat, bits: nat) returns (raw: nat)
    ensures raw == MatchHand(code, bits, 1)
  {
    raw := 1;
    while raw <= 7
      invariant 1 <= raw <= 8 && MatchHand(code, bits, 1) == MatchHand(code, bits, raw)
    {
      if CODE_BITS[raw] - 1 == bits && BOARD_CODE[raw] / 2 == code {
        return;
      }
      raw := raw + 1;
    }
  }

  lemma BoardTypeStep(s: Bits, n: nat)
    requires n >= 1
    ensures BoardType(s, n) ==
            if n > 6 || |s| < n then Fail
            else if MatchBoard(Value(s[..n]), n, 0) < 8 then Parsed(MatchBoard(Value(s[..n]), n, 0), n) else BoardType(s, n + 1)
  {
  }

  lemma HandTypeStep(s: Bits, n: nat)
    requires n >= 1
    ensures HandType(s, n) ==
            if n > 5 || |s| < n then Fail
            else if MatchHand(Value(s[..n]), n, 1) < 8 then Parsed(MatchHand(Value(s[..n]), n, 1), n) else HandType(s, n + 1)
  {
  }

  method ReadBoardType(r: BitReader) returns (t: Parsed<PieceType>)
    requires r.Valid()
    modifies r`cursor
    ensures r.Valid() && t == BoardType(old(r.Rest()), 1)
    ensures t.Parsed? ==> r.cursor == old(r.cursor) + t.used
  {
    hide Stream, Value, BoardType, MatchBoard, Pow2;
    ghost var rest := r.Rest();
    EmptyValue();
    var code: nat, bits: nat := 0, 1;
    while bits <= 6
      invariant 1 <= bits <= 7 && r.Valid() && r.cursor == old(r.cursor) + bits - 1
      invariant code == Value(rest[..bits - 1]) && BoardType(rest, 1) == BoardType(rest, bits)
    {
      BoardTypeStep(rest, bits);
      var ok, bit := r.ReadBit();
      if !ok {
        return Fail;
      }
      AppendedBit(rest, bits - 1);
      code := code + if bit then Pow2(bits - 1) else 0;
      var raw := FindBoardCode(code, bits);
      if raw < 8 {
        return Parsed(raw, bits);
      }
      bits := bits + 1;
    }
    BoardTypeStep(rest, bits);
    return Fail;
  }

  lemma AppendedBit(s: Bits, i: nat)
    requires i < |s|
    ensures Value(s[..i + 1]) == Value(s[..i]) + if s[i] then Pow2(i) else 0
    ensures s[i..][0] == s[i]
  {
    ValueAppend(s[..i], s[i]);
    assert s[..i + 1] == s[..i] + [s[i]];
  }

  method ReadBoardPiece(r: BitReader) returns (p: Parsed<Piece>)
    requires r.Valid()
    modifies r`cursor
    ensures r.Valid() && p == ParseBoardPiece(old(r.Rest()))
    ensures p.Parsed? ==> r.cursor == old(r.cursor) + p.used
  {
    hide Stream, BoardType;
    ghost var rest := r.Rest();
    var t := ReadBoardType(r);
    if t.Fail? {
      return Fail;
    }
    var used := t.used;
    if t.value == NO_PIECE_TYPE {
      return Parsed(NoPiece, used);
    }
    var ok, promoted, white := true, false, false;
    if t.value != GOLD {
      ok, promoted := r.ReadBit();
      if !ok {
        return Fail;
      }
      used := used + 1;
    }
    ok, white := r.ReadBit();
    if !ok {
      return Fail;
    }
    p := Parsed(Piece(if white then White else Black, if promoted then Promote(t.value) else t.value), used + 1);
  }

  method ReadHandType(r: BitReader) returns (t: Parsed<PieceType>)
    requires r.Valid()
    modifies r`cursor
    ensures r.Valid() && t == HandType(old(r.Rest()), 1)
    ensures t.Parsed? ==> r.cursor == old(r.cursor) + t.used
  {
    hide Stream, Value, HandType, MatchHand, Pow2;
    ghost var rest := r.Rest();
    EmptyValue();
    var code: nat, bits: nat := 0, 1;
    while bits <= 5
      invariant 1 <= bits <= 6 && r.Valid() && r.cursor == old(r.cursor) + bits - 1
      invariant code == Value(rest[..bits - 1]) && HandType(rest, 1) == HandType(rest, bits)
    {
      HandTypeStep(rest, bits);
      var ok, bit := r.ReadBit();
      if !ok {
        return Fail;
      }
      AppendedBit(rest, bits - 1);
      code := code + if bit then Pow2(bits - 1) else 0;
      var raw := FindHandCode(code, bits);
      if raw < 8 {
        return Parsed(raw, bits);
      }
      bits := bits + 1;
    }
    HandTypeStep(rest, bits);
    return Fail;
  }

  method ReadHandPiece(r: BitReader) returns (p: Parsed<HandPiece>)
    requires r.Valid()
    modifies r`cursor
    ensures r.Valid() && p == ParseHandPiece(old(r.Rest()))
    ensures p.Parsed? ==> r.cursor == old(r.cursor) + p.used
  {
    hide Stream, HandType;
    ghost var rest := r.Rest();
    var t := ReadHandType(r);
    if t.Fail? {
      return Fail;
    }
    var used := t.used;
    var ok, promoted, white := true, false, false;
    if t.value != GOLD {
      ok, promoted := r.ReadBit();
      if !ok {
        return Fail;
      }
      used := used + 1;
    }
    ok, white := r.ReadBit();
    if !ok {
      return Fail;
    }
    p := Parsed(HandPiece(t.value, if white then White else Black, promoted), used + 1);
  }

  /** Reading `rest` after `used` bits finishes the parse `all`. */
  ghost predicate Finishes(all: Parsed<seq<Piece>>, used: nat, rest: Parsed<seq<Piece>>) {
    if rest.Fail? then all.Fail? else all == Parsed(rest.value, used + rest.used)
  }

  lemma SquareParsed(s: Bits, i: nat, blackKing: nat, whiteKing: nat, board: seq<Piece>)
    requires i < SQUARE_NB && |board| == SQUARE_NB
    ensures var all := ParseSquares(s, i, blackKing, whiteKing, board);
            if i == blackKing || i == whiteKing then all == ParseSquares(s, i + 1, blackKing, whiteKing, board)
            else
              var p := ParseBoardPiece(s);
              if p.Fail? then all.Fail?
              else
                var board' := if p.value.NoPiece? then board else board[i := p.value];
                Finishes(all, p.used, ParseSquares(s[p.used..], i + 1, blackKing, whiteKing, board'))
  {
    hide ParseBoardPiece;
  }

  lemma SquaresParsed(s: Bits, blackKing: nat, whiteKing: nat, board: seq<Piece>)
    requires |board| == SQUARE_NB
    ensures ParseSquares(s, SQUARE_NB, blackKing, whiteKing, board) == Parsed(board, 0)
  {
  }

  lemma FinishesLater(all: Parsed<seq<Piece>>, used: nat, rest: Parsed<seq<Piece>>, more: nat, rest': Parsed<seq<Piece>>)
    requires Finishes(all, used, rest) && Finishes(rest, more, rest')
    ensures Finishes(all, used + more, rest')
  {
  }

  method ReadSquares(r: BitReader, blackKing: nat, whiteKing: nat) returns (board: Option<seq<Piece>>)
    requires r.Valid()
    modifies r`cursor
    ensures r.Valid()
    ensures var s := ParseSquares(old(r.Rest()), 0, blackKing, whiteKing, KingsOnly(blackKing, whiteKing));
            if s.Fail? then board.None? else board == Some(s.value) && r.cursor == old(r.cursor) + s.used
  {
    hide Stream, ParseBoardPiece, KingsOnly, ParseSquares, Finishes;
    ghost var all := ParseSquares(r.Rest(), 0, blackKing, whiteKing, KingsOnly(blackKing, whiteKing));
    var squares := KingsOnly(blackKing, whiteKing);
    FinishesItself(all);
    var square: nat := 0;
    while square < SQUARE_NB
      invariant square <= SQUARE_NB && r.Valid() && |squares| == SQUARE_NB && old(r.cursor) <= r.cursor
      invariant Finishes(all, r.cursor - old(r.cursor), ParseSquares(r.Rest(), square, blackKing, whiteKing, squares))
    {
      ghost var rest, used := r.Rest(), r.cursor - old(r.cursor);
      ghost var now := ParseSquares(rest, square, blackKing, whiteKing, squares);
      SquareParsed(rest, square, blackKing, whiteKing, squares);
      if square != blackKing && square != whiteKing {
        var p := ReadBoardPiece(r);
        if p.Fail? {
          FailsThen(all, used, now);
          return None;
        }
        assert r.Rest() == rest[p.used..];
        if p.value.Piece? {
          squares := squares[square := p.value];
        }
        FinishesLater(all, used, now, p.used, ParseSquares(rest[p.used..], square + 1, blackKing, whiteKing, squares));
      }
      square := square + 1;
    }
    SquaresParsed(r.Rest(), blackKing, whiteKing, squares);
    FinishedWith(all, r.cursor - old(r.cursor), squares);
    board := Some(squares);
  }

  lemma FinishesItself(all: Parsed<seq<Piece>>)
    ensures Finishes(all, 0, all)
  {
  }

  lemma FailsThen(all: Parsed<seq<Piece>>, used: nat, rest: Parsed<seq<Piece>>)
    requires Finishes(all, used, rest) && rest.Fail?
    ensures all.Fail?
  {
  }

  lemma FinishedWith(all: Parsed<seq<Piece>>, used: nat, board: seq<Piece>)
    requires Finishes(all, used, Parsed(board, 0))
    ensures all.Parsed? && all.value == board && all.used == used
  {
  }

  method ReadHands(r: BitReader) returns (ok: bool, black: nat, white: nat)
    requires r.Valid()
    modifies r`cursor
    ensures var hands := ParseHands(old(r.Rest()), Hands(EMPTY_HAND, EMPTY_HAND));
            && r.Valid() && (ok <==> hands.Some?)
            && (ok ==> r.cursor == TOTAL_BITS && black == Packed(hands.value.black) && white == Packed(hands.value.white))
  {
    hide Stream, ParseHandPiece, Packed;
    ghost var all := ParseHands(r.Rest(), Hands(EMPTY_HAND, EMPTY_HAND));
    ghost var h := Hands(EMPTY_HAND, EMPTY_HAND);
    black, white := 0, 0;
    EmptyHandPacks();
    while r.cursor < TOTAL_BITS
      invariant r.Valid() && h.Sized() && ParseHands(r.Rest(), h) == all
      invariant black == Packed(h.black) && white == Packed(h.white)
      decreases TOTAL_BITS - r.cursor
    {
      ghost var rest := r.Rest();
      var p := ReadHandPiece(r);
      if p.Fail? {
        return false, 0, 0;
      }
      assert r.Rest() == rest[p.used..];
      if !p.value.box {
        if p.value.color.Black? {
          AddPacks(h.black, p.value.raw);
          black := Add(black, p.value.raw);
        } else {
          AddPacks(h.white, p.value.raw);
          white := Add(white, p.value.raw);
        }
        h := h.Add(p.value.color, p.value.raw, 1);
      }
    }
    ok := true;
  }

  lemma EmptyHandPacks()
    ensures Packed(EMPTY_HAND) == 0
  {
  }

  /** Side to move and king squares. */
  method ReadHeader(r: BitReader) returns (turn: bool, blackKing: nat, whiteKing: nat)
    requires r.Valid() && r.cursor == 0
    modifies r`cursor
    ensures r.Valid() && r.cursor == 15
    ensures var b := old(r.Rest());
            |b| == 256 && turn == b[0] && blackKing == Value(b[1..8]) && whiteKing == Value(b[8..15]) && r.Rest() == b[15..]
  {
    hide Stream, Value;
    ghost var b := r.Rest();
    var ok: bool;
    ok, turn := r.ReadBit();
    assert r.Rest()[..7] == b[1..8];
    ok, blackKing := r.Read(7);
    assert r.Rest()[..7] == b[8..15];
    ok, whiteKing := r.Read(7);
    assert r.Rest() == b[15..];
  }

  /** The two ways malformed bytes are refused after the header, and the position otherwise. */
  lemma DecodedAs(b: Bits, blackKing: nat, whiteKing: nat)
    requires |b| == 256 && blackKing == Value(b[1..8]) && whiteKing == Value(b[8..15])
    ensures var s := ParseSquares(b[15..], 0, blackKing, whiteKing, KingsOnly(blackKing, whiteKing));
            Decode(b) ==
            if blackKing > 81 || whiteKing > 81 || (blackKing < 81 && blackKing == whiteKing) || s.Fail? then None
            else
              var h := ParseHands(b[15..][s.used..], Hands(EMPTY_HAND, EMPTY_HAND));
              if h.None? then None
              else
                Some(Position(if b[0] then White else Black, blackKing, whiteKing, s.value,
                              Shown(Packed(h.value.black)), Shown(Packed(h.value.white))))
  {
    hide Value, ParseSquares, ParseHands, KingsOnly, Packed, Shown;
  }

  /** Decodes any 32 bytes: the position they lay out with the ply the caller supplies, or
      nothing when they are malformed. */
  method SetFromPackedSfen(packed: array<bv8>, gamePly: int) returns (p: Option<Position>, ply: int)
    requires packed.Length == BYTES
    ensures p == Decode(Stream(packed[..])) && ply == if gamePly > 1 then gamePly else 1
  {
    hide Stream, Value, Decode, ParseSquares, ParseHands, KingsOnly, Packed, Shown;
    ply := if gamePly > 1 then gamePly else 1;
    var r := new BitReader(packed);
    ghost var b := r.Rest();
    assert b == Stream(packed[..]);
    var turn, blackKing, whiteKing := ReadHeader(r);
    DecodedAs(b, blackKing, whiteKing);
    if blackKing > 81 || whiteKing > 81 || (blackKing < 81 && blackKing == whiteKing) {
      return None, ply;
    }
    var board := ReadSquares(r, blackKing, whiteKing);
    if board.None? {
      return None, ply;
    }
    ghost var used := r.cursor - 15;
    assert r.Rest() == b[15..][used..];
    var ok, black, white := ReadHands(r);
    if !ok {
      return None, ply;
    }
    p := Some(Position(if turn then White else Black, blackKing, whiteKing, board.value, Shown(black), Shown(white)));
  }
}
