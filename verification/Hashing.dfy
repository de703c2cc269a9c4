/** The position hash leaves nothing out: any difference in placement, hands or side to move
    shows in it under some choice of keys. */
module Hashing {
  import opened Shogi
  import opened BoardState

  /** Keys that are one for a single feature of the position and zero for every other. */
  function SquareKeys(p: Piece, s: nat): Zobrist {
    Zobrist((q: Piece, u: nat) => if q == p && u == s then 1 else 0, (c: Color, t: PieceType, n: nat) => 0, 0)
  }

  function HandKeys(c: Color, t: PieceType, n: nat): Zobrist {
    Zobrist((q: Piece, u: nat) => 0, (d: Color, u: PieceType, k: nat) => if d == c && u == t && k == n then 1 else 0, 0)
  }

  const SIDE_KEYS := Zobrist((q: Piece, u: nat) => 0, (d: Color, u: PieceType, k: nat) => 0, 1)

  function Bit(b: bool): bv64 { if b then 1 else 0 }

  lemma XorBits(a: bool, b: bool)
    ensures Xor(Bit(a), Bit(b)) == Bit(a != b)
  {
  }

  /** The board part of the hash under keys for one square. */
  lemma {:induction false} SquareShows(p: Piece, s: nat, board: seq<Piece>, from: nat)
    requires from <= |board| && p.Piece?
    ensures BoardHash(SquareKeys(p, s), board, from) == Bit(from <= s < |board| && board[s] == p)
    decreases |board| - from
  {
    hide Xor, Bit;
    if from < |board| {
      SquareShows(p, s, board, from + 1);
      KeyOfSquare(p, s, board[from], from);
      XorBits(board[from] == p && from == s, from + 1 <= s < |board| && board[s] == p);
    } else {
      BitFalse();
    }
  }

  lemma BitFalse()
    ensures Bit(false) == 0
  {
  }

  lemma KeyOfSquare(p: Piece, s: nat, q: Piece, u: nat)
    requires p.Piece?
    ensures Key(SquareKeys(p, s), q, u) == Bit(q == p && u == s)
  {
  }

  lemma {:induction false} NoSquareShows(z: Zobrist, board: seq<Piece>, from: nat)
    requires from <= |board| && forall p: Piece, s: nat :: z.psq(p, s) == 0
    ensures BoardHash(z, board, from) == 0
    decreases |board| - from
  {
    hide Xor;
    if from < |board| {
      NoSquareShows(z, board, from + 1);
      XorZero(0);
    }
  }

  /** The hand part under keys for one count. */
  lemma {:induction false} HandShows(c: Color, t: PieceType, n: nat, d: Color, h: Hand, from: nat)
    requires |h| == 8 && from <= 8 && n > 0
    ensures HashHand(HandKeys(c, t, n), d, h, from) == Bit(d == c && from <= t < 8 && h[t] == n)
    decreases 8 - from
  {
    hide Xor, Bit;
    BitFalse();
    if from < 8 {
      HandShows(c, t, n, d, h, from + 1);
      KeyOfHand(c, t, n, d, from, h[from]);
      XorBits(h[from] > 0 && d == c && from == t && h[from] == n, d == c && from + 1 <= t < 8 && h[t] == n);
    }
  }

  lemma KeyOfHand(c: Color, t: PieceType, n: nat, d: Color, u: PieceType, k: nat)
    requires n > 0
    ensures (if k > 0 then HandKeys(c, t, n).hand(d, u, k) else 0) == Bit(k > 0 && d == c && u == t && k == n)
  {
  }

  lemma {:induction false} NoHandShows(z: Zobrist, c: Color, h: Hand, from: nat)
    requires |h| == 8 && from <= 8 && forall d: Color, t: PieceType, n: nat :: z.hand(d, t, n) == 0
    ensures HashHand(z, c, h, from) == 0
    decreases 8 - from
  {
    hide Xor;
    if from < 8 {
      NoHandShows(z, c, h, from + 1);
      XorZero(0);
    }
  }

  ghost predicate IsPlaced(board: seq<Piece>, hand: seq<Hand>) { |board| == SQUARE_NB && |hand| == 2 && |hand[0]| == 8 && |hand[1]| == 8 }

  /** Under these keys the hash is one exactly when the piece stands there. */
  lemma SquareHash(p: Piece, s: nat, board: seq<Piece>, hand: seq<Hand>, side: Color)
    requires IsPlaced(board, hand) && p.Piece? && s < SQUARE_NB
    ensures HashOf(SquareKeys(p, s), board, hand, side) == Bit(board[s] == p)
  {
    hide Xor, BoardHash, HashHand, Bit;
    SquareShows(p, s, board, 0);
    NoHandShows(SquareKeys(p, s), Black, hand[0], 1);
    NoHandShows(SquareKeys(p, s), White, hand[1], 1);
    XorZero(Bit(board[s] == p));
  }

  lemma HandHash(c: Color, t: PieceType, n: nat, board: seq<Piece>, hand: seq<Hand>, side: Color)
    requires IsPlaced(board, hand) && IsHandPiece(t) && n > 0
    ensures HashOf(HandKeys(c, t, n), board, hand, side) == Bit(hand[Idx(c)][t] == n)
  {
    hide Xor, BoardHash, HashHand, Bit;
    var z := HandKeys(c, t, n);
    NoSquareShows(z, board, 0);
    HandShows(c, t, n, Black, hand[0], 1);
    HandShows(c, t, n, White, hand[1], 1);
    BitFalse();
    XorZero(0);
    XorZero(Bit(hand[Idx(c)][t] == n));
  }

  lemma SideHash(board: seq<Piece>, hand: seq<Hand>, side: Color)
    requires IsPlaced(board, hand)
    ensures HashOf(SIDE_KEYS, board, hand, side) == Bit(side.White?)
  {
    hide Xor, BoardHash, HashHand;
    NoSquareShows(SIDE_KEYS, board, 0);
    NoHandShows(SIDE_KEYS, Black, hand[0], 1);
    NoHandShows(SIDE_KEYS, White, hand[1], 1);
    XorZero(0);
    XorZero(1);
  }

  /** Positions that differ at all have different hashes under some keys, and equal ones under none. */
  lemma {:induction false} HashSeparates(board: seq<Piece>, hand: seq<Hand>, side: Color, board': seq<Piece>, hand': seq<Hand>, side': Color)
    requires IsPlaced(board, hand) && IsPlaced(board', hand')
    ensures (forall z: Zobrist :: HashOf(z, board, hand, side) == HashOf(z, board', hand', side')) <==>
            board == board' && side == side' && forall c: Color, t: PieceType | IsHandPiece(t) :: hand[Idx(c)][t] == hand'[Idx(c)][t]
  {
    hide HashOf;
    if forall z: Zobrist :: HashOf(z, board, hand, side) == HashOf(z, board', hand', side') {
      forall s: nat | s < SQUARE_NB
        ensures board[s] == board'[s]
      {
        SameSquare(board, hand, side, board', hand', side', s);
      }
      forall c: Color, t: PieceType | IsHandPiece(t)
        ensures hand[Idx(c)][t] == hand'[Idx(c)][t]
      {
        SameCount(board, hand, side, board', hand', side', c, t);
      }
      assert HashOf(SIDE_KEYS, board, hand, side) == HashOf(SIDE_KEYS, board', hand', side');
      SideHash(board, hand, side);
      SideHash(board', hand', side');
    }
    if board == board' && side == side' && forall c: Color, t: PieceType | IsHandPiece(t) :: hand[Idx(c)][t] == hand'[Idx(c)][t] {
      forall z: Zobrist
        ensures HashOf(z, board, hand, side) == HashOf(z, board', hand', side')
      {
        SameHands(z, board, hand, hand', side);
      }
    }
  }

  lemma SameSquare(board: seq<Piece>, hand: seq<Hand>, side: Color, board': seq<Piece>, hand': seq<Hand>, side': Color, s: nat)
    requires IsPlaced(board, hand) && IsPlaced(board', hand') && s < SQUARE_NB
    requires forall z: Zobrist :: HashOf(z, board, hand, side) == HashOf(z, board', hand', side')
    ensures board[s] == board'[s]
  {
    hide HashOf;
    var p := if board[s].Piece? then board[s] else board'[s];
    if p.Piece? {
      assert HashOf(SquareKeys(p, s), board, hand, side) == HashOf(SquareKeys(p, s), board', hand', side');
      SquareHash(p, s, board, hand, side);
      SquareHash(p, s, board', hand', side');
    }
  }

  lemma SameCount(board: seq<Piece>, hand: seq<Hand>, side: Color, board': seq<Piece>, hand': seq<Hand>, side': Color, c: Color, t: PieceType)
    requires IsPlaced(board, hand) && IsPlaced(board', hand') && IsHandPiece(t)
    requires forall z: Zobrist :: HashOf(z, board, hand, side) == HashOf(z, board', hand', side')
    ensures hand[Idx(c)][t] == hand'[Idx(c)][t]
  {
    hide HashOf;
    var n := if hand[Idx(c)][t] > 0 then hand[Idx(c)][t] else hand'[Idx(c)][t];
    if n > 0 {
      assert HashOf(HandKeys(c, t, n), board, hand, side) == HashOf(HandKeys(c, t, n), board', hand', side');
      HandHash(c, t, n, board, hand, side);
      HandHash(c, t, n, board', hand', side');
    }
  }

  lemma SameHands(z: Zobrist, board: seq<Piece>, hand: seq<Hand>, hand': seq<Hand>, side: Color)
    requires IsPlaced(board, hand) && IsPlaced(board, hand')
    requires forall c: Color, t: PieceType | IsHandPiece(t) :: hand[Idx(c)][t] == hand'[Idx(c)][t]
    ensures HashOf(z, board, hand, side) == HashOf(z, board, hand', side)
  {
    hide HashHand, BoardHash, Xor;
    assert hand[Idx(Black)] == hand[0] && hand[Idx(White)] == hand[1];
    SameHand(z, Black, hand[0], hand'[0], 1);
    SameHand(z, White, hand[1], hand'[1], 1);
  }

  lemma {:induction false} SameHand(z: Zobrist, c: Color, h: Hand, h': Hand, from: nat)
    requires |h| == |h'| == 8 && 1 <= from <= 8 && forall t: PieceType | IsHandPiece(t) :: h[t] == h'[t]
    ensures HashHand(z, c, h, from) == HashHand(z, c, h', from)
    decreases 8 - from
  {
    if from < 8 {
      SameHand(z, c, h, h', from + 1);
    }
  }
}
