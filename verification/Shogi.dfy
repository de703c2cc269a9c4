/** Colours, pieces, squares and moves of shogi, with the engine's numbering. */
module Shogi {
  datatype Color = Black | White
  {
    function Other(): Color { if Black? then White else Black }
  }

  const SQUARE_NB: nat := 81

  /** Pieces 1 to 7 can be held in hand, 8 is the king, a promoted piece is its base plus 8. */
  type PieceType = t: nat | t < 16 witness 0

  const NO_PIECE_TYPE: PieceType := 0
  const PAWN: PieceType := 1
  const LANCE: PieceType := 2
  const KNIGHT: PieceType := 3
  const SILVER: PieceType := 4
  const BISHOP: PieceType := 5
  const ROOK: PieceType := 6
  const GOLD: PieceType := 7
  const KING: PieceType := 8
  const PRO_PAWN: PieceType := 9
  const PRO_LANCE: PieceType := 10
  const PRO_KNIGHT: PieceType := 11
  const PRO_SILVER: PieceType := 12
  const HORSE: PieceType := 13
  const DRAGON: PieceType := 14

  predicate IsHandPiece(t: PieceType) { 1 <= t <= 7 }

  predicate IsPromoted(t: PieceType) { t >= 9 }

  predicate CanPromote(t: PieceType) { 1 <= t <= 6 }

  /** Sets the promotion bit. */
  function Promote(t: PieceType): PieceType { if t < 8 then t + 8 else t }

  /** Clears the promotion bit. */
  function Unpromote(t: PieceType): PieceType { t % 8 }

  datatype Piece = NoPiece | Piece(color: Color, kind: PieceType)
  {
    function Type(): PieceType { if NoPiece? then NO_PIECE_TYPE else kind }
  }

  predicate IsKing(p: Piece) { p.Piece? && p.kind == KING }

  datatype Move = Drop(kind: PieceType, to: nat) | BoardMove(from: nat, to: nat, promotion: bool)
  {
    predicate OnBoard() {
      to < SQUARE_NB && (BoardMove? ==> from < SQUARE_NB)
    }
  }

  // ----- sets of squares -----

  /** The square with the lowest number. */
  function Peek(s: set<nat>): (r: nat)
    requires s != {}
    ensures r in s && forall x | x in s :: r <= x
  {
    LeastExists(s);
    var x :| x in s && forall y | y in s :: x <= y;
    x
  }

  lemma {:induction false} HasLeast(s: set<nat>) returns (z: nat)
    requires s != {}
    ensures z in s && forall x | x in s :: z <= x
    decreases |s|
  {
    z :| z in s;
    if s != {z} {
      assert forall x | x in s && x != z :: x in s - {z};
      var t := HasLeast(s - {z});
      z := if t < z then t else z;
    }
  }

  lemma LeastExists(s: set<nat>)
    requires s != {}
    ensures exists z :: z in s && forall x | x in s :: z <= x
  {
    var _ := HasLeast(s);
  }
}
