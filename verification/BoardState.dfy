/** The state of a shogi board by value: three representations of the piece placement, the
    hands, an incremental hash, check counters and the history, and what one move makes
    of it. */
module BoardState {
  import opened Shogi

  type Hand = seq<nat>

  /** Random keys by piece and square, by hand count, and for the side to move. */
  datatype Zobrist = Zobrist(psq: (Piece, nat) -> bv64, hand: (Color, PieceType, nat) -> bv64, side: bv64)

  datatype HistoryEntry = HistoryEntry(hash: bv64, handBlack: Hand, handWhite: Hand)

  /** Every field of the board. Lists of two are indexed by colour, `byType` by kind. */
  datatype Full = Full(
    board: seq<Piece>, byColor: seq<set<nat>>, byType: seq<set<nat>>, hand: seq<Hand>, kingSq: seq<nat>,
    side: Color, ply: int, hash: bv64, check: seq<int>, history: seq<HistoryEntry>)
  {
    predicate Shaped() {
      && |board| == SQUARE_NB && |byColor| == 2 && |byType| == 16 && |kingSq| == 2 && |check| == 2
      && |hand| == 2 && |hand[0]| == 8 && |hand[1]| == 8
    }
  }

  datatype UndoInfo = UndoInfo(captured: Piece, prevHand: Hand, prevHash: bv64, prevCheck: int, gaveCheck: bool, updatedAuxiliary: bool)

  function Idx(c: Color): (i: nat)
    ensures i < 2
  {
    if c.Black? then 0 else 1
  }

  // ----- hands -----

  /** A type that cannot be held leaves the hand alone. */
  function AddTo(h: Hand, t: PieceType): (r: Hand)
    requires |h| == 8
    ensures |r| == 8
  {
    if 1 <= t <= 7 then h[t := h[t] + 1] else h
  }

  function SubFrom(h: Hand, t: PieceType): (r: Hand)
    requires |h| == 8 && 1 <= t <= 7 && h[t] > 0
    ensures |r| == 8
  {
    h[t := h[t] - 1]
  }

  // ----- hashing from scratch -----

  function Xor(a: bv64, b: bv64): bv64 { a ^ b }

  lemma XorAssoc(a: bv64, b: bv64, c: bv64)
    ensures Xor(a, Xor(b, c)) == Xor(Xor(a, b), c)
  {
  }

  lemma XorComm(a: bv64, b: bv64)
    ensures Xor(a, b) == Xor(b, a)
  {
  }

  lemma XorZero(a: bv64)
    ensures Xor(a, 0) == a && Xor(0, a) == a && Xor(a, a) == 0
  {
  }

  /** The last two keys of a chain may be swapped, and equal neighbours cancel. */
  lemma XorSwap(a: bv64, b: bv64, c: bv64)
    ensures Xor(Xor(a, b), c) == Xor(Xor(a, c), b)
    ensures Xor(Xor(a, b), b) == a
  {
  }

  function Key(z: Zobrist, p: Piece, s: nat): bv64 {
    if p.NoPiece? then 0 else z.psq(p, s)
  }

  function HashHand(z: Zobrist, c: Color, h: Hand, t: nat): bv64
    requires |h| == 8 && t <= 8
    decreases 8 - t
  {
    if t == 8 then 0 else Xor(if h[t] > 0 then z.hand(c, t, h[t]) else 0, HashHand(z, c, h, t + 1))
  }

  function BoardHash(z: Zobrist, board: seq<Piece>, s: nat): bv64
    requires s <= |board|
    decreases |board| - s
  {
    if s == |board| then 0 else Xor(Key(z, board[s], s), BoardHash(z, board, s + 1))
  }

  function SideKey(z: Zobrist, side: Color): bv64 {
    if side.White? then z.side else 0
  }

  /** The hash of a placement, hands and side to move. */
  function HashOf(z: Zobrist, board: seq<Piece>, hand: seq<Hand>, side: Color): bv64
    requires |hand| == 2 && |hand[0]| == 8 && |hand[1]| == 8
  {
    Xor(Xor(Xor(BoardHash(z, board, 0), HashHand(z, Black, hand[0], 1)), HashHand(z, White, hand[1], 1)), SideKey(z, side))
  }

  /** Replacing what stands on a square replaces its key. */
  lemma {:induction false} BoardHashUpdate(z: Zobrist, board: seq<Piece>, s: nat, p: Piece, from: nat)
    requires s < |board| && from <= |board|
    ensures from <= s ==> BoardHash(z, board[s := p], from) == Xor(Xor(BoardHash(z, board, from), Key(z, board[s], s)), Key(z, p, s))
    ensures from > s ==> BoardHash(z, board[s := p], from) == BoardHash(z, board, from)
    decreases |board| - from
  {
    hide Xor, Key;
    if from < |board| {
      BoardHashUpdate(z, board, s, p, from + 1);
      if from == s {
        var rest := BoardHash(z, board, s + 1);
        XorReplace(Key(z, board[s], s), Key(z, p, s), rest);
      } else if from < s {
        XorPrepend(Key(z, board[from], from), BoardHash(z, board, from + 1), Key(z, board[s], s), Key(z, p, s));
      }
    }
  }

  lemma XorReplace(a: bv64, b: bv64, rest: bv64)
    ensures Xor(b, rest) == Xor(Xor(Xor(a, rest), a), b)
  {
    hide Xor;
    XorComm(a, rest);
    XorSwap(rest, a, a);
    XorComm(b, rest);
  }

  lemma XorPrepend(x: bv64, rest: bv64, a: bv64, b: bv64)
    ensures Xor(x, Xor(Xor(rest, a), b)) == Xor(Xor(Xor(x, rest), a), b)
  {
    hide Xor;
    XorAssoc(x, Xor(rest, a), b);
    XorAssoc(x, rest, a);
  }

  // ----- agreement of the representations -----

  function ColorSet(board: seq<Piece>, c: Color): set<nat> {
    set s: nat | s < |board| && board[s].Piece? && board[s].color == c
  }

  function TypeSet(board: seq<Piece>, t: nat): set<nat> {
    set s: nat | s < |board| && board[s].Piece? && board[s].kind == t
  }

  function ColorSets(board: seq<Piece>): seq<set<nat>> { [ColorSet(board, Black), ColorSet(board, White)] }

  function TypeSets(board: seq<Piece>): (r: seq<set<nat>>)
    ensures |r| == 16
  {
    seq(16, (t: nat) => TypeSet(board, t))
  }

  /** A king on the board is where the cached square says. */
  ghost predicate KingsKnown(board: seq<Piece>, kingSq: seq<nat>)
    requires |kingSq| == 2
  {
    forall s: nat | s < |board| :: IsKing(board[s]) ==> kingSq[Idx(board[s].color)] == s
  }

  /** Array, bitboards, king squares and hash all describe the same position. */
  ghost predicate Consistent(z: Zobrist, f: Full) {
    && f.Shaped() && f.byColor == ColorSets(f.board) && f.byType == TypeSets(f.board) && KingsKnown(f.board, f.kingSq)
    && f.hash == HashOf(z, f.board, f.hand, f.side)
  }

  // ----- one move -----

  /** The move is one of the side to move: a drop from its hand onto an empty square, or one
      of its pieces onto a square it does not hold. */
  predicate CanMake(f: Full, m: Move) {
    && f.Shaped() && m.OnBoard()
    && match m
       case Drop(kind, to) => IsHandPiece(kind) && f.hand[Idx(f.side)][kind] > 0 && f.board[to].NoPiece?
       case BoardMove(from, to, promotion) =>
         && from != to && f.board[from].Piece? && f.board[from].color == f.side
         && (f.board[to].Piece? ==> f.board[to].color != f.side)
         && (promotion ==> CanPromote(f.board[from].kind))
  }

  function Landing(f: Full, m: Move): Piece
    requires CanMake(f, m)
  {
    match m
    case Drop(kind, to) => Piece(f.side, kind)
    case BoardMove(from, to, promotion) => if promotion then Piece(f.side, Promote(f.board[from].kind)) else f.board[from]
  }

  function BoardAfter(f: Full, m: Move): (board: seq<Piece>)
    requires CanMake(f, m)
    ensures |board| == SQUARE_NB
  {
    match m
    case Drop(kind, to) => f.board[to := Landing(f, m)]
    case BoardMove(from, to, promotion) => f.board[from := NoPiece][to := Landing(f, m)]
  }

  function HandAfter(f: Full, m: Move): Hand
    requires CanMake(f, m)
  {
    var h := f.hand[Idx(f.side)];
    match m
    case Drop(kind, to) => SubFrom(h, kind)
    case BoardMove(from, to, promotion) => if f.board[to].Piece? then AddTo(h, Unpromote(f.board[to].kind)) else h
  }

  /** Everything the move changes. Without `aux` the hash, the counters and the history
      stay as they are. */
  function Made(z: Zobrist, f: Full, m: Move, aux: bool, gave: bool): (r: Full)
    requires CanMake(f, m)
    ensures r.Shaped()
  {
    var us := Idx(f.side);
    var board, hand, side := BoardAfter(f, m), f.hand[us := HandAfter(f, m)], f.side.Other();
    Full(board, ColorSets(board), TypeSets(board), hand,
         if IsKing(Landing(f, m)) then f.kingSq[us := m.to] else f.kingSq,
         side, f.ply + 1,
         if aux then HashOf(z, board, hand, side) else f.hash,
         if aux then f.check[us := if gave then f.check[us] + 2 else 0] else f.check,
         if aux then f.history + [HistoryEntry(f.hash, f.hand[0], f.hand[1])] else f.history)
  }

  function UndoOf(f: Full, m: Move, aux: bool, gave: bool): UndoInfo
    requires CanMake(f, m)
  {
    var us := Idx(f.side);
    UndoInfo(if m.BoardMove? then f.board[m.to] else NoPiece, f.hand[us], f.hash, f.check[us], aux && gave, aux)
  }

  /** A move with hash update keeps everything in agreement. */
  lemma {:induction false} MadeIsConsistent(z: Zobrist, f: Full, m: Move, gave: bool)
    requires Consistent(z, f) && CanMake(f, m)
    ensures Consistent(z, Made(z, f, m, true, gave))
  {
    MadeKnowsKings(z, f, m, true, gave);
    hide ColorSets, TypeSets, HashOf, KingsKnown;
  }

  lemma MadeKnowsKings(z: Zobrist, f: Full, m: Move, aux: bool, gave: bool)
    requires f.Shaped() && KingsKnown(f.board, f.kingSq) && CanMake(f, m)
    ensures KingsKnown(Made(z, f, m, aux, gave).board, Made(z, f, m, aux, gave).kingSq)
  {
    hide ColorSets, TypeSets, HashOf, HandAfter;
    var r := Made(z, f, m, aux, gave);
    forall s: nat | s < SQUARE_NB && IsKing(r.board[s])
      ensures r.kingSq[Idx(r.board[s].color)] == s
    {
      if s != m.to {
        assert r.board[s] == f.board[s];
        if IsKing(Landing(f, m)) && f.board[s].color == f.side {
          KingIsOne(f, m, s);
          assert false;
        }
      }
    }
  }

  /** The side to move has no king besides the one that moves. */
  lemma KingIsOne(f: Full, m: Move, s: nat)
    requires f.Shaped() && KingsKnown(f.board, f.kingSq) && CanMake(f, m) && IsKing(Landing(f, m))
    requires s < SQUARE_NB && IsKing(f.board[s]) && f.board[s].color == f.side
    ensures m.BoardMove? && s == m.from
  {
    assert m.BoardMove? ==> IsKing(f.board[m.from]);
  }

  // ----- incremental hashing -----

  /** The board part of the hash after a drop. */
  lemma DropHash(z: Zobrist, f: Full, m: Move)
    requires CanMake(f, m) && m.Drop?
    ensures BoardHash(z, BoardAfter(f, m), 0) == Xor(BoardHash(z, f.board, 0), Key(z, Landing(f, m), m.to))
  {
    hide Xor, BoardHash;
    assert BoardAfter(f, m) == f.board[m.to := Landing(f, m)];
    BoardHashUpdate(z, f.board, m.to, Landing(f, m), 0);
    assert Key(z, f.board[m.to], m.to) == 0;
    XorZero(BoardHash(z, f.board, 0));
  }

  /** The board part of the hash after a board move; nothing captured has key zero. */
  lemma MoveHash(z: Zobrist, f: Full, m: Move)
    requires CanMake(f, m) && m.BoardMove?
    ensures BoardHash(z, BoardAfter(f, m), 0) ==
            Xor(Xor(Xor(BoardHash(z, f.board, 0), Key(z, f.board[m.to], m.to)), Key(z, f.board[m.from], m.from)), Key(z, Landing(f, m), m.to))
  {
    hide Xor, BoardHash, Key;
    var lifted := f.board[m.from := NoPiece];
    assert BoardAfter(f, m) == lifted[m.to := Landing(f, m)];
    BoardHashUpdate(z, f.board, m.from, NoPiece, 0);
    BoardHashUpdate(z, lifted, m.to, Landing(f, m), 0);
    EmptyKey(z, m.from);
    var h, from, to := BoardHash(z, f.board, 0), Key(z, f.board[m.from], m.from), Key(z, f.board[m.to], m.to);
    XorZero(Xor(h, from));
    XorSwap(h, from, to);
  }

  lemma EmptyKey(z: Zobrist, s: nat)
    ensures Key(z, NoPiece, s) == 0
  {
  }

  /** The whole hash with the given side's hand key last but the side key. */
  lemma HashParts(z: Zobrist, board: seq<Piece>, hand: seq<Hand>, side: Color)
    requires |hand| == 2 && |hand[0]| == 8 && |hand[1]| == 8
    ensures HashOf(z, board, hand, side) ==
            Xor(Xor(Xor(BoardHash(z, board, 0), HashHand(z, side, hand[Idx(side)], 1)),
                    HashHand(z, side.Other(), hand[Idx(side.Other())], 1)), SideKey(z, side))
  {
    hide BoardHash, HashHand, Xor;
    XorSwap(BoardHash(z, board, 0), HashHand(z, Black, hand[0], 1), HashHand(z, White, hand[1], 1));
  }

  lemma SideTurns(z: Zobrist, rest: bv64, side: Color)
    ensures Xor(rest, SideKey(z, side.Other())) == Xor(Xor(rest, SideKey(z, side)), z.side)
  {
    hide Xor;
    XorZero(rest);
    XorSwap(rest, z.side, z.side);
  }

  /** Exchanging the own hand's key updates the hash by the old and the new one. */
  lemma HandTurns(z: Zobrist, board: seq<Piece>, hand: seq<Hand>, side: Color, own: Hand)
    requires |hand| == 2 && |hand[0]| == 8 && |hand[1]| == 8 && |own| == 8
    ensures HashOf(z, board, hand[Idx(side) := own], side) ==
            Xor(Xor(HashOf(z, board, hand, side), HashHand(z, side, hand[Idx(side)], 1)), HashHand(z, side, own, 1))
  {
    hide BoardHash, HashHand, Xor, HashOf;
    var hand' := hand[Idx(side) := own];
    HashParts(z, board, hand, side);
    HashParts(z, board, hand', side);
    assert hand'[Idx(side.Other())] == hand[Idx(side.Other())] && hand'[Idx(side)] == own;
    XorHand(BoardHash(z, board, 0), HashHand(z, side, hand[Idx(side)], 1), HashHand(z, side, own, 1),
            HashHand(z, side.Other(), hand[Idx(side.Other())], 1), SideKey(z, side));
  }

  lemma XorHand(b: bv64, h: bv64, h': bv64, o: bv64, s: bv64)
    ensures Xor(Xor(Xor(b, h'), o), s) == Xor(Xor(Xor(Xor(Xor(b, h), o), s), h), h')
  {
    hide Xor;
    XorSwap(Xor(Xor(b, h), o), s, h);
    XorSwap(Xor(b, h), o, h);
    XorSwap(b, h, h);
    XorSwap(Xor(b, o), s, h');
    XorSwap(b, o, h');
  }

  /** One more key on the board part is one more key on the hash. */
  lemma BoardTurns(z: Zobrist, board: seq<Piece>, board': seq<Piece>, hand: seq<Hand>, side: Color, k: bv64)
    requires |hand| == 2 && |hand[0]| == 8 && |hand[1]| == 8 && BoardHash(z, board', 0) == Xor(BoardHash(z, board, 0), k)
    ensures HashOf(z, board', hand, side) == Xor(HashOf(z, board, hand, side), k)
  {
    hide BoardHash, HashHand, Xor;
    XorBoard(BoardHash(z, board, 0), k, HashHand(z, Black, hand[0], 1), HashHand(z, White, hand[1], 1), SideKey(z, side));
  }

  lemma XorBoard(b: bv64, k: bv64, h0: bv64, h1: bv64, s: bv64)
    ensures Xor(Xor(Xor(Xor(b, k), h0), h1), s) == Xor(Xor(Xor(Xor(b, h0), h1), s), k)
  {
    hide Xor;
    XorSwap(b, k, h0);
    XorSwap(Xor(b, h0), k, h1);
    XorSwap(Xor(Xor(b, h0), h1), k, s);
  }

  /** The hash after a drop, key by key. */
  lemma {:induction false} HashAfterDrop(z: Zobrist, f: Full, m: Move, gave: bool)
    requires CanMake(f, m) && m.Drop? && f.hash == HashOf(z, f.board, f.hand, f.side)
    ensures Made(z, f, m, true, gave).hash ==
            Xor(Xor(Xor(Xor(f.hash, HashHand(z, f.side, f.hand[Idx(f.side)], 1)), HashHand(z, f.side, HandAfter(f, m), 1)),
                    Key(z, Landing(f, m), m.to)), z.side)
  {
    hide BoardHash, HashHand, Xor, HashOf, ColorSets, TypeSets, BoardAfter, HandAfter, Landing, Key;
    HandIsSized(f, m);
    var hand' := f.hand[Idx(f.side) := HandAfter(f, m)];
    HandTurns(z, f.board, f.hand, f.side, HandAfter(f, m));
    DropHash(z, f, m);
    BoardTurns(z, f.board, BoardAfter(f, m), hand', f.side, Key(z, Landing(f, m), m.to));
    HashSide(z, BoardAfter(f, m), hand', f.side);
  }

  lemma HandIsSized(f: Full, m: Move)
    requires CanMake(f, m)
    ensures |HandAfter(f, m)| == 8
  {
  }

  lemma HashSide(z: Zobrist, board: seq<Piece>, hand: seq<Hand>, side: Color)
    requires |hand| == 2 && |hand[0]| == 8 && |hand[1]| == 8
    ensures HashOf(z, board, hand, side.Other()) == Xor(HashOf(z, board, hand, side), z.side)
  {
    hide BoardHash, HashHand, Xor, SideKey;
    SideTurns(z, Xor(Xor(BoardHash(z, board, 0), HashHand(z, Black, hand[0], 1)), HashHand(z, White, hand[1], 1)), side);
  }

  /** The hash after a board move, key by key; without a capture the hand keys cancel. */
  lemma {:induction false} HashAfterMove(z: Zobrist, f: Full, m: Move, gave: bool)
    requires CanMake(f, m) && m.BoardMove? && f.hash == HashOf(z, f.board, f.hand, f.side)
    ensures var own, own' := HashHand(z, f.side, f.hand[Idx(f.side)], 1), HashHand(z, f.side, HandAfter(f, m), 1);
            Made(z, f, m, true, gave).hash ==
            Xor(Xor(Xor(Xor(Xor(Xor(f.hash, Key(z, f.board[m.to], m.to)), own), own'), Key(z, f.board[m.from], m.from)),
                    Key(z, Landing(f, m), m.to)), z.side)
  {
    hide BoardHash, HashHand, Xor, HashOf, ColorSets, TypeSets, BoardAfter, HandAfter, Landing, Key;
    HandIsSized(f, m);
    var own' := HandAfter(f, m);
    var hand' := f.hand[Idx(f.side) := own'];
    var from, to, land := Key(z, f.board[m.from], m.from), Key(z, f.board[m.to], m.to), Key(z, Landing(f, m), m.to);
    HandTurns(z, f.board, f.hand, f.side, own');
    MoveHash(z, f, m);
    XorThree(BoardHash(z, f.board, 0), to, from, land);
    BoardTurns(z, f.board, BoardAfter(f, m), hand', f.side, Xor(Xor(to, from), land));
    HashSide(z, BoardAfter(f, m), hand', f.side);
    XorOrder(f.hash, HashHand(z, f.side, f.hand[Idx(f.side)], 1), HashHand(z, f.side, own', 1), to, from, land);
  }

  lemma XorThree(b: bv64, x: bv64, y: bv64, w: bv64)
    ensures Xor(Xor(Xor(b, x), y), w) == Xor(b, Xor(Xor(x, y), w))
  {
    hide Xor;
    XorAssoc(b, Xor(x, y), w);
    XorAssoc(b, x, y);
  }

  lemma XorOrder(h: bv64, a: bv64, b: bv64, x: bv64, y: bv64, w: bv64)
    ensures Xor(Xor(Xor(h, a), b), Xor(Xor(x, y), w)) == Xor(Xor(Xor(Xor(Xor(h, x), a), b), y), w)
  {
    hide Xor;
    XorThree(Xor(Xor(h, a), b), x, y, w);
    XorSwap(Xor(h, a), b, x);
    XorSwap(h, a, x);
  }

  // ----- two plies never return -----

  ghost predicate SamePosition(f: Full, g: Full) {
    f.board == g.board && f.hand == g.hand && f.side == g.side
  }

  /** A move and a reply never bring the same position back: the mover has lifted a piece of
      its own or spent one from its hand, and the reply cannot restore that. */
  lemma {:induction false} TwoPliesNeverReturn(z: Zobrist, f: Full, m1: Move, g1: bool, m2: Move, g2: bool)
    requires CanMake(f, m1) && CanMake(Made(z, f, m1, true, g1), m2)
    ensures !SamePosition(f, Made(z, Made(z, f, m1, true, g1), m2, true, g2))
  {
    hide ColorSets, TypeSets, HashOf;
    var f1 := Made(z, f, m1, true, g1);
    var f2 := Made(z, f1, m2, true, g2);
    if m1.Drop? {
      assert f2.hand[Idx(f.side)] == f1.hand[Idx(f.side)] == SubFrom(f.hand[Idx(f.side)], m1.kind);
      assert f2.hand[Idx(f.side)][m1.kind] != f.hand[Idx(f.side)][m1.kind];
    } else {
      assert f1.board[m1.from].NoPiece?;
      assert f2.board[m1.from].Piece? ==> f2.board[m1.from].color == f.side.Other();
      assert f2.board[m1.from] != f.board[m1.from];
    }
  }
}
