/** The board object: making and unmaking moves in place over its array, bitboards, king
    squares, hands, incremental hash, check counters and history. */
module Board {
  import opened Shogi
  import opened BoardState
  import opened Sennichite
  import opened Repetitions
  import Material

  // ----- placing and lifting -----

  lemma SetsPlaced(board: seq<Piece>, s: nat, p: Piece)
    requires s < |board| && board[s].NoPiece? && p.Piece?
    ensures ColorSets(board[s := p]) == ColorSets(board)[Idx(p.color) := ColorSets(board)[Idx(p.color)] + {s}]
    ensures TypeSets(board[s := p]) == TypeSets(board)[p.kind := TypeSets(board)[p.kind] + {s}]
  {
    var board' := board[s := p];
    forall c: Color
      ensures ColorSet(board', c) == if c == p.color then ColorSet(board, c) + {s} else ColorSet(board, c)
    {
    }
    forall t: nat | t < 16
      ensures TypeSet(board', t) == if t == p.kind then TypeSet(board, t) + {s} else TypeSet(board, t)
    {
    }
  }

  lemma SetsLifted(board: seq<Piece>, s: nat)
    requires s < |board| && board[s].Piece?
    ensures var p := board[s];
            && ColorSets(board[s := NoPiece]) == ColorSets(board)[Idx(p.color) := ColorSets(board)[Idx(p.color)] - {s}]
            && TypeSets(board[s := NoPiece]) == TypeSets(board)[p.kind := TypeSets(board)[p.kind] - {s}]
  {
    var p, board' := board[s], board[s := NoPiece];
    forall c: Color
      ensures ColorSet(board', c) == if c == p.color then ColorSet(board, c) - {s} else ColorSet(board, c)
    {
    }
    forall t: nat | t < 16
      ensures TypeSet(board', t) == if t == p.kind then TypeSet(board, t) - {s} else TypeSet(board, t)
    {
    }
  }

  class ShogiBoard {
    const z: Zobrist
    /** Whether a colour's king is attacked on a placement. */
    const inCheck: (seq<Piece>, Color) -> bool
    const board: array<Piece>
    var byColor: seq<set<nat>>
    var byType: seq<set<nat>>
    var hand: seq<Hand>
    var kingSq: seq<nat>
    var side: Color
    var ply: int
    var hash: bv64
    var check: seq<int>
    var history: seq<HistoryEntry>

    /** The whole state by value. */
    ghost function State(): Full
      reads this, board
    {
      Full(board[..], byColor, byType, hand, kingSq, side, ply, hash, check, history)
    }

    /** The bitboards describe the array. */
    ghost predicate BoardsAgree()
      reads this`byColor, this`byType, this`kingSq, board
    {
      board.Length == SQUARE_NB && byColor == ColorSets(board[..]) && byType == TypeSets(board[..]) && |kingSq| == 2
    }

    ghost predicate Valid()
      reads this, board
    {
      Consistent(z, State())
    }

    constructor (z: Zobrist, inCheck: (seq<Piece>, Color) -> bool)
      ensures Valid() && this.z == z && this.inCheck == inCheck && fresh(board)
      ensures State().board == seq(SQUARE_NB, _ => NoPiece) && side == Black && ply == 0 && check == [0, 0] && history == []
    {
      this.z := z;
      this.inCheck := inCheck;
      board := new Piece[SQUARE_NB](_ => NoPiece);
      byColor := [{}, {}];
      byType := seq(16, _ => {});
      hand := [[0, 0, 0, 0, 0, 0, 0, 0], [0, 0, 0, 0, 0, 0, 0, 0]];
      kingSq := [81, 81];
      side := Black;
      ply := 0;
      hash := 0;
      check := [0, 0];
      history := [];
      new;
      EmptyBoard(z, board[..]);
    }

    method PutPiece(sq: nat, p: Piece)
      requires BoardsAgree() && sq < SQUARE_NB && board[sq].NoPiece? && p.Piece?
      modifies board, this`byColor, this`byType, this`kingSq
      ensures BoardsAgree() && board[..] == old(board[..])[sq := p]
      ensures kingSq == if IsKing(p) then old(kingSq)[Idx(p.color) := sq] else old(kingSq)
    {
      SetsPlaced(board[..], sq, p);
      hide ColorSets, TypeSets;
      ghost var was := board[..];
      board[sq] := p;
      assert board[..] == was[sq := p];
      byColor := byColor[Idx(p.color) := byColor[Idx(p.color)] + {sq}];
      byType := byType[p.kind := byType[p.kind] + {sq}];
      if p.kind == KING {
        kingSq := kingSq[Idx(p.color) := sq];
      }
    }

    method RemovePiece(sq: nat) returns (p: Piece)
      requires BoardsAgree() && sq < SQUARE_NB && board[sq].Piece?
      modifies board, this`byColor, this`byType
      ensures BoardsAgree() && board[..] == old(board[..])[sq := NoPiece] && p == old(board[sq])
    {
      SetsLifted(board[..], sq);
      hide ColorSets, TypeSets;
      ghost var was := board[..];
      p := board[sq];
      board[sq] := NoPiece;
      assert board[..] == was[sq := NoPiece];
      byColor := byColor[Idx(p.color) := byColor[Idx(p.color)] - {sq}];
      byType := byType[p.kind := byType[p.kind] - {sq}];
    }

    // ----- making a move -----

    ghost predicate CanMakeNow(m: Move)
      reads this, board
    {
      BoardsAgree() && CanMake(State(), m)
    }

    /** A drop, up to turning the side. */
    method PlayDrop(m: Move, aux: bool)
      requires CanMakeNow(m) && m.Drop?
      modifies board, this`byColor, this`byType, this`kingSq, this`hand, this`hash
      ensures BoardsAgree() && board[..] == old(BoardAfter(State(), m))
      ensures hand == old(hand)[Idx(side) := old(HandAfter(State(), m))] && kingSq == old(kingSq)
      ensures hash == if aux then old(KeysPlayed(State(), m)) else old(hash)
    {
      hide Xor, HashHand, ColorSets, TypeSets;
      var us := Idx(side);
      if aux {
        hash := Xor(hash, HashHand(z, side, hand[us], 1));
      }
      hand := hand[us := SubFrom(hand[us], m.kind)];
      if aux {
        hash := Xor(hash, HashHand(z, side, hand[us], 1));
      }
      var p := Piece(side, m.kind);
      ghost var was := board[..];
      PutPiece(m.to, p);
      if aux {
        hash := Xor(hash, Key(z, p, m.to));
      }
      assert board[..] == old(BoardAfter(State(), m));
    }

    /** Takes the piece on the target square into the hand. */
    method Capture(to: nat, aux: bool)
      requires BoardsAgree() && to < SQUARE_NB && board[to].Piece? && State().Shaped()
      modifies board, this`byColor, this`byType, this`hand, this`hash
      ensures BoardsAgree() && board[..] == old(board[..])[to := NoPiece]
      ensures hand == old(hand)[Idx(side) := AddTo(old(hand)[Idx(side)], Unpromote(old(board[to]).kind))]
      ensures hash == if !aux then old(hash) else
                Xor(Xor(Xor(old(hash), Key(z, old(board[to]), to)), HashHand(z, side, old(hand)[Idx(side)], 1)),
                    HashHand(z, side, hand[Idx(side)], 1))
    {
      hide Xor, HashHand, ColorSets, TypeSets;
      var us, captured := Idx(side), board[to];
      if aux {
        hash := Xor(hash, Key(z, captured, to));
      }
      var _ := RemovePiece(to);
      if aux {
        hash := Xor(hash, HashHand(z, side, hand[us], 1));
      }
      hand := hand[us := AddTo(hand[us], Unpromote(captured.kind))];
      if aux {
        hash := Xor(hash, HashHand(z, side, hand[us], 1));
      }
    }

    /** Takes the moving piece from its square to the target, promoted if so marked. */
    method Carry(m: Move, aux: bool)
      requires BoardsAgree() && m.BoardMove? && m.OnBoard() && m.from != m.to
      requires board[m.from].Piece? && board[m.to].NoPiece?
      modifies board, this`byColor, this`byType, this`kingSq, this`hash
      ensures var p := old(board[m.from]);
              var landing := if m.promotion then Piece(p.color, Promote(p.kind)) else p;
              && BoardsAgree() && board[..] == old(board[..])[m.from := NoPiece][m.to := landing]
              && kingSq == (if IsKing(landing) then old(kingSq)[Idx(p.color) := m.to] else old(kingSq))
              && hash == if !aux then old(hash) else Xor(Xor(old(hash), Key(z, p, m.from)), Key(z, landing, m.to))
    {
      hide Xor, ColorSets, TypeSets;
      var moved := board[m.from];
      if aux {
        hash := Xor(hash, Key(z, moved, m.from));
      }
      var _ := RemovePiece(m.from);
      if m.promotion {
        moved := Piece(moved.color, Promote(moved.kind));
      }
      PutPiece(m.to, moved);
      if aux {
        hash := Xor(hash, Key(z, moved, m.to));
      }
    }

    /** A board move, up to turning the side. */
    method PlayBoardMove(m: Move, aux: bool) returns (captured: Piece)
      requires CanMakeNow(m) && m.BoardMove?
      modifies board, this`byColor, this`byType, this`kingSq, this`hand, this`hash
      ensures BoardsAgree() && board[..] == old(BoardAfter(State(), m)) && captured == old(board[m.to])
      ensures hand == old(hand)[Idx(side) := old(HandAfter(State(), m))]
      ensures kingSq == if IsKing(old(Landing(State(), m))) then old(kingSq)[Idx(side) := m.to] else old(kingSq)
      ensures hash == if aux then old(KeysPlayed(State(), m)) else old(hash)
    {
      hide Xor, HashHand, ColorSets, TypeSets;
      ghost var f := State();
      captured := board[m.to];
      if captured.Piece? {
        Capture(m.to, aux);
      } else {
        NoCaptureKeys(f, m);
      }
      Carry(m, aux);
      assert board[..] == BoardAfter(f, m);
    }

    /** Without a capture the keys of target and hand cancel. */
    lemma NoCaptureKeys(f: Full, m: Move)
      requires CanMake(f, m) && m.BoardMove? && f.board[m.to].NoPiece?
      ensures Xor(Xor(Xor(f.hash, Key(z, f.board[m.to], m.to)), HashHand(z, f.side, f.hand[Idx(f.side)], 1)),
                  HashHand(z, f.side, HandAfter(f, m), 1)) == f.hash
      ensures f.hand[Idx(f.side) := HandAfter(f, m)] == f.hand
    {
      hide Xor, HashHand;
      XorZero(f.hash);
      XorSwap(f.hash, HashHand(z, f.side, f.hand[Idx(f.side)], 1), 0);
    }

    /** The move's effect on board, hands, king squares and hash. */
    method Play(m: Move, aux: bool) returns (captured: Piece)
      requires CanMakeNow(m)
      modifies board, this`byColor, this`byType, this`kingSq, this`hand, this`hash
      ensures BoardsAgree() && board[..] == old(BoardAfter(State(), m)) && captured == old(UndoOf(State(), m, true, true).captured)
      ensures hand == old(hand)[Idx(side) := old(HandAfter(State(), m))]
      ensures kingSq == if IsKing(old(Landing(State(), m))) then old(kingSq)[Idx(side) := m.to] else old(kingSq)
      ensures !aux ==> hash == old(hash)
      ensures aux && old(hash == HashOf(z, board[..], hand, side)) ==> forall gave :: hash == old(Made(z, State(), m, true, gave)).hash
    {
      hide Xor, HashHand, ColorSets, TypeSets, HashOf, BoardAfter, HandAfter, Landing, KeysPlayed, Made;
      ghost var f := State();
      captured := NoPiece;
      if m.Drop? {
        PlayDrop(m, aux);
        DropsNoKing(f, m);
      } else {
        captured := PlayBoardMove(m, aux);
      }
      if aux {
        hash := Xor(hash, z.side);
        PlayedHash(f, m);
      }
    }

    /** The keys added one by one make up the hash of the new position. */
    lemma PlayedHash(f: Full, m: Move)
      requires CanMake(f, m)
      ensures f.hash == HashOf(z, f.board, f.hand, f.side) ==> forall gave :: Made(z, f, m, true, gave).hash == Xor(KeysPlayed(f, m), z.side)
    {
      hide Xor, HashHand, ColorSets, TypeSets, HashOf, BoardAfter, HandAfter, Landing, Key;
      if f.hash == HashOf(z, f.board, f.hand, f.side) {
        if m.Drop? {
          HashAfterDrop(z, f, m, true);
        } else {
          HashAfterMove(z, f, m, true);
        }
      }
    }

    /** The hash with the keys of a move exchanged, before the side turns. */
    ghost function KeysPlayed(f: Full, m: Move): bv64
      requires CanMake(f, m)
    {
      var own, own' := HashHand(z, f.side, f.hand[Idx(f.side)], 1), HashHand(z, f.side, HandAfter(f, m), 1);
      if m.Drop? then Xor(Xor(Xor(f.hash, own), own'), Key(z, Landing(f, m), m.to))
      else Xor(Xor(Xor(Xor(Xor(f.hash, Key(z, f.board[m.to], m.to)), own), own'), Key(z, f.board[m.from], m.from)), Key(z, Landing(f, m), m.to))
    }

    /** Makes a move. With `updateAuxiliary` the hash, the history and the check counters
        follow; `givesCheck` is 1 or 0 when the caller knows, and negative when not. Without it
        the hash may already be out of date. */
    method DoMoveInternal(m: Move, updateAuxiliary: bool, givesCheck: int) returns (undo: UndoInfo)
      requires CanMakeNow(m) && (updateAuxiliary ==> Valid())
      requires givesCheck >= 0 ==> (givesCheck != 0 <==> inCheck(BoardAfter(State(), m), side.Other()))
      modifies this, board
      ensures var gave := inCheck(old(BoardAfter(State(), m)), old(side).Other());
              && State() == Made(z, old(State()), m, updateAuxiliary, gave)
              && undo == UndoOf(old(State()), m, updateAuxiliary, gave)
      ensures Material.SameMaterial(old(State()), State())
      ensures updateAuxiliary ==> Valid()
    {
      hide Xor, HashHand, ColorSets, TypeSets, HashOf, KingsKnown, BoardAfter, HandAfter, Landing, CanMake, Material.SameMaterial;
      ghost var f := State();
      CanMakeShaped(m);
      Material.MoveKeepsMaterial(z, f, m, updateAuxiliary, inCheck(BoardAfter(f, m), f.side.Other()));
      var us := side;
      undo := UndoInfo(NoPiece, hand[Idx(us)], hash, check[Idx(us)], false, updateAuxiliary);
      var entry := HistoryEntry(hash, hand[0], hand[1]);
      if updateAuxiliary {
        history := history + [entry];
      }
      SameMove(f, State(), m);
      var captured := Play(m, updateAuxiliary);
      undo := undo.(captured := captured);
      side := us.Other();
      ply := ply + 1;
      var gave := if givesCheck >= 0 then givesCheck != 0 else inCheck(board[..], us.Other());
      if updateAuxiliary {
        undo := undo.(gaveCheck := gave);
        check := check[Idx(us) := if gave then check[Idx(us)] + 2 else 0];
        MadeIsConsistent(z, f, m, gave);
      }
    }

    lemma CanMakeShaped(m: Move)
      requires CanMakeNow(m)
      ensures State().Shaped()
    {
    }

    lemma AgreesNow()
      requires Valid()
      ensures BoardsAgree() && State().Shaped()
    {
    }

    /** The history has no part in what a move does to the board. */
    lemma SameMove(f: Full, g: Full, m: Move)
      requires CanMake(f, m) && g == f.(history := g.history) && g.Shaped()
      ensures CanMake(g, m) && BoardAfter(g, m) == BoardAfter(f, m) && HandAfter(g, m) == HandAfter(f, m) && Landing(g, m) == Landing(f, m)
      ensures forall gave :: Made(z, g, m, true, gave).hash == Made(z, f, m, true, gave).hash
      ensures UndoOf(g, m, true, true).captured == UndoOf(f, m, true, true).captured
    {
      hide ColorSets, TypeSets, HashOf;
    }

    lemma DropsNoKing(f: Full, m: Move)
      requires CanMake(f, m) && m.Drop?
      ensures !IsKing(Landing(f, m))
    {
    }

    method DoMove(m: Move) returns (undo: UndoInfo)
      requires Valid() && CanMake(State(), m)
      modifies this, board
      ensures var gave := inCheck(old(BoardAfter(State(), m)), old(side).Other());
              State() == Made(z, old(State()), m, true, gave) && undo == UndoOf(old(State()), m, true, gave)
      ensures Valid()
    {
      AgreesNow();
      undo := DoMoveInternal(m, true, -1);
    }

    // ----- keys without moving -----

    /** The hash the position would have after the move. */
    method HashAfter(m: Move) returns (h: bv64)
      requires Valid() && CanMake(State(), m)
      ensures forall gave :: h == Made(z, State(), m, true, gave).hash
    {
      hide Xor, HashHand, ColorSets, TypeSets, HashOf, KingsKnown, BoardAfter;
      ghost var f := State();
      h := hash;
      var us := Idx(side);
      if m.Drop? {
        h := Xor(h, HashHand(z, side, hand[us], 1));
        h := Xor(h, HashHand(z, side, SubFrom(hand[us], m.kind), 1));
        h := Xor(h, Key(z, Piece(side, m.kind), m.to));
        HashAfterDrop(z, f, m, true);
      } else {
        var captured := board[m.to];
        if captured.Piece? {
          h := Xor(h, Key(z, captured, m.to));
          h := Xor(h, HashHand(z, side, hand[us], 1));
          h := Xor(h, HashHand(z, side, AddTo(hand[us], Unpromote(captured.kind)), 1));
        } else {
          NoCaptureKeys(f, m);
        }
        var moved := board[m.from];
        h := Xor(h, Key(z, moved, m.from));
        if m.promotion {
          moved := Piece(moved.color, Promote(moved.kind));
        }
        h := Xor(h, Key(z, moved, m.to));
        HashAfterMove(z, f, m, true);
      }
      h := Xor(h, z.side);
    }

    /** The hash with both hands' keys taken out again. */
    function BoardKey(): bv64
      requires |hand| == 2 && |hand[0]| == 8 && |hand[1]| == 8
      reads this
    {
      Xor(Xor(hash, HashHand(z, Black, hand[0], 1)), HashHand(z, White, hand[1], 1))
    }

    /** The board key is a key of placement and side to move alone. */
    lemma {:induction false} BoardKeyIgnoresHands()
      requires Valid()
      ensures BoardKey() == Xor(BoardHash(z, board[..], 0), SideKey(z, side))
    {
      hide Xor, HashHand, ColorSets, TypeSets, BoardHash;
      XorBoth(BoardHash(z, board[..], 0), HashHand(z, Black, hand[0], 1), HashHand(z, White, hand[1], 1), SideKey(z, side));
    }

    /** The board key the position would have after the move. */
    method BoardKeyAfter(m: Move) returns (h: bv64)
      requires Valid() && CanMake(State(), m)
      ensures h == Xor(BoardHash(z, BoardAfter(State(), m), 0), SideKey(z, side.Other()))
    {
      hide Xor, HashHand, ColorSets, TypeSets, HashOf, KingsKnown, BoardAfter, BoardHash, SideKey;
      ghost var f := State();
      BoardKeyIgnoresHands();
      h := BoardKey();
      if m.Drop? {
        h := Xor(h, Key(z, Piece(side, m.kind), m.to));
        DropHash(z, f, m);
        XorSwap(BoardHash(z, f.board, 0), SideKey(z, side), Key(z, Landing(f, m), m.to));
      } else {
        var captured := board[m.to];
        if captured.Piece? {
          h := Xor(h, Key(z, captured, m.to));
        } else {
          XorZero(h);
        }
        var moved := board[m.from];
        h := Xor(h, Key(z, moved, m.from));
        if m.promotion {
          moved := Piece(moved.color, Promote(moved.kind));
        }
        h := Xor(h, Key(z, moved, m.to));
        MoveHash(z, f, m);
        XorPast(BoardHash(z, f.board, 0), SideKey(z, side), Key(z, f.board[m.to], m.to), Key(z, f.board[m.from], m.from), Key(z, Landing(f, m), m.to));
      }
      SideTurns(z, BoardHash(z, BoardAfter(f, m), 0), side);
      h := Xor(h, z.side);
    }

    // ----- unmaking a move -----

    /** Takes back the move made last: every field is what it was before. */
    method UndoMove(m: Move, undo: UndoInfo, ghost f: Full, ghost gave: bool)
      requires BoardsAgree() && CanMake(f, m) && f.byColor == ColorSets(f.board) && f.byType == TypeSets(f.board)
      requires KingsKnown(f.board, f.kingSq)
      requires State() == Made(z, f, m, undo.updatedAuxiliary, gave) && undo == UndoOf(f, m, undo.updatedAuxiliary, gave)
      modifies this, board
      ensures State() == f
    {
      hide Xor, HashHand, ColorSets, TypeSets, HashOf;
      side := side.Other();
      ply := ply - 1;
      var us := Idx(side);
      if m.Drop? {
        TakeBackDrop(m, undo, f, gave);
      } else {
        TakeBack(m, undo, f, gave);
      }
      if undo.updatedAuxiliary {
        hash := undo.prevHash;
        check := check[us := undo.prevCheck];
      }
      if undo.updatedAuxiliary && history != [] {
        history := history[..|history| - 1];
      }
      assert board[..] == f.board;
      assert hand == f.hand;
      assert check == f.check;
    }

    /** Takes a dropped piece back in hand. */
    method TakeBackDrop(m: Move, undo: UndoInfo, ghost f: Full, ghost gave: bool)
      requires BoardsAgree() && CanMake(f, m) && m.Drop? && KingsKnown(f.board, f.kingSq)
      requires board[..] == BoardAfter(f, m) && side == f.side
      requires hand == f.hand[Idx(f.side) := HandAfter(f, m)]
      requires kingSq == if IsKing(Landing(f, m)) then f.kingSq[Idx(f.side) := m.to] else f.kingSq
      requires undo == UndoOf(f, m, undo.updatedAuxiliary, gave)
      modifies board, this`byColor, this`byType, this`kingSq, this`hand
      ensures BoardsAgree() && board[..] == f.board && hand == f.hand && kingSq == f.kingSq
    {
      hide ColorSets, TypeSets;
      var _ := RemovePiece(m.to);
      hand := hand[Idx(side) := undo.prevHand];
      assert board[..] == f.board;
      assert hand == f.hand;
    }

    /** Takes the moved piece back to its square and puts a captured piece back. */
    method TakeBack(m: Move, undo: UndoInfo, ghost f: Full, ghost gave: bool)
      requires BoardsAgree() && CanMake(f, m) && m.BoardMove? && KingsKnown(f.board, f.kingSq)
      requires board[..] == BoardAfter(f, m) && side == f.side
      requires hand == f.hand[Idx(f.side) := HandAfter(f, m)]
      requires kingSq == if IsKing(Landing(f, m)) then f.kingSq[Idx(f.side) := m.to] else f.kingSq
      requires undo == UndoOf(f, m, undo.updatedAuxiliary, gave)
      modifies board, this`byColor, this`byType, this`kingSq, this`hand
      ensures BoardsAgree() && board[..] == f.board && hand == f.hand && kingSq == f.kingSq
    {
      hide ColorSets, TypeSets;
      var moved := RemovePiece(m.to);
      if m.promotion {
        moved := Piece(moved.color, Unpromote(moved.kind));
      }
      LandedPiece(f, m);
      PutPiece(m.from, moved);
      if undo.captured.Piece? {
        PutPiece(m.to, undo.captured);
        hand := hand[Idx(side) := undo.prevHand];
      } else {
        assert f.hand[Idx(f.side) := f.hand[Idx(f.side)]] == f.hand;
      }
      assert board[..] == f.board;
      assert kingSq == f.kingSq;
    }

    /** Clearing the promotion bit of what landed gives back what moved. */
    lemma LandedPiece(f: Full, m: Move)
      requires CanMake(f, m) && m.BoardMove?
      ensures var landed := Landing(f, m);
              f.board[m.from] == if m.promotion then Piece(landed.color, Unpromote(landed.kind)) else landed
      ensures IsKing(Landing(f, m)) <==> IsKing(f.board[m.from])
    {
    }

    // ----- repetition -----

    /** The search-time repetition rule, with the distance to the occurrence it found. */
    method CheckRepetition(maxBackPlies: int, ghost past: seq<Ply>) returns (r: RepetitionResult, distance: nat)
      requires board.Length == SQUARE_NB && IsRecord(z, past, State()) && NoCollision(past, State())
      ensures |history| == |past| && IsVerdict(past, State(), Window(|history|, maxBackPlies), r, distance)
    {
      hide IsRecord, SamePosition, CheckedThroughout, IsVerdict, NoCollision, Back, Consistent;
      ghost var now := State();
      HistoryIsRecord(z, past, now);
      RecordIsConsistent(z, past, now);
      ShapedNow();
      var historySize := |history|;
      var maxDistance := if 0 < maxBackPlies < historySize then maxBackPlies else historySize;
      NoneThatClose(past, now, maxDistance);
      distance := 0;
      var dist: nat := 4;
      while dist <= maxDistance
        invariant dist >= 4 && dist % 2 == 0
        invariant forall d: nat | 1 <= d < dist && d <= maxDistance :: !SamePosition(Back(past, d), now)
        decreases maxDistance + 2 - dist
      {
        var entry := history[historySize - dist];
        MatchIsReturn(past, now, dist);
        if entry.hash == hash && entry.handBlack == hand[0] && entry.handWhite == hand[1] {
          distance := dist;
          r := Adjudicate(dist, past);
          DecidedAt(past, now, maxDistance, r, dist);
          return;
        }
        NextIsOdd(past, now, dist, maxDistance);
        dist := dist + 2;
      }
      r := NoRepetition;
      NothingFound(past, now, maxDistance);
    }

    /** Who is to blame for a return at this distance, by the check counters. */
    method Adjudicate(dist: nat, ghost past: seq<Ply>) returns (r: RepetitionResult)
      requires IsRecord(z, past, State()) && dist <= |past| && dist % 2 == 0
      ensures r == if CheckedThroughout(past, side, dist) then RepetitionLoss
                   else if CheckedThroughout(past, side.Other(), dist) then RepetitionWin
                   else RepetitionDraw
    {
      hide IsRecord, CheckedThroughout;
      CounterReaches(z, past, State(), side, dist);
      CounterReaches(z, past, State(), side.Other(), dist);
      if check[Idx(side)] >= dist {
        return RepetitionLoss;
      }
      if check[Idx(side.Other())] >= dist {
        return RepetitionWin;
      }
      return RepetitionDraw;
    }

    lemma ShapedNow()
      requires Consistent(z, State())
      ensures |hand| == 2 && |check| == 2 && |hand[0]| == 8 && |hand[1]| == 8
    {
    }

    lemma NoneThatClose(past: seq<Ply>, now: Full, window: nat)
      requires IsRecord(z, past, now) && window <= |past|
      ensures forall d: nat | 1 <= d < 4 && d <= window :: !SamePosition(Back(past, d), now)
    {
      hide IsRecord, SamePosition;
      forall d: nat | 1 <= d < 4 && d <= window
        ensures !SamePosition(Back(past, d), now)
      {
        if SamePosition(Back(past, d), now) {
          ReturnsAreFar(z, past, now, d);
          assert false;
        }
      }
    }

    lemma MatchIsReturn(past: seq<Ply>, now: Full, dist: nat)
      requires IsRecord(z, past, now) && NoCollision(past, now) && 1 <= dist <= |past| && |now.history| == |past| && now.Shaped()
      ensures now.history[|past| - dist] == HistoryEntry(now.hash, now.hand[0], now.hand[1]) <==> SamePosition(Back(past, dist), now)
    {
      hide IsRecord, SamePosition;
      EntryMatches(z, past, now, |past| - dist);
    }

    lemma NextIsOdd(past: seq<Ply>, now: Full, dist: nat, window: nat)
      requires IsRecord(z, past, now) && dist % 2 == 0 && window <= |past|
      ensures dist + 1 <= window ==> !SamePosition(Back(past, dist + 1), now)
    {
      hide IsRecord, SamePosition;
      if dist + 1 <= window && SamePosition(Back(past, dist + 1), now) {
        ReturnsAreFar(z, past, now, dist + 1);
        assert false;
      }
    }

    lemma DecidedAt(past: seq<Ply>, now: Full, window: nat, r: RepetitionResult, dist: nat)
      requires 1 <= dist <= window <= |past| && SamePosition(Back(past, dist), now)
      requires forall d: nat | 1 <= d < dist && d <= window :: !SamePosition(Back(past, d), now)
      requires r == if CheckedThroughout(past, now.side, dist) then RepetitionLoss
                    else if CheckedThroughout(past, now.side.Other(), dist) then RepetitionWin
                    else RepetitionDraw
      ensures IsVerdict(past, now, window, r, dist)
    {
      hide SamePosition, CheckedThroughout;
    }

    lemma NothingFound(past: seq<Ply>, now: Full, window: nat)
      requires window <= |past| && forall d: nat | 1 <= d <= window :: !SamePosition(Back(past, d), now)
      ensures IsVerdict(past, now, window, NoRepetition, 0)
    {
      hide SamePosition;
    }

    /** Starts a new game record at the current position. */
    method ClearHistory()
      requires Valid()
      modifies this`history, this`check
      ensures Valid() && State() == old(State()).(history := [], check := [0, 0]) && IsRecord(z, [], State())
    {
      history := [];
      check := [0, 0];
    }
  }

  lemma XorBoth(b: bv64, h0: bv64, h1: bv64, s: bv64)
    ensures Xor(Xor(Xor(Xor(Xor(b, h0), h1), s), h0), h1) == Xor(b, s)
  {
    hide Xor;
    XorSwap(Xor(b, h0), h1, s);
    XorSwap(b, h0, s);
    XorSwap(Xor(Xor(b, s), h0), h1, h0);
    XorSwap(Xor(b, s), h0, h0);
    XorSwap(Xor(b, s), h1, h1);
  }

  lemma XorPast(b: bv64, s: bv64, x: bv64, y: bv64, w: bv64)
    ensures Xor(Xor(Xor(Xor(b, s), x), y), w) == Xor(Xor(Xor(Xor(b, x), y), w), s)
  {
    hide Xor;
    XorSwap(b, s, x);
    XorSwap(Xor(b, x), s, y);
    XorSwap(Xor(Xor(b, x), y), s, w);
  }

  lemma {:induction false} EmptyHash(z: Zobrist, board: seq<Piece>, s: nat)
    requires s <= |board| && forall i: nat | i < |board| :: board[i].NoPiece?
    ensures BoardHash(z, board, s) == 0
    decreases |board| - s
  {
    if s < |board| {
      EmptyHash(z, board, s + 1);
      XorZero(0);
    }
  }

  lemma {:induction false} EmptyHandHash(z: Zobrist, c: Color, h: Hand, t: nat)
    requires |h| == 8 && t <= 8 && forall i: nat | i < 8 :: h[i] == 0
    ensures HashHand(z, c, h, t) == 0
    decreases 8 - t
  {
    if t < 8 {
      EmptyHandHash(z, c, h, t + 1);
      XorZero(0);
    }
  }

  /** An empty board with empty hands and Black to move has hash zero and no set bits. */
  lemma EmptyBoard(z: Zobrist, board: seq<Piece>)
    requires |board| == SQUARE_NB && forall i: nat | i < |board| :: board[i].NoPiece?
    ensures var h := [[0, 0, 0, 0, 0, 0, 0, 0], [0, 0, 0, 0, 0, 0, 0, 0]];
            HashOf(z, board, h, Black) == 0
    ensures ColorSets(board) == [{}, {}] && TypeSets(board) == seq(16, _ => {})
    ensures KingsKnown(board, [81, 81]) && board == seq(SQUARE_NB, _ => NoPiece)
  {
    EmptyHashes(z, board);
    EmptySets(board);
    hide HashOf, ColorSets, TypeSets;
  }

  lemma EmptyHashes(z: Zobrist, board: seq<Piece>)
    requires |board| == SQUARE_NB && forall i: nat | i < |board| :: board[i].NoPiece?
    ensures HashOf(z, board, [[0, 0, 0, 0, 0, 0, 0, 0], [0, 0, 0, 0, 0, 0, 0, 0]], Black) == 0
  {
    hide Xor, BoardHash, HashHand;
    EmptyHash(z, board, 0);
    EmptyHandHash(z, Black, [0, 0, 0, 0, 0, 0, 0, 0], 1);
    EmptyHandHash(z, White, [0, 0, 0, 0, 0, 0, 0, 0], 1);
    XorZero(0);
  }

  lemma EmptySets(board: seq<Piece>)
    requires |board| == SQUARE_NB && forall i: nat | i < |board| :: board[i].NoPiece?
    ensures ColorSets(board) == [{}, {}] && TypeSets(board) == seq(16, _ => {})
  {
    assert ColorSet(board, Black) == {} && ColorSet(board, White) == {};
    forall t: nat | t < 16
      ensures TypeSet(board, t) == {}
    {
    }
  }
}
