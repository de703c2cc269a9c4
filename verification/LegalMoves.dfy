/** All legal moves of a board object. Where a dropped pawn attacks the king the generators make
    the drop, look for an answer, and take it back. */
module LegalMoves {
  import opened Shogi
  import opened Geometry
  import opened BoardState
  import opened Attacks
  import opened Legality
  import opened Board
  import opened MoveGen
  import opened Evasions

  ghost predicate ReadyBoard(b: ShogiBoard)
    reads b, b.board
  {
    Ready(b.State())
  }

  /** The fields read together. */
  method Fields(b: ShogiBoard) returns (f: Full)
    ensures f == b.State()
  {
    f := Full(b.board[..], b.byColor, b.byType, b.hand, b.kingSq, b.side, b.ply, b.hash, b.check, b.history);
  }

  // ----- playing a move to look at it -----

  lemma AnyKeys(z: Zobrist, f: Full, m: Move, gave: bool)
    requires CanMake(f, m)
    ensures Made(z, f, m, false, gave) == After(f, m)
  {
    hide ColorSets, TypeSets, BoardAfter, HandAfter, Landing, CanMake;
  }

  /** Makes a move without touching keys and counters. */
  method DoMoveForMovegen(b: ShogiBoard, m: Move) returns (undo: UndoInfo)
    requires ReadyBoard(b) && CanMake(b.State(), m)
    modifies b, b.board
    ensures b.State() == After(old(b.State()), m) && undo == UndoOf(old(b.State()), m, false, false)
  {
    ghost var f := b.State();
    CanMakeReady(b, m);
    hide *;
    undo := b.DoMoveInternal(m, false, -1);
    ghost var gave := b.inCheck(BoardAfter(f, m), f.side.Other());
    AnyKeys(b.z, f, m, gave);
    SameUndo(f, m, gave);
  }

  lemma CanMakeReady(b: ShogiBoard, m: Move)
    requires ReadyBoard(b) && CanMake(b.State(), m)
    ensures b.CanMakeNow(m)
  {
    hide CanMake, KingsKnown, ColorSets, TypeSets;
  }

  lemma SameUndo(f: Full, m: Move, gave: bool)
    requires CanMake(f, m)
    ensures UndoOf(f, m, false, gave) == UndoOf(f, m, false, false)
  {
    hide CanMake;
  }

  /** Takes it back. */
  method UndoMovegen(b: ShogiBoard, m: Move, undo: UndoInfo, ghost f: Full)
    requires Ready(f) && CanMake(f, m) && b.State() == After(f, m) && undo == UndoOf(f, m, false, false)
    modifies b, b.board
    ensures b.State() == f
  {
    AfterIsBoards(b, f, m);
    AnyKeys(b.z, f, m, false);
    hide CanMake, Made, ColorSets, TypeSets, KingsKnown;
    b.UndoMove(m, undo, f, false);
  }

  lemma AfterIsBoards(b: ShogiBoard, f: Full, m: Move)
    requires CanMake(f, m) && b.State() == After(f, m)
    ensures b.BoardsAgree()
  {
    AfterAgrees(f, m);
    hide CanMake, Made, ColorSets, TypeSets;
  }

  // ----- pawn drops that might give mate -----

  lemma PawnChecks(f: Full, m: Move)
    requires Ready(f) && CanMake(f, m) && DropsPawnWithCheck(f, m)
    ensures Ready(After(f, m)) && After(f, m).side == f.side.Other() && InCheck(After(f, m), f.side.Other())
  {
    DropKeepsReady(f, m);
    KingIsThere(f);
    var g := After(f, m);
    DroppedPawn(f, m);
    hide ColorSets, TypeSets, Ready, Occupied, StepSet;
    assert f.side.Other().Other() == f.side;
    assert IsAttacker(g.board, f.side.Other().Other(), m.to, g.kingSq[Idx(f.side.Other())], Occupied(g));
  }

  lemma DroppedPawn(f: Full, m: Move)
    requires Ready(f) && CanMake(f, m) && m.Drop?
    ensures m.to < |After(f, m).board| && After(f, m).board[m.to] == Piece(f.side, m.kind)
    ensures After(f, m).kingSq == f.kingSq && After(f, m).side == f.side.Other()
    ensures After(f, m).Shaped() && f.kingSq[Idx(f.side.Other())] < SQUARE_NB
  {
    hide ColorSets, TypeSets, KingsKnown;
  }

  /** Makes the drop, looks for an answer and takes the drop back. */
  method MatesByDrop(b: ShogiBoard, m: Move) returns (mate: bool)
    requires ReadyBoard(b) && CanMake(b.State(), m) && DropsPawnWithCheck(b.State(), m)
    requires Ready(After(b.State(), m))
    modifies b, b.board
    ensures b.State() == old(b.State()) && (mate <==> Mated(After(old(b.State()), m)))
    decreases Empties(b.board[..]), 0
  {
    ghost var f := b.State();
    hide *;
    ReadyHere(b, f);
    PawnChecks(f, m);
    FewerEmpties(f, m);
    var undo := DoMoveForMovegen(b, m);
    ReadyHere(b, After(f, m));
    var answer := HasLegalEvasion(b);
    mate := !answer;
    UndoMovegen(b, m, undo, f);
  }

  lemma FewerEmpties(f: Full, m: Move)
    requires CanMake(f, m) && DropsPawnWithCheck(f, m)
    ensures Empties(After(f, m).board) < Empties(f.board)
  {
    hide CanMake, Empties;
    DropFills(f, m);
  }

  lemma ReadyHere(b: ShogiBoard, f: Full)
    requires b.State() == f
    ensures (ReadyBoard(b) <==> Ready(f)) && f.board == b.board[..]
  {
    hide Ready;
  }

  lemma DropIsLegal(f: Full, m: Move)
    requires Ready(f) && PseudoLegal(f, m) && m.Drop? && MeetsChecks(f, m.to)
    ensures CanMake(f, m) && Ready(After(f, m))
    ensures Legal(f, m) <==> !(DropsPawnWithCheck(f, m) && Mated(After(f, m)))
  {
    PseudoIsMakeable(f, m);
    DropSafety(f, m);
    DropKeepsReady(f, m);
    hide PseudoLegal, MeetsChecks, CanMake, Made, DropsPawnWithCheck, Mated, Ready, InCheck;
  }

  /** A full test of one pseudo-legal move; board moves are asked only when not in check, drops
      only when they meet the check. */
  method IsLegal(b: ShogiBoard, m: Move, pinned: set<nat>) returns (r: bool)
    requires ReadyBoard(b) && PseudoLegal(b.State(), m) && IsPinnedSet(b.State(), pinned)
    requires if m.Drop? then MeetsChecks(b.State(), m.to) else !InCheck(b.State(), b.State().side)
    modifies b, b.board
    ensures b.State() == old(b.State()) && (r <==> Legal(old(b.State()), m))
    decreases Empties(b.board[..]), 1
  {
    var f := Fields(b);
    hide *;
    ReadyHere(b, f);
    if m.Drop? {
      DropIsLegal(f, m);
      DropCheckIs(f, m);
      if m.kind == PAWN && f.kingSq[Idx(f.side.Other())] in StepSet(m.to, PawnSteps(f.side)) {
        var mate := MatesByDrop(b, m);
        return !mate;
      }
      return true;
    }
    r := IsLegalBoardMove(f, m, pinned);
  }

  lemma DropCheckIs(f: Full, m: Move)
    requires Ready(f)
    ensures f.Shaped() && |f.kingSq| == 2 && f.kingSq[Idx(f.side.Other())] < SQUARE_NB
    ensures DropsPawnWithCheck(f, m) <==> m.Drop? && m.kind == PAWN && f.kingSq[Idx(f.side.Other())] in StepSet(m.to, PawnSteps(f.side))
  {
    KingIsThere(f);
    hide Ready, StepSet, Agrees;
  }

  method IsLegalBoardMove(f: Full, m: Move, pinned: set<nat>) returns (r: bool)
    requires Ready(f) && PseudoLegal(f, m) && IsPinnedSet(f, pinned) && m.BoardMove? && !InCheck(f, f.side)
    ensures r <==> Legal(f, m)
  {
    hide *;
    PseudoMoveMeans(f, m, pinned);
    KingIsThere(f);
    var ksq := f.kingSq[Idx(f.side)];
    if m.from == ksq {
      var occ := Occupied(f) - {ksq};
      NoAttackersIs(f, m.to, occ);
      return AttackersTo(f, m.to, occ, f.side.Other()) == {};
    }
    if pinned == {} {
      return true;
    }
    if m.from !in pinned {
      return true;
    }
    r := m.to in Line(m.from, ksq);
  }

  lemma NoAttackersIs(f: Full, to: nat, occ: set<nat>)
    requires Ready(f) && to < SQUARE_NB && occ == Occupied(f) - {f.kingSq[Idx(f.side)]}
    ensures AttackersTo(f, to, occ, f.side.Other()) == {} <==> KingSafeOn(f, to)
  {
    KingIsThere(f);
    OccupiedOnBoard(f);
    SomeAttacker(f, to, occ, f.side.Other());
    hide Occupied, AttackersTo, Ready, IsAttacker, Agrees;
  }

  lemma PseudoMoveMeans(f: Full, m: Move, pinned: set<nat>)
    requires Ready(f) && PseudoLegal(f, m) && IsPinnedSet(f, pinned) && m.BoardMove? && !InCheck(f, f.side)
    ensures m.to < SQUARE_NB
    ensures f.Shaped() && (Legal(f, m) <==> if m.from == f.kingSq[Idx(f.side)] then KingSafeOn(f, m.to)
                                            else m.from in pinned ==> m.to in Line(m.from, f.kingSq[Idx(f.side)]))
  {
    KingIsThere(f);
    KeptIsLegal(f, pinned, m);
    hide Ready, Agrees, Line, PieceAttacks, MayPromote, MustPromote, KingSeen, IsPinnedSet, InCheck, Legal, Occupied;
  }

  // ----- drops against a check -----

  ghost function LegalDropsOnto(f: Full, t: PieceType, tos: set<nat>): iset<Move>
    requires Ready(f)
  {
    iset m: Move | m.Drop? && m.kind == t && m.to in tos && Legal(f, m)
  }

  ghost function LegalDropsBelow(f: Full, below: nat): iset<Move>
    requires Ready(f)
  {
    iset m: Move | m.Drop? && m.kind < below && Legal(f, m)
  }

  ghost function AllLegalDrops(f: Full): iset<Move>
    requires Ready(f)
  {
    iset m: Move | m.Drop? && Legal(f, m)
  }

  /** A square where the piece may be dropped against the only check. */
  ghost predicate Blocks(f: Full, checker: nat, t: PieceType, to: nat)
    requires Ready(f)
  {
    && IsHandPiece(t) && f.hand[Idx(f.side)][t] > 0 && to in Between(f.kingSq[Idx(f.side)], checker) && to !in Occupied(f) && DropAllowed(f, t, to)
  }

  lemma BlockingDrop(f: Full, checker: nat, t: PieceType, to: nat)
    requires Ready(f) && CheckersOf(f) == {checker}
    ensures Blocks(f, checker, t, to) ==> PseudoLegal(f, Drop(t, to)) && MeetsChecks(f, to)
    ensures Blocks(f, checker, t, to) && t != PAWN ==> Legal(f, Drop(t, to))
    ensures Legal(f, Drop(t, to)) ==> Blocks(f, checker, t, to)
  {
    BlocksIs(f, checker, t, to);
    var m := Drop(t, to);
    if Blocks(f, checker, t, to) {
      DropIsLegal(f, m);
      hide Legal, Ready, Blocks, PseudoLegal, Mated, CanMake, Made, MeetsChecks, CheckersOf;
    } else if Legal(f, m) {
      LegalMeans(f, m);
      DropSafety(f, m);
      hide Legal, Ready, Blocks, PseudoLegal, Mated, CanMake, Made, MeetsChecks, CheckersOf;
    }
  }

  lemma BlocksIs(f: Full, checker: nat, t: PieceType, to: nat)
    requires Ready(f) && CheckersOf(f) == {checker}
    ensures f.Shaped() && f.kingSq[Idx(f.side)] < SQUARE_NB
    ensures Blocks(f, checker, t, to) <==> PseudoLegal(f, Drop(t, to)) && MeetsChecks(f, to)
  {
    hide Occupied, Between, Ready, Agrees, MeetsChecks, CheckersOf, MustPromote, HasPawnOnFile;
    KingIsThere(f);
    BetweenOnBoard(f.kingSq[Idx(f.side)], checker);
    OccupiedAre(f, to);
    if to < SQUARE_NB {
      MeetsOnEmpty(f, checker, to);
    }
  }

  lemma MeetsOnEmpty(f: Full, checker: nat, to: nat)
    requires Ready(f) && CheckersOf(f) == {checker} && to < SQUARE_NB
    ensures f.Shaped() && f.kingSq[Idx(f.side)] < SQUARE_NB
    ensures to !in Occupied(f) ==> (MeetsChecks(f, to) <==> to in Between(f.kingSq[Idx(f.side)], checker))
  {
    hide Occupied, Between, Ready, Agrees, MeetsChecks, CheckersOf;
    KingIsThere(f);
    CheckerOnBoard(f, checker);
    OccupiedAre(f, checker);
    SingleCheck(f, checker, to);
  }

  lemma OneDropMore(f: Full, checker: nat, t: PieceType, targets: set<nat>, rest: set<nat>, to: nat, ok: bool, want: iset<Move>)
    requires Ready(f) && rest <= targets && to in rest && (ok <==> Legal(f, Drop(t, to)))
    requires forall m: Move | m in want && m.Drop? :: m.kind != t
    ensures var found := want + LegalDropsOnto(f, t, targets - rest);
            && Drop(t, to) !in found
            && want + LegalDropsOnto(f, t, targets - (rest - {to})) == if ok then found + iset{Drop(t, to)} else found
  {
    hide Legal, Ready;
  }

  lemma DropsGrow(f: Full, t: PieceType, some: set<nat>, targets: set<nat>, want: iset<Move>)
    requires Ready(f) && some <= targets
    ensures want + LegalDropsOnto(f, t, some) + LegalDropsOnto(f, t, targets) == want + LegalDropsOnto(f, t, targets)
    ensures want + LegalDropsOnto(f, t, {}) == want
  {
    hide Legal, Ready;
  }

  /** Drops of one kind of piece. */
  method DropKind(b: ShogiBoard, ghost checker: nat, pinned: set<nat>, t: PieceType, targets: set<nat>, one: bool, moves: seq<Move>, ghost want: iset<Move>)
    returns (moves': seq<Move>)
    requires ReadyBoard(b) && CheckersOf(b.State()) == {checker} && IsPinnedSet(b.State(), pinned)
    requires forall to: nat | to in targets :: Blocks(b.State(), checker, t, to)
    requires Collects(moves, want, one) && (one ==> moves == []) && forall m: Move | m in want && m.Drop? :: m.kind != t
    modifies b, b.board
    ensures b.State() == old(b.State()) && Collects(moves', want + LegalDropsOnto(old(b.State()), t, targets), one)
    decreases Empties(b.board[..]), 2
  {
    ghost var f := b.State();
    hide *;
    ReadyHere(b, f);
    moves' := moves;
    var rest := targets;
    assert targets - rest == {};
    DropsGrow(f, t, {}, targets, want);
    while rest != {}
      invariant b.State() == f && ReadyBoard(b)
      invariant rest <= targets && Collects(moves', want + LegalDropsOnto(f, t, targets - rest), one) && (one ==> moves' == [])
      decreases |rest|
    {
      var to := Peek(rest);
      BlockingDrop(f, checker, t, to);
      var ok := t != PAWN;
      if !ok {
        ok := IsLegal(b, Drop(t, to), pinned);
        ReadyHere(b, f);
      }
      OneDropMore(f, checker, t, targets, rest, to, ok, want);
      if ok {
        PushCollects(moves', want + LegalDropsOnto(f, t, targets - rest), Drop(t, to), one);
        moves' := moves' + [Drop(t, to)];
        if one {
          DropsGrow(f, t, targets - (rest - {to}), targets, want);
          OneIsEnough(moves', want + LegalDropsOnto(f, t, targets - (rest - {to})), LegalDropsOnto(f, t, targets));
          return;
        }
      }
      rest := rest - {to};
    }
    assert targets - rest == targets;
  }

  lemma KindDone(f: Full, checker: nat, t: PieceType, base: set<nat>, targets: set<nat>, want: iset<Move>)
    requires Ready(f) && CheckersOf(f) == {checker} && 1 <= t <= 7 && forall m: Move | m in want :: m.BoardMove?
    requires base == Between(f.kingSq[Idx(f.side)], checker) - Occupied(f) && targets <= base
    requires f.hand[Idx(f.side)][t] > 0 && forall to: nat | to in base :: to in targets <==> DropAllowed(f, t, to)
    ensures forall to: nat | to in targets :: Blocks(f, checker, t, to)
    ensures want + LegalDropsBelow(f, t) + LegalDropsOnto(f, t, targets) == want + LegalDropsBelow(f, t + 1)
    ensures forall m: Move | m in want + LegalDropsBelow(f, t) && m.Drop? :: m.kind != t
  {
    hide Legal, Ready, Occupied, Between, DropAllowed, CheckersOf, Agrees;
    KingIsThere(f);
    forall to: nat | Legal(f, Drop(t, to))
      ensures to in targets
    {
      BlockingDrop(f, checker, t, to);
    }
    forall m: Move
      ensures m in LegalDropsBelow(f, t) + LegalDropsOnto(f, t, targets) <==> m in LegalDropsBelow(f, t + 1)
    {
      if m.Drop? && m.kind == t {
        assert m == Drop(t, m.to);
      }
    }
    assert LegalDropsBelow(f, t) + LegalDropsOnto(f, t, targets) == LegalDropsBelow(f, t + 1);
  }

  lemma KindMissing(f: Full, checker: nat, t: PieceType)
    requires Ready(f) && CheckersOf(f) == {checker} && 1 <= t <= 7
    ensures f.Shaped() && (f.hand[Idx(f.side)][t] == 0 ==> LegalDropsBelow(f, t) == LegalDropsBelow(f, t + 1))
  {
    hide Legal, Ready, Occupied, Between, DropAllowed, CheckersOf, Agrees;
    KingIsThere(f);
    if f.hand[Idx(f.side)][t] == 0 {
      forall m: Move
        ensures m in LegalDropsBelow(f, t) <==> m in LegalDropsBelow(f, t + 1)
      {
        if m.Drop? && m.kind == t {
          BlockingDrop(f, checker, t, m.to);
          assert m == Drop(t, m.to);
        }
      }
    }
  }

  lemma FirstKind(f: Full, checker: nat, want: iset<Move>)
    requires Ready(f) && CheckersOf(f) == {checker}
    ensures want + LegalDropsBelow(f, 1) == want && LegalDropsBelow(f, 8) == AllLegalDrops(f)
    ensures forall below: nat | below <= 8 :: want + LegalDropsBelow(f, below) + AllLegalDrops(f) == want + AllLegalDrops(f)
  {
    hide Legal, Ready, Occupied, Between, DropAllowed, CheckersOf, Agrees;
    KingIsThere(f);
    forall m: Move | m.Drop? && Legal(f, m)
      ensures 1 <= m.kind <= 7
    {
      BlockingDrop(f, checker, m.kind, m.to);
      assert m == Drop(m.kind, m.to);
    }
  }

  lemma BaseOnBoard(f: Full, checker: nat)
    requires Ready(f)
    ensures Agrees(f) && forall s | s in Between(f.kingSq[Idx(f.side)], checker) - Occupied(f) :: s < SQUARE_NB
  {
    hide Between, Ready, Agrees, Occupied;
    KingIsThere(f);
    BetweenOnBoard(f.kingSq[Idx(f.side)], checker);
  }

  /** Every drop that interposes against the only check. */
  method DropEvasions(b: ShogiBoard, checker: nat, pinned: set<nat>, one: bool, moves: seq<Move>, ghost want: iset<Move>)
    returns (moves': seq<Move>)
    requires ReadyBoard(b) && CheckersOf(b.State()) == {checker} && IsPinnedSet(b.State(), pinned)
    requires Collects(moves, want, one) && (one ==> moves == []) && forall m: Move | m in want :: m.BoardMove?
    modifies b, b.board
    ensures b.State() == old(b.State()) && Collects(moves', want + AllLegalDrops(old(b.State())), one)
    decreases Empties(b.board[..]), 3
  {
    var f := Fields(b);
    hide *;
    ReadyHere(b, f);
    KingIsThere(f);
    BaseOnBoard(f, checker);
    var base := Between(f.kingSq[Idx(f.side)], checker) - Occupied(f);
    FirstKind(f, checker, want);
    moves' := moves;
    var t: nat := 1;
    while t <= 7
      invariant 1 <= t <= 8 && b.State() == f && ReadyBoard(b)
      invariant Collects(moves', want + LegalDropsBelow(f, t), one) && (one ==> moves' == [])
    {
      KindMissing(f, checker, t);
      if f.hand[Idx(f.side)][t] > 0 {
        var targets := DropTargets(f, t, base);
        KindDone(f, checker, t, base, targets, want);
        ReadyHere(b, f);
        moves' := DropKind(b, checker, pinned, t, targets, one, moves', want + LegalDropsBelow(f, t));
        ReadyHere(b, f);
        if one && moves' != [] {
          OneIsEnough(moves', want + LegalDropsBelow(f, t + 1), AllLegalDrops(f));
          return;
        }
      }
      t := t + 1;
    }
  }

  // ----- all evasions -----

  lemma Partition(f: Full)
    requires Ready(f)
    ensures AllKingMoves(f) + AllOtherMoves(f) + AllLegalDrops(f) == AllLegal(f)
    ensures AllKingMoves(f) + AllLegal(f) == AllLegal(f) && AllKingMoves(f) + AllOtherMoves(f) + AllLegal(f) == AllLegal(f)
    ensures OnlyKingMoves(f, AllKingMoves(f)) && forall m: Move | m in AllKingMoves(f) + AllOtherMoves(f) :: m.BoardMove?
  {
    hide Legal, Ready;
  }

  /** Only the king can answer a double check. */
  lemma {:induction false} DoubleCheckMovesKing(f: Full)
    requires Ready(f) && |CheckersOf(f)| > 1
    ensures AllKingMoves(f) == AllLegal(f)
  {
    hide Ready, CheckersOf, Legal, Agrees;
    KingIsThere(f);
    forall m: Move | Legal(f, m)
      ensures m.BoardMove? && m.from == f.kingSq[Idx(f.side)]
    {
      OnlyTheKing(f, m);
    }
  }

  lemma OnlyTheKing(f: Full, m: Move)
    requires Ready(f) && |CheckersOf(f)| > 1 && Legal(f, m)
    ensures m.BoardMove? && m.from == f.kingSq[Idx(f.side)]
  {
    LegalMeans(f, m);
    hide *;
    DoubleCheck(f, m.to);
    if m.Drop? {
      DropSafety(f, m);
    } else if m.from != f.kingSq[Idx(f.side)] {
      BoardMoveSafety(f, m);
    }
  }

  lemma LegalMeans(f: Full, m: Move)
    requires Ready(f) && Legal(f, m)
    ensures PseudoLegal(f, m) && CanMake(f, m)
    ensures After(f, m).Shaped() && After(f, m).kingSq[Idx(f.side)] < SQUARE_NB && !InCheck(After(f, m), f.side)
  {
    KingIsThere(f);
    hide Ready, PseudoLegal, CanMake, Made, InCheck, Mated, DropsPawnWithCheck;
    PseudoIsMakeable(f, m);
    KeepsShape(f, m);
  }

  lemma NoneIsMated(f: Full, moves: seq<Move>)
    requires Ready(f) && Collects(moves, AllLegal(f), true)
    ensures moves == [] <==> Mated(f)
  {
    hide Legal, Ready;
    if moves != [] {
      assert moves[0] in moves;
    } else {
      forall m: Move
        ensures !Legal(f, m)
      {
        assert m !in AllLegal(f);
      }
    }
  }

  method PinnedPieces(f: Full) returns (pinned: set<nat>)
    requires Ready(f)
    ensures IsPinnedSet(f, pinned)
  {
    KingIsThere(f);
    hide BlocksKing, Ready, Agrees;
    var blockers := ComputeBlockersForKing(f, f.side);
    pinned := blockers * f.byColor[Idx(f.side)];
  }

  /** The legal answers to a check, all of them or just one. */
  method GenerateEvasionMovesImpl(b: ShogiBoard, one: bool) returns (moves: seq<Move>)
    requires ReadyBoard(b) && InCheck(b.State(), b.State().side)
    modifies b, b.board
    ensures b.State() == old(b.State()) && Collects(moves, AllLegal(old(b.State())), one)
    decreases Empties(b.board[..]), 4
  {
    var f := Fields(b);
    hide *;
    ReadyHere(b, f);
    KingIsThere(f);
    Partition(f);
    moves := KingEvasions(f, one);
    if one && moves != [] {
      OneIsEnough(moves, AllKingMoves(f), AllLegal(f));
      return;
    }
    var checkers := AttackersTo(f, f.kingSq[Idx(f.side)], Occupied(f), f.side.Other());
    CheckersNamed(f);
    if |checkers| > 1 {
      DoubleCheckMovesKing(f);
      return;
    }
    InCheckHasCheckers(f);
    var checker := Peek(checkers);
    OneElement(checkers, checker);
    var pinned := PinnedPieces(f);
    moves := BoardEvasions(f, checker, pinned, one, moves, AllKingMoves(f));
    if one && moves != [] {
      OneIsEnough(moves, AllKingMoves(f) + AllOtherMoves(f), AllLegal(f));
      return;
    }
    moves := DropEvasions(b, checker, pinned, one, moves, AllKingMoves(f) + AllOtherMoves(f));
  }

  lemma CheckersNamed(f: Full)
    requires f.Shaped() && f.kingSq[Idx(f.side)] < SQUARE_NB
    ensures AttackersTo(f, f.kingSq[Idx(f.side)], Occupied(f), f.side.Other()) == CheckersOf(f)
  {
    hide AttackersTo, Occupied;
  }

  lemma OneElement(s: set<nat>, x: nat)
    requires x in s && |s| <= 1
    ensures s == {x}
  {
    OnlyElement(s, x);
  }

  /** Whether a check can be answered at all. */
  method HasLegalEvasion(b: ShogiBoard) returns (r: bool)
    requires ReadyBoard(b) && InCheck(b.State(), b.State().side)
    modifies b, b.board
    ensures b.State() == old(b.State()) && (r <==> !Mated(old(b.State())))
    decreases Empties(b.board[..]), 5
  {
    ghost var f := b.State();
    hide *;
    ReadyHere(b, f);
    var moves := GenerateEvasionMovesImpl(b, true);
    NoneIsMated(f, moves);
    r := moves != [];
  }

  // ----- all legal moves -----

  ghost function LegalDropsAmong(f: Full, drops: seq<Move>): iset<Move>
    requires Ready(f)
  {
    iset m: Move | m.Drop? && m in drops && Legal(f, m)
  }

  /** Drops the pawn drops that mate from the list. */
  method FilterDrops(b: ShogiBoard, drops: seq<Move>, moves: seq<Move>, ghost want: iset<Move>) returns (moves': seq<Move>)
    requires ReadyBoard(b) && !InCheck(b.State(), b.State().side)
    requires Lists(drops, AllPseudoDrops(b.State()))
    requires Lists(moves, want) && forall m: Move | m in want :: m.BoardMove?
    modifies b, b.board
    ensures b.State() == old(b.State()) && Lists(moves', want + AllLegalDrops(old(b.State())))
  {
    var f := Fields(b);
    hide *;
    ReadyHere(b, f);
    moves' := moves;
    var i := 0;
    NoDropsYet(f, want);
    assert drops[..i] == [];
    while i < |drops|
      invariant 0 <= i <= |drops| && b.State() == f && ReadyBoard(b)
      invariant Lists(moves', want + LegalDropsAmong(f, drops[..i]))
    {
      var m := drops[i];
      ListedDrop(f, drops, i);
      NoChecksToMeet(f, m.to);
      DropIsLegal(f, m);
      DropCheckIs(f, m);
      var mate := false;
      if m.kind == PAWN && f.kingSq[Idx(f.side.Other())] in StepSet(m.to, PawnSteps(f.side)) {
        mate := MatesByDrop(b, m);
        ReadyHere(b, f);
      }
      OneMoreDrop(f, drops, i, !mate, want);
      if !mate {
        PushLists(moves', want + LegalDropsAmong(f, drops[..i]), m);
        moves' := moves' + [m];
      }
      i := i + 1;
    }
    assert drops[..i] == drops;
    AllDropsListed(f, drops);
  }

  lemma NoDropsYet(f: Full, want: iset<Move>)
    requires Ready(f)
    ensures want + LegalDropsAmong(f, []) == want
  {
  }

  lemma ListedDrop(f: Full, drops: seq<Move>, i: nat)
    requires Ready(f) && i < |drops| && Lists(drops, AllPseudoDrops(f))
    ensures drops[i].Drop? && PseudoLegal(f, drops[i]) && drops[i] !in drops[..i] && Agrees(f)
  {
    hide PseudoLegal, Agrees;
    assert drops[i] in drops;
  }

  lemma OneMoreDrop(f: Full, drops: seq<Move>, i: nat, ok: bool, want: iset<Move>)
    requires Ready(f) && i < |drops| && drops[i].Drop? && drops[i] !in drops[..i] && (ok <==> Legal(f, drops[i]))
    requires forall m: Move | m in want :: m.BoardMove?
    ensures var found := want + LegalDropsAmong(f, drops[..i]);
            && drops[i] !in found
            && want + LegalDropsAmong(f, drops[..i + 1]) == if ok then found + iset{drops[i]} else found
  {
    hide Legal, Ready;
    assert drops[..i + 1] == drops[..i] + [drops[i]];
  }

  lemma AllDropsListed(f: Full, drops: seq<Move>)
    requires Ready(f) && Lists(drops, AllPseudoDrops(f))
    ensures LegalDropsAmong(f, drops) == AllLegalDrops(f)
  {
    hide PseudoLegal, Mated, InCheck;
  }

  lemma BoardAndDrops(f: Full)
    requires Ready(f)
    ensures AllBoardMoves(f) + AllLegalDrops(f) == AllLegal(f) && forall m: Move | m in AllBoardMoves(f) :: m.BoardMove?
  {
    hide Legal, Ready;
  }

  /** All legal moves of the side to move, each once. */
  method GenerateLegalMoves(b: ShogiBoard) returns (moves: seq<Move>)
    requires ReadyBoard(b)
    modifies b, b.board
    ensures b.State() == old(b.State()) && Lists(moves, AllLegal(old(b.State())))
  {
    var f := Fields(b);
    hide *;
    ReadyHere(b, f);
    var inCheck := TestInCheck(f);
    if !inCheck {
      KingIsThere(f);
      var pinned := PinnedPieces(f);
      moves := GenerateBoardMovesNonCheck(f, pinned);
      var drops := GenerateDropMoves(f);
      BoardAndDrops(f);
      moves := FilterDrops(b, drops, moves, AllBoardMoves(f));
      return;
    }
    moves := GenerateEvasionMovesImpl(b, false);
    AllCollected(moves, AllLegal(f));
  }

  lemma AllCollected(moves: seq<Move>, want: iset<Move>)
    requires Collects(moves, want, false)
    ensures Lists(moves, want)
  {
  }

  method TestInCheck(f: Full) returns (r: bool)
    requires Ready(f)
    ensures r <==> InCheck(f, f.side)
  {
    KingIsThere(f);
    OccupiedOnBoard(f);
    hide IsAttacker, Ready, Agrees, Occupied, IsSquareAttacked;
    r := IsSquareAttacked(f, f.kingSq[Idx(f.side)], Occupied(f), f.side.Other());
  }
}
