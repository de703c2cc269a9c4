/** Answers to a check, and all legal moves: on a board object, with moves made and taken back
    where a dropped pawn might give mate. */
module Evasions {
  import opened Shogi
  import opened Geometry
  import opened BoardState
  import opened Attacks
  import opened Legality
  import opened MoveGen

  // ----- which evasions are legal -----

  ghost function AllLegal(f: Full): iset<Move>
    requires Ready(f)
  {
    iset m: Move | Legal(f, m)
  }

  function CheckersOf(f: Full): set<nat>
    requires f.Shaped() && f.kingSq[Idx(f.side)] < SQUARE_NB
  {
    AttackersTo(f, f.kingSq[Idx(f.side)], Occupied(f), f.side.Other())
  }

  lemma CheckersAre(f: Full, p: nat)
    requires Ready(f)
    ensures p in CheckersOf(f) <==> IsAttacker(f.board, f.side.Other(), p, f.kingSq[Idx(f.side)], Occupied(f))
  {
    OccupiedOnBoard(f);
    AttackersAre(f, f.kingSq[Idx(f.side)], Occupied(f), f.side.Other(), p);
  }

  lemma InCheckHasCheckers(f: Full)
    requires Ready(f)
    ensures InCheck(f, f.side) <==> CheckersOf(f) != {}
  {
    hide IsAttacker, Occupied, Ready, CheckersOf, Agrees;
    KingIsThere(f);
    if CheckersOf(f) != {} {
      var p :| p in CheckersOf(f);
      CheckersAre(f, p);
    }
    if InCheck(f, f.side) {
      var p: nat :| IsAttacker(f.board, f.side.Other(), p, f.kingSq[Idx(f.side)], Occupied(f));
      CheckersAre(f, p);
    }
  }

  /** The only check is met by capturing the checker or stepping in between. */
  lemma SingleCheck(f: Full, checker: nat, to: nat)
    requires Ready(f) && CheckersOf(f) == {checker} && to < SQUARE_NB
    ensures MeetsChecks(f, to) <==> to in Between(f.kingSq[Idx(f.side)], checker) + {checker}
  {
    hide *;
    KingIsThere(f);
    forall p: nat
      ensures IsAttacker(f.board, f.side.Other(), p, f.kingSq[Idx(f.side)], Occupied(f)) <==> p == checker
    {
      CheckersAre(f, p);
    }
    MeetsOneCheck(f, checker, to);
    InBetween(f.kingSq[Idx(f.side)], checker, to);
  }

  lemma InBetween(k: nat, checker: nat, to: nat)
    requires to < SQUARE_NB
    ensures to in Between(k, checker) <==> IsBetween(k, to, checker)
    ensures Meets(k, to, checker) <==> to == checker || IsBetween(k, to, checker)
  {
    hide IsBetween;
  }

  lemma MeetsOneCheck(f: Full, checker: nat, to: nat)
    requires f.Shaped() && f.kingSq[Idx(f.side)] < SQUARE_NB
    requires forall p: nat :: IsAttacker(f.board, f.side.Other(), p, f.kingSq[Idx(f.side)], Occupied(f)) <==> p == checker
    ensures MeetsChecks(f, to) <==> Meets(f.kingSq[Idx(f.side)], to, checker)
  {
    hide IsAttacker, Occupied, Meets;
  }

  lemma DoubleCheck(f: Full, to: nat)
    requires Ready(f) && |CheckersOf(f)| > 1
    ensures !MeetsChecks(f, to)
  {
    hide *;
    KingIsThere(f);
    var p, q := TwoElements(CheckersOf(f));
    CheckersAre(f, p);
    CheckersAre(f, q);
    TwoChecksCannotBeMet(f, to, p, q);
  }

  lemma TwoElements(s: set<nat>) returns (p: nat, q: nat)
    requires |s| > 1
    ensures p in s && q in s && p != q
  {
    p :| p in s;
    assert |s - {p}| > 0;
    q :| q in s - {p};
  }

  lemma KingIsThere(f: Full)
    requires Ready(f)
    ensures f.Shaped() && f.kingSq[Idx(f.side)] < SQUARE_NB && f.board[f.kingSq[Idx(f.side)]] == Piece(f.side, KING) && Agrees(f)
  {
  }

  // ----- the king steps away -----

  ghost function AllKingMoves(f: Full): iset<Move>
    requires Ready(f)
  {
    iset m: Move | m.BoardMove? && m.from == f.kingSq[Idx(f.side)] && Legal(f, m)
  }

  ghost function KingMoves(f: Full, tos: set<nat>): iset<Move>
    requires Ready(f)
  {
    iset m: Move | m.BoardMove? && m.from == f.kingSq[Idx(f.side)] && m.to in tos && Legal(f, m)
  }

  lemma KingMoveIsLegal(f: Full, m: Move)
    requires Ready(f) && m.BoardMove? && m.from == f.kingSq[Idx(f.side)]
    ensures Legal(f, m) <==> m.to in StepSet(m.from, KingSteps()) - f.byColor[Idx(f.side)] && !m.promotion && KingSafeOn(f, m.to)
  {
    hide IsAttacker, Occupied, Ready, Made, CanMake;
    KingIsThere(f);
    if PseudoLegal(f, m) {
      PseudoIsMakeable(f, m);
      KingMoveSafety(f, m);
    }
  }

  /** The king's own evasions; with `one`, the first found ends the search. */
  method KingEvasions(f: Full, one: bool) returns (moves: seq<Move>)
    requires Ready(f)
    ensures Collects(moves, AllKingMoves(f), one)
  {
    hide *;
    KingIsThere(f);
    var k := f.kingSq[Idx(f.side)];
    var targets := StepSet(k, KingSteps()) - f.byColor[Idx(f.side)];
    StepsOnBoard(k, KingSteps());
    KingMovesAreAll(f, targets);
    moves := [];
    NothingYet(one);
    var rest := targets;
    NoKingMoves(f, targets - rest);
    while rest != {}
      invariant rest <= targets && Collects(moves, KingMoves(f, targets - rest), one) && (one ==> moves == [])
      decreases |rest|
    {
      var to := Peek(rest);
      var ok := TestKingTarget(f, to);
      NextKingMove(f, targets, rest, to, ok);
      if ok {
        PushCollects(moves, KingMoves(f, targets - rest), BoardMove(k, to, false), one);
        moves := moves + [BoardMove(k, to, false)];
        if one {
          KingMovesGrow(f, targets - (rest - {to}), targets);
          OneIsEnough(moves, KingMoves(f, targets - (rest - {to})), AllKingMoves(f));
          return;
        }
      }
      rest := rest - {to};
    }
    assert targets - rest == targets;
  }

  lemma StepsOnBoard(a: nat, deltas: set<(int, int)>)
    ensures forall s | s in StepSet(a, deltas) :: s < SQUARE_NB
  {
  }

  lemma NoKingMoves(f: Full, tos: set<nat>)
    requires Ready(f) && tos == {}
    ensures KingMoves(f, tos) == iset{}
  {
  }

  lemma KingMovesAreAll(f: Full, targets: set<nat>)
    requires Ready(f) && targets == StepSet(f.kingSq[Idx(f.side)], KingSteps()) - f.byColor[Idx(f.side)]
    ensures KingMoves(f, targets) == AllKingMoves(f)
  {
    hide Legal, StepSet, KingSteps;
    forall m: Move | m.BoardMove? && m.from == f.kingSq[Idx(f.side)] && Legal(f, m)
      ensures m.to in targets
    {
      KingMoveIsLegal(f, m);
    }
  }

  lemma KingMovesGrow(f: Full, some: set<nat>, targets: set<nat>)
    requires Ready(f) && some <= targets
    ensures KingMoves(f, some) + KingMoves(f, targets) == KingMoves(f, targets)
  {
    hide Legal;
  }

  lemma NextKingMove(f: Full, targets: set<nat>, rest: set<nat>, to: nat, ok: bool)
    requires Ready(f) && targets == StepSet(f.kingSq[Idx(f.side)], KingSteps()) - f.byColor[Idx(f.side)]
    requires rest <= targets && to in rest && (ok <==> KingSafeOn(f, to))
    ensures var m := BoardMove(f.kingSq[Idx(f.side)], to, false);
            && m !in KingMoves(f, targets - rest)
            && KingMoves(f, targets - (rest - {to})) == if ok then KingMoves(f, targets - rest) + iset{m} else KingMoves(f, targets - rest)
  {
    hide Legal, StepSet, KingSteps, KingSafeOn, Ready;
    KingIsThere(f);
    var k := f.kingSq[Idx(f.side)];
    KingMoveIsLegal(f, BoardMove(k, to, false));
    KingMoveIsLegal(f, BoardMove(k, to, true));
    forall m: Move
      ensures m in KingMoves(f, targets - (rest - {to})) <==> m in KingMoves(f, targets - rest) + if ok then iset{BoardMove(k, to, false)} else iset{}
    {
      if m.BoardMove? && m.from == k && m.to == to {
        assert m == BoardMove(k, to, false) || m == BoardMove(k, to, true);
      }
    }
  }

  // ----- another piece captures or interposes -----

  ghost function AllOtherMoves(f: Full): iset<Move>
    requires Ready(f)
  {
    iset m: Move | m.BoardMove? && m.from != f.kingSq[Idx(f.side)] && Legal(f, m)
  }

  ghost function OtherMoves(f: Full, tos: set<nat>): iset<Move>
    requires Ready(f)
  {
    iset m: Move | m.BoardMove? && m.from != f.kingSq[Idx(f.side)] && m.to in tos && Legal(f, m)
  }

  ghost function OtherMovesFrom(f: Full, froms: set<nat>, to: nat): iset<Move>
    requires Ready(f)
  {
    iset m: Move | m.BoardMove? && m.from in froms && m.from != f.kingSq[Idx(f.side)] && m.to == to && Legal(f, m)
  }

  /** The piece attacks a target square, and unless pinned off its line may go there. */
  ghost predicate Answers(f: Full, checker: nat, pinned: set<nat>, m: Move)
    requires Ready(f) && m.BoardMove?
  {
    var k := f.kingSq[Idx(f.side)];
    && m.to < SQUARE_NB && m.to in Between(k, checker) + {checker}
    && m.from in AttackersTo(f, m.to, Occupied(f), f.side) && (m.from in pinned ==> m.to in Line(m.from, k))
    && m.from < |f.board| && f.board[m.from].Piece? && Variant(f.board[m.from].kind, f.side, m.from, m.to, m.promotion)
  }

  /** Under a single check, the legal moves of the other pieces are the answers. */
  lemma {:induction false} OtherEvasionIsLegal(f: Full, checker: nat, pinned: set<nat>, m: Move)
    requires Ready(f) && CheckersOf(f) == {checker} && IsPinnedSet(f, pinned)
    requires m.BoardMove? && m.from != f.kingSq[Idx(f.side)]
    ensures Legal(f, m) <==> Answers(f, checker, pinned, m)
  {
    KingIsThere(f);
    if m.to < SQUARE_NB && m.to in Between(f.kingSq[Idx(f.side)], checker) + {checker} {
      AnswerIsPseudo(f, checker, pinned, m);
      if PseudoLegal(f, m) {
        PseudoMoveIsLegal(f, checker, pinned, m);
        hide *;
      }
    } else if Legal(f, m) {
      PseudoIsMakeable(f, m);
      BoardMoveSafety(f, m);
      hide *;
      SingleCheck(f, checker, m.to);
      assert false;
    }
  }

  lemma AnswerIsPseudo(f: Full, checker: nat, pinned: set<nat>, m: Move)
    requires Ready(f) && CheckersOf(f) == {checker} && m.BoardMove? && m.to < SQUARE_NB
    requires m.to in Between(f.kingSq[Idx(f.side)], checker) + {checker}
    ensures PseudoLegal(f, m) <==> m.from in AttackersTo(f, m.to, Occupied(f), f.side) && m.from < |f.board| && f.board[m.from].Piece?
                                   && Variant(f.board[m.from].kind, f.side, m.from, m.to, m.promotion)
  {
    hide AttackersTo, PieceAttacks, Occupied, Agrees, Ready, CheckersOf, Between, MayPromote, MustPromote;
    KingIsThere(f);
    OccupiedOnBoard(f);
    AttackersAre(f, m.to, Occupied(f), f.side, m.from);
    TargetIsNotOurs(f, checker, m.to);
  }

  lemma PseudoMoveIsLegal(f: Full, checker: nat, pinned: set<nat>, m: Move)
    requires Ready(f) && CheckersOf(f) == {checker} && IsPinnedSet(f, pinned) && m.to < SQUARE_NB
    requires m.BoardMove? && m.from != f.kingSq[Idx(f.side)] && PseudoLegal(f, m)
    ensures Legal(f, m) <==> m.to in Between(f.kingSq[Idx(f.side)], checker) + {checker} && (m.from in pinned ==> m.to in Line(m.from, f.kingSq[Idx(f.side)]))
  {
    KingIsThere(f);
    PseudoIsMakeable(f, m);
    BoardMoveSafety(f, m);
    OwnAreOurs(f, m.from);
    BoardMoveIsLegal(f, m);
    assert m.from in f.byColor[Idx(f.side)];
    hide *;
    SingleCheck(f, checker, m.to);
    LineHolds(m.from, m.to, f.kingSq[Idx(f.side)]);
    KeepsLineIs(f, pinned, m.from, m.to);
  }

  lemma BoardMoveIsLegal(f: Full, m: Move)
    requires Ready(f) && PseudoLegal(f, m) && m.BoardMove? && CanMake(f, m)
    requires After(f, m).Shaped() && After(f, m).kingSq[Idx(f.side)] < SQUARE_NB
    ensures Legal(f, m) <==> !InCheck(After(f, m), f.side)
  {
    hide PseudoLegal, CanMake, Made, InCheck, Agrees;
  }

  lemma CheckerOnBoard(f: Full, checker: nat)
    requires Ready(f) && CheckersOf(f) == {checker}
    ensures checker < SQUARE_NB && f.board[checker].Piece? && f.board[checker].color == f.side.Other()
    ensures Clear(f.kingSq[Idx(f.side)], checker, Occupied(f))
  {
    KingIsThere(f);
    var k := f.kingSq[Idx(f.side)];
    OccupiedOnBoard(f);
    CheckersAre(f, checker);
    AttackerHits(f.board, f.side.Other(), checker, k, Occupied(f));
    ClearBack(checker, k, Occupied(f));
    hide *;
    assert checker in CheckersOf(f);
    HitsMeans(f.board, f.side.Other(), checker, k, Occupied(f));
  }

  lemma HitsMeans(board: seq<Piece>, c: Color, p: nat, sq: nat, occ: set<nat>)
    requires Hits(board, c, p, sq, occ)
    ensures p < |board| && p < SQUARE_NB && board[p].Piece? && board[p].color == c && Clear(p, sq, occ)
  {
  }

  lemma TargetIsNotOurs(f: Full, checker: nat, to: nat)
    requires Ready(f) && CheckersOf(f) == {checker} && to in Between(f.kingSq[Idx(f.side)], checker) + {checker}
    ensures to !in f.byColor[Idx(f.side)]
    ensures to != checker ==> to !in Occupied(f)
  {
    hide IsBetween, CheckersOf, Ready, Agrees, Occupied;
    KingIsThere(f);
    CheckerOnBoard(f, checker);
    OwnAreOurs(f, to);
    OccupiedAre(f, to);
  }

  lemma KeepsLineIs(f: Full, pinned: set<nat>, from: nat, to: nat)
    requires Ready(f) && IsPinnedSet(f, pinned) && from in f.byColor[Idx(f.side)]
    ensures KeepsLine(f, from, to) <==> (from in pinned ==> OnLine(from, to, f.kingSq[Idx(f.side)]))
  {
    hide IsBlocker, Occupied, OnLine;
  }

  // The moves found so far never lead onto the next target.

  ghost predicate NoneOnto(f: Full, want: iset<Move>, to: nat)
    requires Ready(f)
  {
    forall m: Move | m in want && m.BoardMove? && m.from != f.kingSq[Idx(f.side)] :: m.to != to
  }

  ghost predicate OnlyKingMoves(f: Full, want: iset<Move>)
    requires Ready(f)
  {
    forall m: Move | m in want :: m.BoardMove? && m.from == f.kingSq[Idx(f.side)]
  }

  lemma NoOtherMoves(f: Full, want: iset<Move>, to: nat)
    requires Ready(f)
    ensures want + OtherMoves(f, {}) == want && want + OtherMovesFrom(f, {}, to) == want
  {
    hide Ready, Legal;
  }

  /** The moves onto one target square. */
  method EvasionsTo(f: Full, checker: nat, pinned: set<nat>, to: nat, one: bool, moves: seq<Move>, ghost want: iset<Move>)
    returns (moves': seq<Move>)
    requires Ready(f) && CheckersOf(f) == {checker} && IsPinnedSet(f, pinned)
    requires to < SQUARE_NB && to in Between(f.kingSq[Idx(f.side)], checker) + {checker}
    requires Collects(moves, want, one) && (one ==> moves == []) && NoneOnto(f, want, to)
    ensures Collects(moves', want + OtherMoves(f, {to}), one)
  {
    hide *;
    KingIsThere(f);
    var froms := AttackersTo(f, to, Occupied(f), f.side) - {f.kingSq[Idx(f.side)]};
    AttackersAreOurs(f, to);
    AllMovesTo(f, checker, pinned, to, froms);
    moves' := moves;
    var rest := froms;
    assert froms - rest == {};
    NoOtherMoves(f, want, to);
    while rest != {}
      invariant rest <= froms && Collects(moves', want + OtherMovesFrom(f, froms - rest, to), one) && (one ==> moves' == [])
      decreases |rest|
    {
      var from := Peek(rest);
      moves' := EvasionFromTo(f, checker, pinned, froms, rest, from, to, one, moves', want);
      if one && moves' != [] {
        OtherMovesGrow(f, want, froms - (rest - {from}), froms, to);
        OneIsEnough(moves', want + OtherMovesFrom(f, froms - (rest - {from}), to), OtherMovesFrom(f, froms, to));
        return;
      }
      rest := rest - {from};
    }
    assert froms - rest == froms;
  }

  /** The moves of one piece onto one target square, unless it is pinned off that line. */
  method EvasionFromTo(f: Full, checker: nat, pinned: set<nat>, ghost froms: set<nat>, ghost rest: set<nat>, from: nat, to: nat,
                       one: bool, moves: seq<Move>, ghost want: iset<Move>)
    returns (moves': seq<Move>)
    requires Ready(f) && CheckersOf(f) == {checker} && IsPinnedSet(f, pinned)
    requires to < SQUARE_NB && to in Between(f.kingSq[Idx(f.side)], checker) + {checker}
    requires froms == AttackersTo(f, to, Occupied(f), f.side) - {f.kingSq[Idx(f.side)]} && rest <= froms && from in rest
    requires from < |f.board| && f.board[from].Piece?
    requires Collects(moves, want + OtherMovesFrom(f, froms - rest, to), one) && (one ==> moves == []) && NoneOnto(f, want, to)
    ensures Collects(moves', want + OtherMovesFrom(f, froms - (rest - {from}), to), one)
  {
    hide *;
    KingIsThere(f);
    moves' := moves;
    NextOther(f, checker, pinned, froms, rest, from, to, want);
    if !(from in pinned && to !in Line(from, f.kingSq[Idx(f.side)])) {
      moves' := PushVariants(moves', f.board[from].kind, f.side, from, to, one, want + OtherMovesFrom(f, froms - rest, to));
    }
  }

  lemma AttackersAreOurs(f: Full, to: nat)
    requires Ready(f) && to < SQUARE_NB
    ensures forall from: nat | from in AttackersTo(f, to, Occupied(f), f.side) :: from < |f.board| && f.board[from].Piece?
  {
    KingIsThere(f);
    OccupiedOnBoard(f);
    hide AttackersTo, Occupied, Ready, Agrees;
    forall from: nat | from in AttackersTo(f, to, Occupied(f), f.side)
      ensures from < |f.board| && f.board[from].Piece?
    {
      AttackersAre(f, to, Occupied(f), f.side, from);
    }
  }

  lemma AnswerMeans(f: Full, checker: nat, pinned: set<nat>, m: Move)
    requires Ready(f) && CheckersOf(f) == {checker} && IsPinnedSet(f, pinned)
    requires m.BoardMove? && m.from != f.kingSq[Idx(f.side)]
    ensures Legal(f, m) ==> m.to < SQUARE_NB && m.to in Between(f.kingSq[Idx(f.side)], checker) + {checker}
    ensures Legal(f, m) ==> m.from in AttackersTo(f, m.to, Occupied(f), f.side)
  {
    hide Legal, AttackersTo, Occupied, CheckersOf, Between, Line, Variant, Ready, Agrees, IsPinnedSet;
    KingIsThere(f);
    OtherEvasionIsLegal(f, checker, pinned, m);
  }

  lemma AllMovesTo(f: Full, checker: nat, pinned: set<nat>, to: nat, froms: set<nat>)
    requires Ready(f) && CheckersOf(f) == {checker} && IsPinnedSet(f, pinned) && to < SQUARE_NB
    requires froms == AttackersTo(f, to, Occupied(f), f.side) - {f.kingSq[Idx(f.side)]}
    ensures OtherMovesFrom(f, froms, to) == OtherMoves(f, {to})
  {
    hide Legal, AttackersTo, Occupied, CheckersOf, Between, Ready, Agrees, IsPinnedSet;
    KingIsThere(f);
    forall m: Move | m.BoardMove? && m.from != f.kingSq[Idx(f.side)] && m.to == to && Legal(f, m)
      ensures m.from in froms
    {
      AnswerMeans(f, checker, pinned, m);
    }
  }

  lemma OtherMovesGrow(f: Full, want: iset<Move>, some: set<nat>, froms: set<nat>, to: nat)
    requires Ready(f) && some <= froms
    ensures want + OtherMovesFrom(f, some, to) + OtherMovesFrom(f, froms, to) == want + OtherMovesFrom(f, froms, to)
  {
    hide Legal, Ready;
  }

  lemma NextOther(f: Full, checker: nat, pinned: set<nat>, froms: set<nat>, rest: set<nat>, from: nat, to: nat, want: iset<Move>)
    requires Ready(f) && CheckersOf(f) == {checker} && IsPinnedSet(f, pinned)
    requires to < SQUARE_NB && to in Between(f.kingSq[Idx(f.side)], checker) + {checker}
    requires froms == AttackersTo(f, to, Occupied(f), f.side) - {f.kingSq[Idx(f.side)]} && rest <= froms && from in rest
    requires from < |f.board| && f.board[from].Piece? && NoneOnto(f, want, to)
    ensures var found := want + OtherMovesFrom(f, froms - rest, to);
            want + OtherMovesFrom(f, froms - (rest - {from}), to) ==
              if from in pinned && to !in Line(from, f.kingSq[Idx(f.side)]) then found else found + MovesTo(f.board[from].kind, f.side, from, {to})
    ensures forall m: Move | m in want + OtherMovesFrom(f, froms - rest, to) :: m.BoardMove? && m.from == from ==> m.to != to
  {
    hide Legal, AttackersTo, Occupied, CheckersOf, Between, Line, Variant, Ready, Agrees, IsPinnedSet, MovesTo;
    KingIsThere(f);
    OneFromTo(f, checker, pinned, from, to);
    assert froms - (rest - {from}) == (froms - rest) + {from};
    assert OtherMovesFrom(f, (froms - rest) + {from}, to) == OtherMovesFrom(f, froms - rest, to) + OtherMovesFrom(f, {from}, to);
  }

  lemma OneFromTo(f: Full, checker: nat, pinned: set<nat>, from: nat, to: nat)
    requires Ready(f) && CheckersOf(f) == {checker} && IsPinnedSet(f, pinned)
    requires to < SQUARE_NB && to in Between(f.kingSq[Idx(f.side)], checker) + {checker}
    requires from in AttackersTo(f, to, Occupied(f), f.side) && from != f.kingSq[Idx(f.side)] && from < |f.board| && f.board[from].Piece?
    ensures OtherMovesFrom(f, {from}, to) ==
              if from in pinned && to !in Line(from, f.kingSq[Idx(f.side)]) then iset{} else MovesTo(f.board[from].kind, f.side, from, {to})
  {
    hide Legal, AttackersTo, Occupied, CheckersOf, Between, Line, Variant, Ready, Agrees, IsPinnedSet;
    KingIsThere(f);
    forall m: Move | m.BoardMove? && m.from == from && m.to == to
      ensures Legal(f, m) <==> (from in pinned ==> to in Line(from, f.kingSq[Idx(f.side)])) && Variant(f.board[from].kind, f.side, from, to, m.promotion)
    {
      OtherEvasionIsLegal(f, checker, pinned, m);
    }
  }

  /** Captures of the checker and interpositions. */
  method BoardEvasions(f: Full, checker: nat, pinned: set<nat>, one: bool, moves: seq<Move>, ghost want: iset<Move>)
    returns (moves': seq<Move>)
    requires Ready(f) && CheckersOf(f) == {checker} && IsPinnedSet(f, pinned)
    requires Collects(moves, want, one) && (one ==> moves == []) && OnlyKingMoves(f, want)
    ensures Collects(moves', want + AllOtherMoves(f), one)
  {
    hide *;
    KingIsThere(f);
    var targets := Between(f.kingSq[Idx(f.side)], checker) + {checker};
    TargetsSuffice(f, checker, pinned, targets);
    moves' := moves;
    var rest := targets;
    assert targets - rest == {};
    NoOtherMoves(f, want, 0);
    while rest != {}
      invariant rest <= targets && Collects(moves', want + OtherMoves(f, targets - rest), one) && (one ==> moves' == [])
      decreases |rest|
    {
      var to := Peek(rest);
      NextTarget(f, want, targets, rest, to);
      moves' := EvasionsTo(f, checker, pinned, to, one, moves', want + OtherMoves(f, targets - rest));
      if one && moves' != [] {
        TargetsGrow(f, want, targets - (rest - {to}), targets);
        OneIsEnough(moves', want + OtherMoves(f, targets - (rest - {to})), OtherMoves(f, targets));
        return;
      }
      rest := rest - {to};
    }
    assert targets - rest == targets;
  }

  lemma TargetsSuffice(f: Full, checker: nat, pinned: set<nat>, targets: set<nat>)
    requires Ready(f) && CheckersOf(f) == {checker} && IsPinnedSet(f, pinned)
    requires targets == Between(f.kingSq[Idx(f.side)], checker) + {checker}
    ensures OtherMoves(f, targets) == AllOtherMoves(f) && forall to | to in targets :: to < SQUARE_NB
  {
    hide Legal, AttackersTo, Occupied, CheckersOf, Between, Ready, Agrees, IsPinnedSet;
    KingIsThere(f);
    CheckerOnBoard(f, checker);
    BetweenOnBoard(f.kingSq[Idx(f.side)], checker);
    forall m: Move | m.BoardMove? && m.from != f.kingSq[Idx(f.side)] && Legal(f, m)
      ensures m.to in targets
    {
      AnswerMeans(f, checker, pinned, m);
    }
  }

  lemma BetweenOnBoard(a: nat, b: nat)
    ensures forall s | s in Between(a, b) :: s < SQUARE_NB
  {
    hide IsBetween;
  }

  lemma NextTarget(f: Full, want: iset<Move>, targets: set<nat>, rest: set<nat>, to: nat)
    requires Ready(f) && rest <= targets && to in rest && OnlyKingMoves(f, want)
    ensures want + OtherMoves(f, targets - rest) + OtherMoves(f, {to}) == want + OtherMoves(f, targets - (rest - {to}))
    ensures NoneOnto(f, want + OtherMoves(f, targets - rest), to)
  {
    hide Legal, Ready;
  }

  lemma TargetsGrow(f: Full, want: iset<Move>, some: set<nat>, targets: set<nat>)
    requires Ready(f) && some <= targets
    ensures want + OtherMoves(f, some) + OtherMoves(f, targets) == want + OtherMoves(f, targets)
  {
    hide Legal, Ready;
  }
}
