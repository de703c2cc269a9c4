/** The move generators of a side that is not in check: blockers of its king, board moves filtered
    by them, and drops. */
module MoveGen {
  import opened Shogi
  import opened Qugiy
  import opened Geometry
  import opened BoardState
  import opened Attacks
  import opened Legality

  // ----- lists of moves -----

  /** The list holds exactly these moves, each once. */
  ghost predicate Lists(moves: seq<Move>, want: iset<Move>) {
    && (forall m: Move :: m in moves <==> m in want)
    && (forall i: nat, j: nat | i < j < |moves| :: moves[i] != moves[j])
  }

  /** All moves, or when one is enough, one of them if there is any. */
  ghost predicate Collects(moves: seq<Move>, want: iset<Move>, one: bool) {
    if one then |moves| <= 1 && (forall m: Move | m in moves :: m in want) && (moves == [] ==> want == iset{})
    else Lists(moves, want)
  }

  lemma PushLists(moves: seq<Move>, want: iset<Move>, m: Move)
    requires Lists(moves, want) && m !in want
    ensures Lists(moves + [m], want + iset{m})
  {
    forall x: Move
      ensures x in moves + [m] <==> x in want + iset{m}
    {
      assert x in moves + [m] <==> x in moves || x == m;
    }
  }

  lemma PushCollects(moves: seq<Move>, want: iset<Move>, m: Move, one: bool)
    requires Collects(moves, want, one) && m !in want && (one ==> moves == [])
    ensures Collects(moves + [m], want + iset{m}, one)
  {
    if !one {
      PushLists(moves, want, m);
    }
  }

  /** Having found one move, nothing more is asked. */
  lemma OneIsEnough(moves: seq<Move>, want: iset<Move>, more: iset<Move>)
    requires Collects(moves, want, true) && moves != []
    ensures Collects(moves, want + more, true)
  {
  }

  lemma NothingYet(one: bool)
    ensures Collects([], iset{}, one)
  {
  }

  // ----- both variants of a board move -----

  predicate Variant(t: PieceType, us: Color, from: nat, to: nat, promotion: bool) {
    if promotion then MayPromote(t, us, from, to) else !MustPromote(t, us, to)
  }

  ghost function MovesTo(t: PieceType, us: Color, from: nat, targets: set<nat>): iset<Move> {
    iset m: Move | m.BoardMove? && m.from == from && m.to in targets && Variant(t, us, from, m.to, m.promotion)
  }

  /** The promotion if possible, then the plain move if allowed. */
  method PushVariants(moves: seq<Move>, t: PieceType, us: Color, from: nat, to: nat, one: bool, ghost want: iset<Move>)
    returns (moves': seq<Move>)
    requires Collects(moves, want, one) && (one ==> moves == [])
    requires forall m: Move | m in want :: m.BoardMove? && m.from == from ==> m.to != to
    ensures Collects(moves', want + MovesTo(t, us, from, {to}), one)
  {
    hide Collects, MayPromote, MustPromote;
    moves' := moves;
    ghost var found := want;
    ghost var all := want + MovesTo(t, us, from, {to});
    if MayPromote(t, us, from, to) {
      PushCollects(moves', found, BoardMove(from, to, true), one);
      moves' := moves' + [BoardMove(from, to, true)];
      found := found + iset{BoardMove(from, to, true)};
      if one {
        assert found + all == all;
        OneIsEnough(moves', found, all);
        return;
      }
    }
    if !MustPromote(t, us, to) {
      PushCollects(moves', found, BoardMove(from, to, false), one);
      moves' := moves' + [BoardMove(from, to, false)];
      found := found + iset{BoardMove(from, to, false)};
    }
    assert found == all by {
      forall m: Move
        ensures m in found <==> m in all
      {
      }
    }
  }

  /** Both variants for every target, in ascending order. */
  method PushTargets(moves: seq<Move>, t: PieceType, us: Color, from: nat, targets: set<nat>, ghost want: iset<Move>)
    returns (moves': seq<Move>)
    requires Lists(moves, want) && forall m: Move | m in want :: !(m.BoardMove? && m.from == from)
    ensures Lists(moves', want + MovesTo(t, us, from, targets))
  {
    hide Lists, Variant;
    moves' := moves;
    var rest := targets;
    assert want + MovesTo(t, us, from, targets - rest) == want;
    while rest != {}
      invariant rest <= targets && Lists(moves', want + MovesTo(t, us, from, targets - rest))
      decreases |rest|
    {
      var to := Peek(rest);
      ghost var before, after := MovesTo(t, us, from, targets - rest), MovesTo(t, us, from, targets - (rest - {to}));
      moves' := PushVariants(moves', t, us, from, to, false, want + before);
      assert want + before + MovesTo(t, us, from, {to}) == want + after;
      rest := rest - {to};
    }
    assert targets - rest == targets;
  }

  // ----- blockers -----

  ghost predicate AloneBetween(k: nat, p: nat, s: nat, occ: set<nat>) { Between(k, p) * occ == {s} }

  ghost predicate SomeAlone(k: nat, candidates: set<nat>, s: nat, occ: set<nat>) {
    exists p: nat :: p in candidates && AloneBetween(k, p, s, occ)
  }

  /** Adds the pieces that stand alone between the king and one of the candidates. */
  method ScanPinners(k: nat, candidates: set<nat>, occ: set<nat>, blockers: set<nat>) returns (blockers': set<nat>)
    ensures forall s: nat :: s in blockers' <==> s in blockers || SomeAlone(k, candidates, s, occ)
  {
    blockers' := blockers;
    var rest := candidates;
    NoneAlone(k, occ);
    hide *;
    assert candidates - rest == {};
    while rest != {}
      invariant rest <= candidates
      invariant forall s: nat :: s in blockers' <==> s in blockers || SomeAlone(k, candidates - rest, s, occ)
      decreases |rest|
    {
      var pinner := Peek(rest);
      var between := Between(k, pinner) * occ;
      OneMorePinner(k, candidates - rest, pinner, occ);
      assert candidates - rest + {pinner} == candidates - (rest - {pinner});
      if between != {} && !(|between| > 1) {
        blockers' := blockers' + between;
      }
      rest := rest - {pinner};
    }
    assert candidates - rest == candidates;
  }

  lemma NoneAlone(k: nat, occ: set<nat>)
    ensures forall s: nat :: !SomeAlone(k, {}, s, occ)
  {
  }

  lemma OneMorePinner(k: nat, done: set<nat>, pinner: nat, occ: set<nat>)
    ensures var between := Between(k, pinner) * occ;
            forall s: nat :: SomeAlone(k, done + {pinner}, s, occ) <==> SomeAlone(k, done, s, occ) || (s in between && between != {} && !(|between| > 1))
  {
    hide Between;
    var between := Between(k, pinner) * occ;
    forall s: nat
      ensures AloneBetween(k, pinner, s, occ) <==> s in between && between != {} && !(|between| > 1)
    {
      OnlyElement(between, s);
    }
  }

  lemma OnlyElement(s: set<nat>, x: nat)
    ensures s == {x} <==> x in s && |s| <= 1
  {
    if x in s && |s| <= 1 {
      assert |s - {x}| == 0;
    }
  }

  ghost predicate BlocksKing(f: Full, c: Color, s: nat)
    requires f.Shaped()
  {
    IsBlocker(f.board, c.Other(), f.kingSq[Idx(c)], s, Occupied(f))
  }

  /** The pieces of either colour that alone stand between a king and an enemy slider. */
  method ComputeBlockersForKing(f: Full, c: Color) returns (blockers: set<nat>)
    requires Ready(f)
    ensures forall s: nat :: s in blockers <==> BlocksKing(f, c, s)
  {
    var k, occ, enemy := f.kingSq[Idx(c)], Occupied(f), c.Other();
    assert k < SQUARE_NB && f.Shaped();
    hide *;
    var rooks := RookReach(k, {}) * RookLike(f, enemy);
    var bishops := BishopReach(k, {}) * BishopLike(f, enemy);
    var lances := LanceReach(c, k, {}) * Pieces(f, enemy, LANCE);
    blockers := ScanPinners(k, rooks, occ, {});
    blockers := ScanPinners(k, bishops, occ, blockers);
    blockers := ScanPinners(k, lances, occ, blockers);
    forall s: nat
      ensures s in blockers <==> BlocksKing(f, c, s)
    {
      BlockersAre(f, c, s, rooks, bishops, lances);
    }
  }

  lemma BlockersAre(f: Full, c: Color, s: nat, rooks: set<nat>, bishops: set<nat>, lances: set<nat>)
    requires Ready(f)
    requires rooks == RookReach(f.kingSq[Idx(c)], {}) * RookLike(f, c.Other())
    requires bishops == BishopReach(f.kingSq[Idx(c)], {}) * BishopLike(f, c.Other())
    requires lances == LanceReach(c, f.kingSq[Idx(c)], {}) * Pieces(f, c.Other(), LANCE)
    ensures var k, occ := f.kingSq[Idx(c)], Occupied(f);
            BlocksKing(f, c, s) <==> SomeAlone(k, rooks, s, occ) || SomeAlone(k, bishops, s, occ) || SomeAlone(k, lances, s, occ)
  {
    assert f.Shaped();
    hide AloneBetween, Occupied, Between, RookReach, BishopReach, LanceReach, Pins, Ready, RookLike, BishopLike, Pieces;
    var k, occ, enemy := f.kingSq[Idx(c)], Occupied(f), c.Other();
    forall p: nat
      ensures Pins(f.board, enemy, p, k, s, occ) <==> p in rooks + bishops + lances && AloneBetween(k, p, s, occ)
    {
      PinnerIsCandidate(f, c, p, s);
    }
  }

  lemma PinnerIsCandidate(f: Full, c: Color, p: nat, s: nat)
    requires Ready(f)
    ensures var k, enemy := f.kingSq[Idx(c)], c.Other();
            Pins(f.board, enemy, p, k, s, Occupied(f)) <==>
            && p in (RookReach(k, {}) * RookLike(f, enemy)) + (BishopReach(k, {}) * BishopLike(f, enemy)) + (LanceReach(c, k, {}) * Pieces(f, enemy, LANCE))
            && AloneBetween(k, p, s, Occupied(f))
  {
    var k, enemy := f.kingSq[Idx(c)], c.Other();
    assert k < SQUARE_NB && f.Shaped();
    SlidersAre(f, enemy, p);
    hide *;
    PinsAlone(f.board, enemy, p, k, s, Occupied(f));
    if p < SQUARE_NB && f.board[p].Piece? && f.board[p].color == enemy && AloneBetween(k, p, s, Occupied(f)) {
      AloneIsBetween(k, p, s, Occupied(f));
      SliderSeesKing(f.board[p].kind, c, k, p, s);
    }
  }

  lemma PinsAlone(board: seq<Piece>, enemy: Color, p: nat, k: nat, s: nat, occ: set<nat>)
    requires |board| == SQUARE_NB
    ensures Pins(board, enemy, p, k, s, occ) <==>
            && p < SQUARE_NB && board[p].Piece? && board[p].color == enemy && Reaches(board[p].kind, enemy, p, k) && AloneBetween(k, p, s, occ)
  {
    hide Between, Reaches;
  }

  lemma AloneIsBetween(k: nat, p: nat, s: nat, occ: set<nat>)
    requires AloneBetween(k, p, s, occ)
    ensures IsBetween(k, s, p)
  {
    hide IsBetween;
    assert s in Between(k, p);
  }

  lemma SlidersAre(f: Full, c: Color, p: nat)
    requires Agrees(f)
    ensures p in RookLike(f, c) <==> p < SQUARE_NB && f.board[p].Piece? && f.board[p].color == c && f.board[p].kind in {ROOK, DRAGON}
    ensures p in BishopLike(f, c) <==> p < SQUARE_NB && f.board[p].Piece? && f.board[p].color == c && f.board[p].kind in {BISHOP, HORSE}
    ensures p in Pieces(f, c, LANCE) <==> p < SQUARE_NB && f.board[p].Piece? && f.board[p].color == c && f.board[p].kind == LANCE
  {
    PiecesAre(f, c, ROOK, p);
    PiecesAre(f, c, DRAGON, p);
    PiecesAre(f, c, BISHOP, p);
    PiecesAre(f, c, HORSE, p);
    PiecesAre(f, c, LANCE, p);
    assert f.Shaped();
    hide Agrees, Pieces;
  }

  /** With something in between, only a slider in line with the king reaches it. */
  lemma SliderSeesKing(t: PieceType, c: Color, k: nat, p: nat, s: nat)
    requires k < SQUARE_NB && p < SQUARE_NB && IsBetween(k, s, p)
    ensures Reaches(t, c.Other(), p, k) <==>
            || ((t == ROOK || t == DRAGON) && p in RookReach(k, {}))
            || ((t == BISHOP || t == HORSE) && p in BishopReach(k, {}))
            || (t == LANCE && p in LanceReach(c, k, {}))
  {
    RookIs(k, p, {});
    BishopIs(k, p, {});
    LanceIs(c, k, p, {});
    SlidesBack(c, k, p);
    BetweenBack(k, s, p);
    var e := c.Other();
    NoStepPasses(p, s, k, e);
    hide RookReach, BishopReach, LanceReach, Straight, Diagonal, Ahead, StepsTo, IsBetween;
    hide PawnSteps, KnightSteps, SilverSteps, GoldSteps, HorseSteps, DragonSteps, KingSteps;
  }

  lemma NoStepPasses(p: nat, s: nat, k: nat, e: Color)
    requires IsBetween(p, s, k)
    ensures !StepsTo(p, k, PawnSteps(e)) && !StepsTo(p, k, KnightSteps(e)) && !StepsTo(p, k, SilverSteps(e)) && !StepsTo(p, k, GoldSteps(e))
    ensures !StepsTo(p, k, HorseSteps()) && !StepsTo(p, k, DragonSteps()) && !StepsTo(p, k, KingSteps())
  {
    hide IsBetween, StepsTo, PawnSteps, KnightSteps, SilverSteps, GoldSteps, HorseSteps, DragonSteps, KingSteps;
    forall deltas: set<(int, int)> | IsStepList(deltas, e)
      ensures !StepsTo(p, k, deltas)
    {
      if StepsTo(p, k, deltas) {
        ShortStep(p, s, k, deltas, e);
      }
    }
    assert IsStepList(PawnSteps(e), e) && IsStepList(KnightSteps(e), e) && IsStepList(SilverSteps(e), e) && IsStepList(GoldSteps(e), e);
    assert IsStepList(HorseSteps(), e) && IsStepList(DragonSteps(), e) && IsStepList(KingSteps(), e);
  }

  // ----- not in check -----

  ghost predicate IsPinnedSet(f: Full, pinned: set<nat>)
    requires f.Shaped()
  {
    forall s: nat :: s in pinned <==> s in f.byColor[Idx(f.side)] && BlocksKing(f, f.side, s)
  }

  function Attacked(f: Full, from: nat): set<nat>
    requires f.Shaped() && from < SQUARE_NB && f.board[from].Piece?
  {
    PieceAttacks(f.board[from].kind, f.side, from, Occupied(f)) - f.byColor[Idx(f.side)]
  }

  /** The targets the generator keeps for a piece when its side is not in check. */
  ghost predicate Keeps(f: Full, pinned: set<nat>, from: nat, to: nat)
    requires Ready(f) && from < SQUARE_NB
  {
    var k := f.kingSq[Idx(f.side)];
    && f.board[from].Piece? && f.board[from].color == f.side && to in Attacked(f, from)
    && if from == k then to < SQUARE_NB && !KingSeen(f, to) else from in pinned ==> to in Line(from, k)
  }

  /** An enemy attacks the square once the king has left its own. */
  ghost predicate KingSeen(f: Full, to: nat)
    requires Ready(f) && to < SQUARE_NB
  {
    exists p: nat :: IsAttacker(f.board, f.side.Other(), p, to, Occupied(f) - {f.kingSq[Idx(f.side)]})
  }

  ghost function AllBoardMoves(f: Full): iset<Move>
    requires Ready(f)
  {
    iset m: Move | m.BoardMove? && Legal(f, m)
  }

  ghost function LegalBoardMoves(f: Full, froms: set<nat>): iset<Move>
    requires Ready(f)
  {
    iset m: Move | m.BoardMove? && m.from in froms && Legal(f, m)
  }

  /** Filtering by blockers and lines keeps exactly the legal moves of the piece. */
  lemma {:induction false} KeptIsLegal(f: Full, pinned: set<nat>, m: Move)
    requires Ready(f) && !InCheck(f, f.side) && IsPinnedSet(f, pinned) && m.BoardMove? && m.from < SQUARE_NB
    ensures Legal(f, m) <==> f.board[m.from].Piece? && Keeps(f, pinned, m.from, m.to) && Variant(f.board[m.from].kind, f.side, m.from, m.to, m.promotion)
  {
    assert f.Shaped() && Agrees(f);
    hide PieceAttacks, IsAttacker, IsBlocker, Occupied, Line, OnLine, Ready, MustPromote, MayPromote, CanMake, Made, Agrees;
    if f.board[m.from].Piece? {
      AttackedOnBoard(f, m.from);
    }
    if PseudoLegal(f, m) {
      PseudoIsMakeable(f, m);
      if m.from == f.kingSq[Idx(f.side)] {
        KingMoveSafety(f, m);
      } else {
        BoardMoveSafety(f, m);
        NoChecksToMeet(f, m.to);
        LineHolds(m.from, m.to, f.kingSq[Idx(f.side)]);
        OwnAreOurs(f, m.from);
      }
    }
  }

  lemma AttackedOnBoard(f: Full, from: nat)
    requires Ready(f) && from < SQUARE_NB && f.board[from].Piece?
    ensures forall s: nat | s in Attacked(f, from) :: s < SQUARE_NB
  {
    AttacksOnBoard(f.board[from].kind, f.side, from, Occupied(f));
  }

  lemma AttacksOnBoard(t: PieceType, c: Color, sq: nat, occ: set<nat>)
    requires sq < SQUARE_NB
    ensures forall s | s in PieceAttacks(t, c, sq, occ) :: s < SQUARE_NB
  {
    forall df: int, dr: int | IsDirection(df, dr)
      ensures forall s | s in Walk(RayFrom(sq, df, dr), occ) :: s < SQUARE_NB
    {
      WalkOnBoard(RayFrom(sq, df, dr), occ);
    }
  }

  lemma NoChecksToMeet(f: Full, to: nat)
    requires Ready(f) && !InCheck(f, f.side)
    ensures MeetsChecks(f, to)
  {
    hide IsAttacker, Occupied;
  }

  lemma LineHolds(from: nat, to: nat, k: nat)
    requires to < SQUARE_NB
    ensures to in Line(from, k) <==> OnLine(from, to, k)
  {
    hide OnLine;
  }

  lemma OwnAreOurs(f: Full, s: nat)
    requires Agrees(f)
    ensures s in f.byColor[Idx(f.side)] <==> s < SQUARE_NB && f.board[s].Piece? && f.board[s].color == f.side
  {
    OccupiedAre(f, s);
  }

  /** The king's targets that no enemy attacks once it has left its square. */
  method SafeKingTargets(f: Full, targets: set<nat>) returns (safe: set<nat>)
    requires Ready(f) && forall s | s in targets :: s < SQUARE_NB
    ensures forall to: nat :: to in safe <==> to in targets && KingSafeOn(f, to)
  {
    hide *;
    safe := {};
    var rest := targets;
    while rest != {}
      invariant rest <= targets
      invariant forall to: nat :: to in safe <==> to in targets && to !in rest && KingSafeOn(f, to)
      decreases |rest|
    {
      var to := Peek(rest);
      var ok := TestKingTarget(f, to);
      if ok {
        safe := safe + {to};
      }
      rest := rest - {to};
    }
  }

  ghost predicate KingSafeOn(f: Full, to: nat) { Ready(f) && to < SQUARE_NB && !KingSeen(f, to) }

  method TestKingTarget(f: Full, to: nat) returns (ok: bool)
    requires Ready(f) && to < SQUARE_NB
    ensures ok <==> KingSafeOn(f, to)
  {
    var k, them := f.kingSq[Idx(f.side)], f.side.Other();
    var occ := Occupied(f) - {k};
    OccupiedOnBoard(f);
    assert Agrees(f) && OnBoardOnly(occ);
    hide IsAttacker, Agrees, IsSquareAttacked, Occupied;
    SeenIs(f, to, occ);
    ok := !IsSquareAttacked(f, to, occ, them);
  }

  lemma SeenIs(f: Full, to: nat, occ: set<nat>)
    requires Ready(f) && to < SQUARE_NB && occ == Occupied(f) - {f.kingSq[Idx(f.side)]} && OnBoardOnly(occ)
    ensures IsSquareAttacked(f, to, occ, f.side.Other()) <==> KingSeen(f, to)
  {
    assert Agrees(f);
    hide IsAttacker, Agrees, Ready, IsSquareAttacked, Occupied;
  }

  /** The targets kept for one piece. */
  method KeptTargets(f: Full, pinned: set<nat>, from: nat) returns (targets: set<nat>)
    requires Ready(f) && from < SQUARE_NB && f.board[from].Piece? && f.board[from].color == f.side
    ensures forall to: nat :: to in targets <==> Keeps(f, pinned, from, to)
  {
    AttackedOnBoard(f, from);
    assert f.Shaped();
    hide KingSeen, Ready, PieceAttacks, Occupied, Line;
    var k := f.kingSq[Idx(f.side)];
    targets := Attacked(f, from);
    if from == k {
      targets := SafeKingTargets(f, targets);
    } else if from in pinned {
      targets := targets * Line(from, k);
    }
  }

  lemma OnePieceMoves(f: Full, pinned: set<nat>, from: nat, targets: set<nat>)
    requires Ready(f) && !InCheck(f, f.side) && IsPinnedSet(f, pinned)
    requires from < SQUARE_NB && f.board[from].Piece? && forall to: nat :: to in targets <==> Keeps(f, pinned, from, to)
    ensures MovesTo(f.board[from].kind, f.side, from, targets) == LegalBoardMoves(f, {from})
  {
    assert f.Shaped();
    hide Legal, Keeps, Ready, InCheck, IsPinnedSet, Variant;
    forall m: Move
      ensures m in MovesTo(f.board[from].kind, f.side, from, targets) <==> m in LegalBoardMoves(f, {from})
    {
      if m.BoardMove? && m.from == from {
        KeptIsLegal(f, pinned, m);
      }
    }
  }

  /** All legal board moves of a side that is not in check. */
  method GenerateBoardMovesNonCheck(f: Full, pinned: set<nat>) returns (moves: seq<Move>)
    requires Ready(f) && !InCheck(f, f.side) && IsPinnedSet(f, pinned)
    ensures Lists(moves, AllBoardMoves(f))
  {
    var our := f.byColor[Idx(f.side)];
    OwnSquares(f);
    assert f.Shaped();
    hide Ready, InCheck, IsPinnedSet, Lists, Keeps, Legal;
    moves := [];
    var rest := our;
    assert LegalBoardMoves(f, our - rest) == iset{};
    NothingListed();
    while rest != {}
      invariant rest <= our && Lists(moves, LegalBoardMoves(f, our - rest))
      decreases |rest|
    {
      var from := Peek(rest);
      var targets := KeptTargets(f, pinned, from);
      OnePieceMoves(f, pinned, from, targets);
      moves := PushTargets(moves, f.board[from].kind, f.side, from, targets, LegalBoardMoves(f, our - rest));
      assert LegalBoardMoves(f, our - rest) + LegalBoardMoves(f, {from}) == LegalBoardMoves(f, our - (rest - {from}));
      rest := rest - {from};
    }
    assert our - rest == our;
    OnlyOwnMoves(f);
  }

  lemma NothingListed()
    ensures Lists([], iset{})
  {
  }

  lemma OwnSquares(f: Full)
    requires Agrees(f)
    ensures forall s: nat :: s in f.byColor[Idx(f.side)] <==> s < SQUARE_NB && f.board[s].Piece? && f.board[s].color == f.side
  {
    assert f.Shaped();
    hide Agrees;
    forall s: nat
      ensures s in f.byColor[Idx(f.side)] <==> s < SQUARE_NB && f.board[s].Piece? && f.board[s].color == f.side
    {
      OwnAreOurs(f, s);
    }
  }

  lemma OnlyOwnMoves(f: Full)
    requires Ready(f)
    ensures LegalBoardMoves(f, f.byColor[Idx(f.side)]) == AllBoardMoves(f)
  {
    OwnSquares(f);
    hide PieceAttacks, Ready;
  }

  // ----- drops -----

  function RankSet(rank: int): set<nat> { set s: nat | s < SQUARE_NB && RankOf(s) == rank }

  function FileSet(file: int): set<nat> { set s: nat | s < SQUARE_NB && FileOf(s) == file }

  predicate DropAllowed(f: Full, t: PieceType, to: nat) {
    !MustPromote(t, f.side, to) && (t == PAWN ==> !HasPawnOnFile(f.board, f.side, to))
  }

  /** Of the given squares those where the piece may be dropped. */
  method DropTargets(f: Full, t: PieceType, base: set<nat>) returns (targets: set<nat>)
    requires Agrees(f) && forall s | s in base :: s < SQUARE_NB
    ensures targets <= base && forall to: nat | to in base :: to in targets <==> DropAllowed(f, t, to)
  {
    targets := base;
    if t == PAWN || t == LANCE {
      targets := targets - RankSet(if f.side.Black? then 0 else 8);
    }
    if t == KNIGHT {
      targets := if f.side.Black? then targets - RankSet(0) - RankSet(1) else targets - RankSet(7) - RankSet(8);
    }
    assert forall to: nat | to in base :: to in targets <==> !MustPromote(t, f.side, to);
    if t == PAWN {
      targets := DropTwoPawnFiles(f, targets);
    }
  }

  /** Removes the files that already hold an own pawn. */
  method DropTwoPawnFiles(f: Full, base: set<nat>) returns (targets: set<nat>)
    requires Agrees(f) && forall s | s in base :: s < SQUARE_NB
    ensures targets <= base && forall to: nat | to in base :: to in targets <==> !HasPawnOnFile(f.board, f.side, to)
  {
    assert f.Shaped();
    FilesInRange();
    hide Agrees, HasPawnOnFile, FileOf;
    targets := base;
    var ourPawns := Pieces(f, f.side, PAWN);
    var file := 0;
    while file < 9
      invariant 0 <= file <= 9 && targets <= base
      invariant forall to: nat | to in base :: to in targets <==> !(FileOf(to) < file && HasPawnOnFile(f.board, f.side, to))
    {
      PawnsOnFile(f, file);
      if ourPawns * FileSet(file) != {} {
        targets := targets - FileSet(file);
      }
      file := file + 1;
    }
  }

  lemma FilesInRange()
    ensures forall to: nat | to < SQUARE_NB :: 0 <= FileOf(to) < 9
  {
  }

  lemma PawnsOnFile(f: Full, file: int)
    requires Agrees(f)
    ensures forall to: nat | to < SQUARE_NB && FileOf(to) == file :: HasPawnOnFile(f.board, f.side, to) <==> Pieces(f, f.side, PAWN) * FileSet(file) != {}
    ensures forall to: nat | to < SQUARE_NB :: to in FileSet(file) <==> FileOf(to) == file
  {
    forall s: nat
      ensures s in Pieces(f, f.side, PAWN) <==> s < SQUARE_NB && f.board[s] == Piece(f.side, PAWN)
    {
      PiecesAre(f, f.side, PAWN, s);
    }
    assert f.Shaped();
    hide Agrees, Pieces, FileOf;
    if s: nat :| s in Pieces(f, f.side, PAWN) * FileSet(file) {
      assert f.board[s] == Piece(f.side, PAWN) && FileOf(s) == file;
    }
    if s: nat :| s < SQUARE_NB && FileOf(s) == file && f.board[s] == Piece(f.side, PAWN) {
      assert s in Pieces(f, f.side, PAWN) * FileSet(file);
    }
  }

  ghost function DropsOnto(t: PieceType, targets: set<nat>): iset<Move> {
    iset m: Move | m.Drop? && m.kind == t && m.to in targets
  }

  /** One drop for every target. */
  method PushDrops(moves: seq<Move>, t: PieceType, targets: set<nat>, ghost want: iset<Move>) returns (moves': seq<Move>)
    requires Lists(moves, want) && forall m: Move | m in want :: m.Drop? ==> m.kind != t
    ensures Lists(moves', want + DropsOnto(t, targets))
  {
    hide Lists;
    moves' := moves;
    var rest := targets;
    assert want + DropsOnto(t, targets - rest) == want;
    while rest != {}
      invariant rest <= targets && Lists(moves', want + DropsOnto(t, targets - rest))
      decreases |rest|
    {
      var to := Peek(rest);
      PushLists(moves', want + DropsOnto(t, targets - rest), Drop(t, to));
      moves' := moves' + [Drop(t, to)];
      assert want + DropsOnto(t, targets - rest) + iset{Drop(t, to)} == want + DropsOnto(t, targets - (rest - {to}));
      rest := rest - {to};
    }
    assert targets - rest == targets;
  }

  ghost function AllPseudoDrops(f: Full): iset<Move>
    requires f.Shaped()
  {
    iset m: Move | m.Drop? && PseudoLegal(f, m)
  }

  ghost function PseudoDrops(f: Full, below: nat): iset<Move>
    requires f.Shaped()
  {
    iset m: Move | m.Drop? && m.kind < below && PseudoLegal(f, m)
  }

  /** Every drop the rules on ranks and pawns allow. */
  method GenerateDropMoves(f: Full) returns (moves: seq<Move>)
    requires Agrees(f)
    ensures Lists(moves, AllPseudoDrops(f))
  {
    assert f.Shaped();
    var empty := FreeSquares(Occupied(f));
    EmptySquares(f, empty);
    hide Lists, Occupied, Agrees, DropAllowed;
    moves := [];
    NothingListed();
    assert PseudoDrops(f, 1) == iset{};
    var t: nat := 1;
    while t <= 7
      invariant 1 <= t <= 8 && Lists(moves, PseudoDrops(f, t))
    {
      if f.hand[Idx(f.side)][t] > 0 {
        var targets := DropTargets(f, t, empty);
        moves := PushDrops(moves, t, targets, PseudoDrops(f, t));
        OneKindDrops(f, t, empty, targets);
      } else {
        NoKindDrops(f, t);
      }
      t := t + 1;
    }
    assert PseudoDrops(f, 8) == AllPseudoDrops(f);
  }

  function FreeSquares(occ: set<nat>): set<nat> { set s: nat | s < SQUARE_NB && s !in occ }

  lemma EmptySquares(f: Full, empty: set<nat>)
    requires Agrees(f) && empty == FreeSquares(Occupied(f))
    ensures forall s: nat :: s in empty <==> s < SQUARE_NB && f.board[s].NoPiece?
  {
    hide Occupied;
    forall s: nat
      ensures s in empty <==> s < SQUARE_NB && f.board[s].NoPiece?
    {
      OccupiedAre(f, s);
    }
  }

  lemma OneKindDrops(f: Full, t: PieceType, empty: set<nat>, targets: set<nat>)
    requires f.Shaped() && 1 <= t <= 7 && f.hand[Idx(f.side)][t] > 0
    requires forall s: nat :: s in empty <==> s < SQUARE_NB && f.board[s].NoPiece?
    requires targets <= empty && forall to: nat | to in empty :: to in targets <==> DropAllowed(f, t, to)
    ensures PseudoDrops(f, t) + DropsOnto(t, targets) == PseudoDrops(f, t + 1)
  {
    hide MustPromote, HasPawnOnFile;
    forall m: Move
      ensures m in PseudoDrops(f, t) + DropsOnto(t, targets) <==> m in PseudoDrops(f, t + 1)
    {
    }
  }

  lemma NoKindDrops(f: Full, t: PieceType)
    requires f.Shaped() && 1 <= t <= 7 && f.hand[Idx(f.side)][t] == 0
    ensures PseudoDrops(f, t) == PseudoDrops(f, t + 1)
  {
    hide MustPromote, HasPawnOnFile;
    forall m: Move
      ensures m in PseudoDrops(f, t) <==> m in PseudoDrops(f, t + 1)
    {
    }
  }
}
