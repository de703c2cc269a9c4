/** Which squares a piece attacks, and looking the attackers of a square up in reverse. */
module Attacks {
  import opened Shogi
  import opened Qugiy
  import opened Lances
  import opened Geometry
  import opened BoardState

  // ----- steps -----

  /** The squares at the listed offsets of file and rank, as far as they are on the board. */
  function StepSet(sq: nat, deltas: set<(int, int)>): set<nat> {
    set s: nat | s < SQUARE_NB && (Files(sq, s), Ranks(sq, s)) in deltas
  }

  function PawnSteps(c: Color): set<(int, int)> { {(0, Forward(c))} }

  function KnightSteps(c: Color): set<(int, int)> { {(-1, 2 * Forward(c)), (1, 2 * Forward(c))} }

  function SilverSteps(c: Color): set<(int, int)> {
    {(0, Forward(c)), (-1, Forward(c)), (1, Forward(c)), (-1, -Forward(c)), (1, -Forward(c))}
  }

  function GoldSteps(c: Color): set<(int, int)> {
    {(0, Forward(c)), (-1, Forward(c)), (1, Forward(c)), (-1, 0), (1, 0), (0, -Forward(c))}
  }

  function HorseSteps(): set<(int, int)> { {(0, -1), (0, 1), (-1, 0), (1, 0)} }

  function DragonSteps(): set<(int, int)> { {(-1, -1), (-1, 1), (1, -1), (1, 1)} }

  function KingSteps(): set<(int, int)> { HorseSteps() + DragonSteps() }

  predicate MovesLikeGold(t: PieceType) {
    t == GOLD || t == PRO_PAWN || t == PRO_LANCE || t == PRO_KNIGHT || t == PRO_SILVER
  }

  // ----- sliders -----

  function BishopReach(sq: nat, occ: set<nat>): set<nat>
    requires sq < SQUARE_NB
  {
    Walk(RayFrom(sq, 1, -1), occ) + Walk(RayFrom(sq, -1, -1), occ) + Walk(RayFrom(sq, 1, 1), occ) + Walk(RayFrom(sq, -1, 1), occ)
  }

  function RookReach(sq: nat, occ: set<nat>): set<nat>
    requires sq < SQUARE_NB
  {
    Walk(RayFrom(sq, 0, 1), occ) + Walk(RayFrom(sq, 0, -1), occ) + Walk(RayFrom(sq, 1, 0), occ) + Walk(RayFrom(sq, -1, 0), occ)
  }

  function LanceReach(c: Color, sq: nat, occ: set<nat>): set<nat>
    requires sq < SQUARE_NB
  {
    Walk(LanceRay(sq, c), occ)
  }

  // ----- pieces -----

  /** What a piece attacks on a board so occupied. */
  function PieceAttacks(t: PieceType, c: Color, sq: nat, occ: set<nat>): set<nat>
    requires sq < SQUARE_NB
  {
    if t == PAWN then StepSet(sq, PawnSteps(c))
    else if t == LANCE then LanceReach(c, sq, occ)
    else if t == KNIGHT then StepSet(sq, KnightSteps(c))
    else if t == SILVER then StepSet(sq, SilverSteps(c))
    else if t == BISHOP then BishopReach(sq, occ)
    else if t == ROOK then RookReach(sq, occ)
    else if MovesLikeGold(t) then StepSet(sq, GoldSteps(c))
    else if t == KING then StepSet(sq, KingSteps())
    else if t == HORSE then BishopReach(sq, occ) + StepSet(sq, HorseSteps())
    else if t == DRAGON then RookReach(sq, occ) + StepSet(sq, DragonSteps())
    else {}
  }

  predicate Diagonal(a: nat, b: nat) { Aligned(a, b) && Files(a, b) != 0 && Ranks(a, b) != 0 }

  predicate Straight(a: nat, b: nat) { Aligned(a, b) && (Files(a, b) == 0 || Ranks(a, b) == 0) }

  predicate Ahead(c: Color, a: nat, b: nat) { Aligned(a, b) && Files(a, b) == 0 && Sign(Ranks(a, b)) == Forward(c) }

  predicate StepsTo(a: nat, b: nat, deltas: set<(int, int)>) { (Files(a, b), Ranks(a, b)) in deltas }

  /** On an empty board a piece on a attacks b. */
  predicate Reaches(t: PieceType, c: Color, a: nat, b: nat) {
    if t == PAWN then StepsTo(a, b, PawnSteps(c))
    else if t == LANCE then Ahead(c, a, b)
    else if t == KNIGHT then StepsTo(a, b, KnightSteps(c))
    else if t == SILVER then StepsTo(a, b, SilverSteps(c))
    else if t == BISHOP then Diagonal(a, b)
    else if t == ROOK then Straight(a, b)
    else if MovesLikeGold(t) then StepsTo(a, b, GoldSteps(c))
    else if t == KING then StepsTo(a, b, KingSteps())
    else if t == HORSE then Diagonal(a, b) || StepsTo(a, b, HorseSteps())
    else if t == DRAGON then Straight(a, b) || StepsTo(a, b, DragonSteps())
    else false
  }

  ghost predicate OnBoardOnly(occ: set<nat>) { forall s | s in occ :: s < SQUARE_NB }

  lemma BishopIs(a: nat, b: nat, occ: set<nat>)
    requires a < SQUARE_NB && b < SQUARE_NB && OnBoardOnly(occ)
    ensures b in BishopReach(a, occ) <==> Diagonal(a, b) && Clear(a, b, occ)
  {
    hide Walk, RayFrom, Clear, FileOf, RankOf;
    WalkIsClear(a, b, 1, -1, occ);
    WalkIsClear(a, b, -1, -1, occ);
    WalkIsClear(a, b, 1, 1, occ);
    WalkIsClear(a, b, -1, 1, occ);
  }

  lemma RookIs(a: nat, b: nat, occ: set<nat>)
    requires a < SQUARE_NB && b < SQUARE_NB && OnBoardOnly(occ)
    ensures b in RookReach(a, occ) <==> Straight(a, b) && Clear(a, b, occ)
  {
    hide Walk, RayFrom, Clear, FileOf, RankOf;
    SameSquare(a, b);
    WalkIsClear(a, b, 0, 1, occ);
    WalkIsClear(a, b, 0, -1, occ);
    WalkIsClear(a, b, 1, 0, occ);
    WalkIsClear(a, b, -1, 0, occ);
  }

  lemma LanceIs(c: Color, a: nat, b: nat, occ: set<nat>)
    requires a < SQUARE_NB && b < SQUARE_NB && OnBoardOnly(occ)
    ensures b in LanceReach(c, a, occ) <==> Ahead(c, a, b) && Clear(a, b, occ)
  {
    hide Walk, RayFrom, Clear, FileOf, RankOf;
    WalkIsClear(a, b, 0, Forward(c), occ);
  }

  predicate IsStepList(deltas: set<(int, int)>, c: Color) {
    || deltas == PawnSteps(c) || deltas == KnightSteps(c) || deltas == SilverSteps(c) || deltas == GoldSteps(c)
    || deltas == HorseSteps() || deltas == DragonSteps() || deltas == KingSteps()
  }

  /** A step of a piece that is no slider passes over nothing. */
  lemma StepIs(a: nat, b: nat, deltas: set<(int, int)>, c: Color, occ: set<nat>)
    requires b < SQUARE_NB && IsStepList(deltas, c)
    ensures b in StepSet(a, deltas) <==> StepsTo(a, b, deltas) && Clear(a, b, occ)
  {
    if StepsTo(a, b, deltas) {
      forall s | s in occ
        ensures !IsBetween(a, s, b)
      {
        ShortStep(a, s, b, deltas, c);
      }
    }
  }

  lemma ShortStep(a: nat, s: nat, b: nat, deltas: set<(int, int)>, c: Color)
    requires StepsTo(a, b, deltas) && IsStepList(deltas, c)
    ensures !IsBetween(a, s, b)
  {
    hide FileOf, RankOf;
    SameSquare(a, s);
    assert Aligned(a, b) ==> Dist(a, b) <= 1;
  }

  /** What a piece attacks: what it reaches on an empty board with nothing in the way. */
  lemma {:induction false} AttacksAre(t: PieceType, c: Color, a: nat, b: nat, occ: set<nat>)
    requires a < SQUARE_NB && b < SQUARE_NB && OnBoardOnly(occ)
    ensures b in PieceAttacks(t, c, a, occ) <==> Reaches(t, c, a, b) && Clear(a, b, occ)
  {
    hide BishopReach, RookReach, LanceReach, Diagonal, Straight, Ahead, Clear, MovesLikeGold, StepSet, StepsTo;
    hide PawnSteps, KnightSteps, SilverSteps, GoldSteps, HorseSteps, DragonSteps, KingSteps;
    BishopIs(a, b, occ);
    RookIs(a, b, occ);
    LanceIs(c, a, b, occ);
    StepIs(a, b, PawnSteps(c), c, occ);
    StepIs(a, b, KnightSteps(c), c, occ);
    StepIs(a, b, SilverSteps(c), c, occ);
    StepIs(a, b, GoldSteps(c), c, occ);
    StepIs(a, b, HorseSteps(), c, occ);
    StepIs(a, b, DragonSteps(), c, occ);
    StepIs(a, b, KingSteps(), c, occ);
  }

  /** A piece reaches a square exactly when the same piece of the other colour on that square
      reaches back. */
  lemma ReachesBack(t: PieceType, c: Color, a: nat, b: nat)
    ensures Reaches(t, c, a, b) == Reaches(t, c.Other(), b, a)
  {
    hide MovesLikeGold, StepsTo, Diagonal, Straight, Ahead;
    hide PawnSteps, KnightSteps, SilverSteps, GoldSteps, HorseSteps, DragonSteps, KingSteps;
    SlidesBack(c, a, b);
    StepsBack(c, a, b);
  }

  lemma SlidesBack(c: Color, a: nat, b: nat)
    ensures Diagonal(a, b) == Diagonal(b, a) && Straight(a, b) == Straight(b, a) && Ahead(c, a, b) == Ahead(c.Other(), b, a)
  {
    hide FileOf, RankOf;
  }

  lemma StepsBack(c: Color, a: nat, b: nat)
    ensures StepsTo(a, b, PawnSteps(c)) == StepsTo(b, a, PawnSteps(c.Other()))
    ensures StepsTo(a, b, KnightSteps(c)) == StepsTo(b, a, KnightSteps(c.Other()))
    ensures StepsTo(a, b, SilverSteps(c)) == StepsTo(b, a, SilverSteps(c.Other()))
    ensures StepsTo(a, b, GoldSteps(c)) == StepsTo(b, a, GoldSteps(c.Other()))
    ensures StepsTo(a, b, HorseSteps()) == StepsTo(b, a, HorseSteps())
    ensures StepsTo(a, b, DragonSteps()) == StepsTo(b, a, DragonSteps())
    ensures StepsTo(a, b, KingSteps()) == StepsTo(b, a, KingSteps())
  {
    hide FileOf, RankOf;
    assert Files(b, a) == -Files(a, b) && Ranks(b, a) == -Ranks(a, b);
  }

  lemma ClearBack(a: nat, b: nat, occ: set<nat>)
    ensures Clear(a, b, occ) == Clear(b, a, occ)
  {
    hide IsBetween;
    forall s | s in occ
      ensures IsBetween(a, s, b) == IsBetween(b, s, a)
    {
      BetweenBack(a, s, b);
    }
  }

  lemma AttacksBack(t: PieceType, c: Color, a: nat, b: nat, occ: set<nat>)
    requires a < SQUARE_NB && b < SQUARE_NB && OnBoardOnly(occ)
    ensures b in PieceAttacks(t, c, a, occ) <==> a in PieceAttacks(t, c.Other(), b, occ)
  {
    hide *;
    AttacksAre(t, c, a, b, occ);
    AttacksAre(t, c.Other(), b, a, occ);
    ReachesBack(t, c, a, b);
    ClearBack(a, b, occ);
  }

  // ----- attackers of a square -----

  /** The bitboards describe the array. */
  ghost predicate Agrees(f: Full) { f.Shaped() && f.byColor == ColorSets(f.board) && f.byType == TypeSets(f.board) }

  function Pieces(f: Full, c: Color, t: PieceType): set<nat>
    requires f.Shaped()
  {
    f.byColor[Idx(c)] * f.byType[t]
  }

  function Occupied(f: Full): set<nat>
    requires f.Shaped()
  {
    f.byColor[0] + f.byColor[1]
  }

  lemma PiecesAre(f: Full, c: Color, t: PieceType, s: nat)
    requires Agrees(f)
    ensures s in Pieces(f, c, t) <==> s < SQUARE_NB && f.board[s] == Piece(c, t)
  {
    assert f.byType[t] == TypeSet(f.board, t);
  }

  lemma OccupiedAre(f: Full, s: nat)
    requires Agrees(f)
    ensures s in Occupied(f) <==> s < SQUARE_NB && f.board[s].Piece?
    ensures s in f.byColor[0] <==> s < SQUARE_NB && f.board[s].Piece? && f.board[s].color == Black
    ensures s in f.byColor[1] <==> s < SQUARE_NB && f.board[s].Piece? && f.board[s].color == White
  {
  }

  lemma OccupiedOnBoard(f: Full)
    requires Agrees(f)
    ensures OnBoardOnly(Occupied(f))
  {
    hide Occupied;
    forall s | s in Occupied(f)
      ensures s < SQUARE_NB
    {
      OccupiedAre(f, s);
    }
  }

  function Golds(f: Full, c: Color): set<nat>
    requires f.Shaped()
  {
    Pieces(f, c, GOLD) + Pieces(f, c, PRO_PAWN) + Pieces(f, c, PRO_LANCE) + Pieces(f, c, PRO_KNIGHT) + Pieces(f, c, PRO_SILVER)
  }

  function RookLike(f: Full, c: Color): set<nat>
    requires f.Shaped()
  {
    Pieces(f, c, ROOK) + Pieces(f, c, DRAGON)
  }

  function BishopLike(f: Full, c: Color): set<nat>
    requires f.Shaped()
  {
    Pieces(f, c, BISHOP) + Pieces(f, c, HORSE)
  }

  /** The pieces of a colour that attack a square, looked up from that square with the other
      colour's moves. */
  function AttackersTo(f: Full, sq: nat, occ: set<nat>, attacker: Color): set<nat>
    requires f.Shaped() && sq < SQUARE_NB
  {
    var other := attacker.Other();
    (StepSet(sq, PawnSteps(other)) * Pieces(f, attacker, PAWN)) + (StepSet(sq, KnightSteps(other)) * Pieces(f, attacker, KNIGHT))
    + (StepSet(sq, SilverSteps(other)) * Pieces(f, attacker, SILVER)) + (StepSet(sq, GoldSteps(other)) * Golds(f, attacker))
    + (LanceReach(other, sq, occ) * Pieces(f, attacker, LANCE)) + (StepSet(sq, KingSteps()) * Pieces(f, attacker, KING))
    + (RookReach(sq, occ) * RookLike(f, attacker)) + (BishopReach(sq, occ) * BishopLike(f, attacker))
    + (StepSet(sq, HorseSteps()) * Pieces(f, attacker, HORSE)) + (StepSet(sq, DragonSteps()) * Pieces(f, attacker, DRAGON))
  }

  /** A piece of this colour stands on p and attacks the square. */
  ghost predicate IsAttacker(board: seq<Piece>, c: Color, p: nat, sq: nat, occ: set<nat>)
    requires sq < SQUARE_NB
  {
    p < |board| && p < SQUARE_NB && board[p].Piece? && board[p].color == c && sq in PieceAttacks(board[p].kind, c, p, occ)
  }

  /** The reverse lookup finds exactly the attackers. */
  lemma {:induction false} AttackersAre(f: Full, sq: nat, occ: set<nat>, c: Color, p: nat)
    requires Agrees(f) && sq < SQUARE_NB && OnBoardOnly(occ)
    ensures p in AttackersTo(f, sq, occ, c) <==> IsAttacker(f.board, c, p, sq, occ)
  {
    hide PieceAttacks, Pieces, LanceReach, RookReach, BishopReach, StepSet, ColorSets, TypeSets;
    hide PawnSteps, KnightSteps, SilverSteps, GoldSteps, HorseSteps, DragonSteps, KingSteps;
    forall t: PieceType
      ensures p in Pieces(f, c, t) <==> p < SQUARE_NB && f.board[p] == Piece(c, t)
    {
      PiecesAre(f, c, t, p);
    }
    if p < SQUARE_NB && f.board[p].Piece? && f.board[p].color == c {
      LookupByKind(f, sq, occ, c, p);
      AttacksBack(f.board[p].kind, c, p, sq, occ);
    }
  }

  lemma LookupByKind(f: Full, sq: nat, occ: set<nat>, c: Color, p: nat)
    requires f.Shaped() && sq < SQUARE_NB && p < SQUARE_NB && f.board[p].Piece? && f.board[p].color == c
    requires forall t: PieceType :: p in Pieces(f, c, t) <==> f.board[p].kind == t
    ensures p in AttackersTo(f, sq, occ, c) <==> p in PieceAttacks(f.board[p].kind, c.Other(), sq, occ)
  {
    hide Pieces, LanceReach, RookReach, BishopReach, StepSet;
    hide PawnSteps, KnightSteps, SilverSteps, GoldSteps, HorseSteps, DragonSteps, KingSteps;
  }

  /** Whether some piece of a colour attacks a square: steps first, and sliders only when one
      stands on an empty-board ray. */
  function IsSquareAttacked(f: Full, sq: nat, occ: set<nat>, attacker: Color): (r: bool)
    requires Agrees(f) && sq < SQUARE_NB && OnBoardOnly(occ)
    ensures r <==> exists p: nat :: IsAttacker(f.board, attacker, p, sq, occ)
  {
    LookupDecides(f, sq, occ, attacker);
    hide IsAttacker, StepSet, Pieces, Golds, RookLike, BishopLike, LanceReach, RookReach, BishopReach, OnBoardOnly;
    var other := attacker.Other();
    if StepSet(sq, PawnSteps(other)) * Pieces(f, attacker, PAWN) != {} then true
    else if StepSet(sq, KnightSteps(other)) * Pieces(f, attacker, KNIGHT) != {} then true
    else if StepSet(sq, SilverSteps(other)) * Pieces(f, attacker, SILVER) != {} then true
    else if StepSet(sq, GoldSteps(other)) * Golds(f, attacker) != {} then true
    else if StepSet(sq, KingSteps()) * Pieces(f, attacker, KING) != {} then true
    else if StepSet(sq, HorseSteps()) * Pieces(f, attacker, HORSE) != {} then true
    else if StepSet(sq, DragonSteps()) * Pieces(f, attacker, DRAGON) != {} then true
    else if LanceReach(other, sq, {}) * Pieces(f, attacker, LANCE) != {} && LanceReach(other, sq, occ) * Pieces(f, attacker, LANCE) != {} then true
    else if RookReach(sq, {}) * RookLike(f, attacker) != {} && RookReach(sq, occ) * RookLike(f, attacker) != {} then true
    else BishopReach(sq, {}) * BishopLike(f, attacker) != {} && BishopReach(sq, occ) * BishopLike(f, attacker) != {}
  }

  /** The ten lookups together, with the empty-board tests in front of the slider ones. */
  lemma LookupDecides(f: Full, sq: nat, occ: set<nat>, c: Color)
    requires Agrees(f) && sq < SQUARE_NB && OnBoardOnly(occ)
    ensures (exists p: nat :: IsAttacker(f.board, c, p, sq, occ)) <==>
            || StepSet(sq, PawnSteps(c.Other())) * Pieces(f, c, PAWN) != {} || StepSet(sq, KnightSteps(c.Other())) * Pieces(f, c, KNIGHT) != {}
            || StepSet(sq, SilverSteps(c.Other())) * Pieces(f, c, SILVER) != {} || StepSet(sq, GoldSteps(c.Other())) * Golds(f, c) != {}
            || StepSet(sq, KingSteps()) * Pieces(f, c, KING) != {} || StepSet(sq, HorseSteps()) * Pieces(f, c, HORSE) != {}
            || StepSet(sq, DragonSteps()) * Pieces(f, c, DRAGON) != {}
            || (LanceReach(c.Other(), sq, {}) * Pieces(f, c, LANCE) != {} && LanceReach(c.Other(), sq, occ) * Pieces(f, c, LANCE) != {})
            || (RookReach(sq, {}) * RookLike(f, c) != {} && RookReach(sq, occ) * RookLike(f, c) != {})
            || (BishopReach(sq, {}) * BishopLike(f, c) != {} && BishopReach(sq, occ) * BishopLike(f, c) != {})
  {
    SomeAttacker(f, sq, occ, c);
    LookupsAre(f, sq, occ, c);
    hide *;
  }

  lemma LookupsAre(f: Full, sq: nat, occ: set<nat>, c: Color)
    requires Agrees(f) && sq < SQUARE_NB && OnBoardOnly(occ)
    ensures AttackersTo(f, sq, occ, c) != {} <==>
            || StepSet(sq, PawnSteps(c.Other())) * Pieces(f, c, PAWN) != {} || StepSet(sq, KnightSteps(c.Other())) * Pieces(f, c, KNIGHT) != {}
            || StepSet(sq, SilverSteps(c.Other())) * Pieces(f, c, SILVER) != {} || StepSet(sq, GoldSteps(c.Other())) * Golds(f, c) != {}
            || StepSet(sq, KingSteps()) * Pieces(f, c, KING) != {} || StepSet(sq, HorseSteps()) * Pieces(f, c, HORSE) != {}
            || StepSet(sq, DragonSteps()) * Pieces(f, c, DRAGON) != {}
            || (LanceReach(c.Other(), sq, {}) * Pieces(f, c, LANCE) != {} && LanceReach(c.Other(), sq, occ) * Pieces(f, c, LANCE) != {})
            || (RookReach(sq, {}) * RookLike(f, c) != {} && RookReach(sq, occ) * RookLike(f, c) != {})
            || (BishopReach(sq, {}) * BishopLike(f, c) != {} && BishopReach(sq, occ) * BishopLike(f, c) != {})
  {
    BlockedReachesLess(sq, occ, c.Other());
    LessMeetsLess(LanceReach(c.Other(), sq, occ), LanceReach(c.Other(), sq, {}), Pieces(f, c, LANCE));
    LessMeetsLess(RookReach(sq, occ), RookReach(sq, {}), RookLike(f, c));
    LessMeetsLess(BishopReach(sq, occ), BishopReach(sq, {}), BishopLike(f, c));
    hide StepSet, Pieces, Golds, RookLike, BishopLike, LanceReach, RookReach, BishopReach, Agrees;
    hide PawnSteps, KnightSteps, SilverSteps, GoldSteps, HorseSteps, DragonSteps, KingSteps;
    assert AttackersTo(f, sq, occ, c) == {} <==>
           && StepSet(sq, PawnSteps(c.Other())) * Pieces(f, c, PAWN) == {} && StepSet(sq, KnightSteps(c.Other())) * Pieces(f, c, KNIGHT) == {}
           && StepSet(sq, SilverSteps(c.Other())) * Pieces(f, c, SILVER) == {} && StepSet(sq, GoldSteps(c.Other())) * Golds(f, c) == {}
           && LanceReach(c.Other(), sq, occ) * Pieces(f, c, LANCE) == {} && StepSet(sq, KingSteps()) * Pieces(f, c, KING) == {}
           && RookReach(sq, occ) * RookLike(f, c) == {} && BishopReach(sq, occ) * BishopLike(f, c) == {}
           && StepSet(sq, HorseSteps()) * Pieces(f, c, HORSE) == {} && StepSet(sq, DragonSteps()) * Pieces(f, c, DRAGON) == {};
  }

  lemma LessMeetsLess(a: set<nat>, b: set<nat>, s: set<nat>)
    requires a <= b
    ensures a * s != {} ==> b * s != {}
  {
    if x :| x in a * s {
      assert x in b * s;
    }
  }

  lemma SomeAttacker(f: Full, sq: nat, occ: set<nat>, c: Color)
    requires Agrees(f) && sq < SQUARE_NB && OnBoardOnly(occ)
    ensures AttackersTo(f, sq, occ, c) != {} <==> exists p: nat :: IsAttacker(f.board, c, p, sq, occ)
  {
    hide AttackersTo, IsAttacker, ColorSets, TypeSets, LanceReach, RookReach, BishopReach;
    if AttackersTo(f, sq, occ, c) != {} {
      var p :| p in AttackersTo(f, sq, occ, c);
      AttackersAre(f, sq, occ, c, p);
    }
    if p: nat :| IsAttacker(f.board, c, p, sq, occ) {
      AttackersAre(f, sq, occ, c, p);
    }
  }

  lemma BlockedReachesLess(sq: nat, occ: set<nat>, c: Color)
    requires sq < SQUARE_NB
    ensures LanceReach(c, sq, occ) <= LanceReach(c, sq, {})
    ensures RookReach(sq, occ) <= RookReach(sq, {}) && BishopReach(sq, occ) <= BishopReach(sq, {})
  {
    forall df: int, dr: int | IsDirection(df, dr)
      ensures Walk(RayFrom(sq, df, dr), occ) <= Walk(RayFrom(sq, df, dr), {})
    {
      WalkShrinks(RayFrom(sq, df, dr), occ);
    }
  }

  lemma {:induction false} WalkShrinks(ray: seq<nat>, occ: set<nat>)
    ensures Walk(ray, occ) <= Walk(ray, {})
  {
    if ray != [] {
      WalkShrinks(ray[1..], occ);
    }
  }
}
