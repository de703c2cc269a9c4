/** How the pieces move, said apart from the tables of their steps, and what legal moves keep
    because of it: no piece is ever stuck, and no file holds two pawns of one side. */
module Movement {
  import opened Shogi
  import opened Qugiy
  import opened Lances
  import opened Geometry
  import opened BoardState
  import opened Attacks
  import opened Legality

  predicate IsKind(t: PieceType) { 1 <= t <= 14 }

  // ----- the shapes of moves -----

  /** Farther on for this side, by any number of ranks. */
  predicate Forwards(c: Color, a: nat, b: nat) { Sign(Ranks(a, b)) == Forward(c) }

  predicate Adjacent(a: nat, b: nat) { Dist(a, b) == 1 }

  /** The king steps to every neighbour; the gold to those straight or ahead, the silver to those
      diagonal or ahead; the knight jumps two ranks ahead, off every line. */
  lemma StepShapes(c: Color, a: nat, b: nat)
    ensures Reaches(KING, c, a, b) <==> Adjacent(a, b)
    ensures Reaches(GOLD, c, a, b) <==> Adjacent(a, b) && (Straight(a, b) || Forwards(c, a, b))
    ensures Reaches(SILVER, c, a, b) <==> Adjacent(a, b) && (Diagonal(a, b) || Forwards(c, a, b))
    ensures Reaches(KNIGHT, c, a, b) <==> Dist(a, b) == 2 && !Aligned(a, b) && Forwards(c, a, b) && Abs(Ranks(a, b)) == 2
    ensures Reaches(PAWN, c, a, b) <==> Adjacent(a, b) && Reaches(LANCE, c, a, b)
    ensures Reaches(LANCE, c, a, b) <==> Reaches(ROOK, c, a, b) && Forwards(c, a, b)
  {
    hide FileOf, RankOf;
    SameSquare(a, b);
  }

  /** Exactly the six small kinds and no other turn into another one; promoted, the bishop and
      the rook gain the king's steps and the other four move like a gold. */
  lemma PromotionShapes(t: PieceType, c: Color, a: nat, b: nat)
    requires IsKind(t)
    ensures CanPromote(t) <==> !IsPromoted(t) && IsKind(Promote(t)) && Promote(t) != t
    ensures CanPromote(t) ==> IsPromoted(Promote(t)) && Unpromote(Promote(t)) == t
    ensures t in {BISHOP, ROOK} ==> (Reaches(Promote(t), c, a, b) <==> Reaches(t, c, a, b) || Adjacent(a, b))
    ensures t in {PAWN, LANCE, KNIGHT, SILVER} ==> Reaches(Promote(t), c, a, b) == Reaches(GOLD, c, a, b)
  {
    hide FileOf, RankOf;
    SameSquare(a, b);
  }

  /** Seen from the other side of the board, the other colour moves the same. */
  lemma {:induction false} ColoursMirror(t: PieceType, c: Color, a: nat, b: nat)
    requires a < SQUARE_NB && b < SQUARE_NB
    ensures Reaches(t, c, a, b) == Reaches(t, c.Other(), 80 - a, 80 - b)
  {
    assert Files(80 - a, 80 - b) == Files(b, a) && Ranks(80 - a, 80 - b) == Ranks(b, a);
    ReachesBack(t, c, a, b);
    hide FileOf, RankOf;
    SameSteps(t, c.Other(), b, a, 80 - a, 80 - b);
  }

  /** A move is a matter of file and rank differences. */
  lemma SameSteps(t: PieceType, c: Color, a: nat, b: nat, a': nat, b': nat)
    requires Files(a, b) == Files(a', b') && Ranks(a, b) == Ranks(a', b')
    ensures Reaches(t, c, a, b) == Reaches(t, c, a', b')
  {
    hide FileOf, RankOf, PawnSteps, KnightSteps, SilverSteps, GoldSteps, HorseSteps, DragonSteps, KingSteps;
    SameSquare(a, b);
    SameSquare(a', b');
  }

  // ----- ranks -----

  /** As many squares lie ahead as the relative rank says, and fewer than three in the zone. */
  lemma {:induction false} ZoneIsNearTheEnd(sq: nat, c: Color)
    requires sq < SQUARE_NB
    ensures |LanceRay(sq, c)| == RelativeRank(sq, c)
    ensures InPromotionZone(sq, c) <==> |LanceRay(sq, c)| < 3
  {
    hide Ray;
    var n := RelativeRank(sq, c);
    var f, r, d := FileOf(sq), RankOf(sq), Forward(c);
    if n > 0 {
      RayIsLong(f, r, 0, d, n);
    }
    if |LanceRay(sq, c)| > n {
      RayAt(f, r, 0, d, n);
      assert false;
    }
  }

  /** A move may promote where it starts or ends with fewer than three squares ahead. */
  lemma {:induction false} PromotesNearTheEnd(t: PieceType, c: Color, from: nat, to: nat)
    requires IsKind(t) && from < SQUARE_NB && to < SQUARE_NB
    ensures MayPromote(t, c, from, to) <==>
            !IsPromoted(t) && IsKind(Promote(t)) && Promote(t) != t && (|LanceRay(from, c)| < 3 || |LanceRay(to, c)| < 3)
  {
    hide LanceRay, InPromotionZone;
    ZoneIsNearTheEnd(from, c);
    ZoneIsNearTheEnd(to, c);
  }

  // ----- pieces that cannot move -----

  function SquareAt(file: int, rank: int): (sq: nat)
    requires InBoard(file, rank)
    ensures sq < SQUARE_NB && FileOf(sq) == file && RankOf(sq) == rank
  {
    file * 9 + rank
  }

  /** A square the piece can step to, if it can move at all. */
  function SomeStep(t: PieceType, c: Color, a: nat): (b: nat)
    requires a < SQUARE_NB && !MustPromote(t, c, a)
    ensures b < SQUARE_NB
  {
    var f, r, d := FileOf(a), RankOf(a), Forward(c);
    var side := if f < 8 then 1 else -1;
    var ahead := if InBoard(f, r + d) then d else -d;
    if t == KNIGHT then SquareAt(f + side, r + 2 * d)
    else if t in {SILVER, BISHOP, HORSE} then SquareAt(f + side, r + ahead)
    else SquareAt(f, r + ahead)
  }

  lemma SomeStepIsReached(t: PieceType, c: Color, a: nat, occ: set<nat>)
    requires a < SQUARE_NB && IsKind(t) && !MustPromote(t, c, a)
    ensures Reaches(t, c, a, SomeStep(t, c, a)) && Clear(a, SomeStep(t, c, a), occ)
  {
    var b := SomeStep(t, c, a);
    assert Ranks(a, b) == (if t == KNIGHT then 2 * Forward(c) else Ranks(a, b)) && Abs(Ranks(a, b)) <= 2;
    StepReaches(t, c, a, b);
    forall s | s in occ
      ensures !IsBetween(a, s, b)
    {
      NothingSoNear(a, s, b);
    }
  }

  lemma StepReaches(t: PieceType, c: Color, a: nat, b: nat)
    requires a < SQUARE_NB && IsKind(t) && !MustPromote(t, c, a) && b == SomeStep(t, c, a)
    ensures Reaches(t, c, a, b) && (Dist(a, b) == 1 || !Aligned(a, b))
  {
  }

  lemma NothingSoNear(a: nat, s: nat, b: nat)
    requires Dist(a, b) == 1 || !Aligned(a, b)
    ensures !IsBetween(a, s, b)
  {
    hide FileOf, RankOf;
    SameSquare(a, s);
  }

  /** The piece has no square in front of it that it could ever go to. */
  lemma NoWayAhead(t: PieceType, c: Color, a: nat, b: nat)
    requires a < SQUARE_NB && b < SQUARE_NB && MustPromote(t, c, a)
    ensures !Reaches(t, c, a, b)
  {
  }

  /** A piece must promote exactly where it would be stuck for ever, on whatever board. */
  lemma {:induction false} MustPromoteMeansStuck(t: PieceType, c: Color, to: nat, occ: set<nat>)
    requires IsKind(t) && to < SQUARE_NB && OnBoardOnly(occ)
    ensures MustPromote(t, c, to) <==> PieceAttacks(t, c, to, occ) == {}
  {
    hide PieceAttacks, Reaches, MustPromote, Clear, SomeStep;
    if MustPromote(t, c, to) {
      forall b: nat | b in PieceAttacks(t, c, to, occ)
        ensures false
      {
        AttacksStayOnBoard(t, c, to, occ);
        AttacksAre(t, c, to, b, occ);
        NoWayAhead(t, c, to, b);
      }
    } else {
      SomeStepIsReached(t, c, to, occ);
      AttacksAre(t, c, to, SomeStep(t, c, to), occ);
    }
  }

  lemma AttacksStayOnBoard(t: PieceType, c: Color, a: nat, occ: set<nat>)
    requires a < SQUARE_NB
    ensures OnBoardOnly(PieceAttacks(t, c, a, occ))
  {
    hide RayFrom;
    forall df: int, dr: int | IsDirection(df, dr)
      ensures OnBoardOnly(Walk(RayFrom(a, df, dr), occ))
    {
      WalkStaysOn(RayFrom(a, df, dr), occ);
    }
  }

  lemma {:induction false} WalkStaysOn(ray: seq<nat>, occ: set<nat>)
    requires forall k: nat | k < |ray| :: ray[k] < SQUARE_NB
    ensures OnBoardOnly(Walk(ray, occ))
  {
    if ray != [] {
      WalkStaysOn(ray[1..], occ);
    }
  }

  // ----- what legal moves keep -----

  /** Every piece on the board could still move if the board were empty but for it. */
  ghost predicate NoneStuck(f: Full)
    requires f.Shaped()
  {
    forall s: nat | s < SQUARE_NB && f.board[s].Piece? :: IsKind(f.board[s].kind) && PieceAttacks(f.board[s].kind, f.board[s].color, s, {}) != {}
  }

  /** No side has two unpromoted pawns on one file. */
  predicate NoDoubledPawns(f: Full)
    requires f.Shaped()
  {
    forall s: nat, u: nat | s < u < SQUARE_NB && FileOf(s) == FileOf(u) && f.board[s] == f.board[u] :: f.board[s].Type() != PAWN
  }

  lemma StaysOrLands(f: Full, m: Move, s: nat)
    requires Ready(f) && PseudoLegal(f, m) && CanMake(f, m) && s < SQUARE_NB && After(f, m).board[s].Piece?
    ensures if s == m.to then After(f, m).board[s] == Landing(f, m) && !MustPromote(Landing(f, m).kind, f.side, s) && Landing(f, m).color == f.side
            else After(f, m).board[s] == f.board[s]
    ensures m.BoardMove? ==> s != m.from
  {
    hide ColorSets, TypeSets, PieceAttacks, KingsKnown;
  }

  lemma LandsAsKind(f: Full, m: Move)
    requires Ready(f) && PseudoLegal(f, m) && CanMake(f, m) && (m.BoardMove? ==> IsKind(f.board[m.from].kind))
    ensures IsKind(Landing(f, m).kind)
  {
    hide ColorSets, TypeSets, PieceAttacks, KingsKnown;
  }

  /** After a legal move the piece that landed, and every other, can still move. */
  lemma {:induction false} NoneGetsStuck(f: Full, m: Move)
    requires Ready(f) && PseudoLegal(f, m) && CanMake(f, m) && NoneStuck(f)
    ensures NoneStuck(After(f, m))
  {
    hide Ready, PseudoLegal, CanMake, After, MustPromote, PieceAttacks, Landing;
    var g := After(f, m);
    if m.BoardMove? {
      MoverIsThere(f, m);
    }
    forall s: nat | s < SQUARE_NB && g.board[s].Piece?
      ensures IsKind(g.board[s].kind) && PieceAttacks(g.board[s].kind, g.board[s].color, s, {}) != {}
    {
      StaysOrLands(f, m, s);
      if s == m.to {
        LandsAsKind(f, m);
        MustPromoteMeansStuck(g.board[s].kind, f.side, s, {});
      }
    }
  }

  lemma MoverIsThere(f: Full, m: Move)
    requires CanMake(f, m) && m.BoardMove?
    ensures m.from < SQUARE_NB && f.Shaped() && f.board[m.from].Piece? && f.board[m.from].color == f.side
  {
  }

  /** Nor does it put a second pawn of a side on a file. */
  lemma {:induction false} NoPawnDoubles(f: Full, m: Move)
    requires Ready(f) && PseudoLegal(f, m) && CanMake(f, m) && NoDoubledPawns(f)
    ensures NoDoubledPawns(After(f, m))
  {
    hide Ready, PseudoLegal, CanMake, After, MustPromote, PieceAttacks, Landing, FileOf;
    var g := After(f, m);
    forall s: nat, u: nat | s < u < SQUARE_NB && FileOf(s) == FileOf(u) && g.board[s] == g.board[u]
      ensures g.board[s].Type() != PAWN
    {
      if g.board[s].Type() == PAWN {
        StaysOrLands(f, m, s);
        StaysOrLands(f, m, u);
        if s == m.to {
          PawnLandsAlone(f, m, u);
        } else if u == m.to {
          PawnLandsAlone(f, m, s);
        }
      }
    }
  }

  /** A pawn lands on a file with no other pawn of its side besides the one it was. */
  lemma PawnLandsAlone(f: Full, m: Move, s: nat)
    requires Ready(f) && PseudoLegal(f, m) && CanMake(f, m) && Landing(f, m) == Piece(f.side, PAWN) && NoDoubledPawns(f)
    requires s < SQUARE_NB && (m.BoardMove? ==> s != m.from) && FileOf(s) == FileOf(m.to)
    ensures f.board[s] != Piece(f.side, PAWN)
  {
    hide ColorSets, TypeSets, KingsKnown, RankOf, FileOf;
    if m.BoardMove? {
      assert f.board[m.from] == Piece(f.side, PAWN) && FileOf(m.from) == FileOf(m.to);
    }
  }

  // ----- pawn drops -----

  lemma DroppedPawn(f: Full, m: Move)
    requires Ready(f) && CanMake(f, m) && m.Drop? && m.kind == PAWN
    ensures After(f, m).Shaped() && After(f, m).kingSq == f.kingSq && f.kingSq[Idx(f.side.Other())] < SQUARE_NB
    ensures After(f, m).board[m.to] == Piece(f.side, PAWN) && m.to < SQUARE_NB
    ensures forall p: nat | p < SQUARE_NB && p != m.to :: After(f, m).board[p] == f.board[p]
    ensures Occupied(After(f, m)) == Occupied(f) + {m.to} && OnBoardOnly(Occupied(f)) && OnBoardOnly(Occupied(After(f, m)))
  {
    MoveOccupies(f, m);
    hide ColorSets, TypeSets, Occupied, KingsKnown;
  }

  /** Whatever else attacks after the drop attacked before. */
  lemma AttackedBefore(board: seq<Piece>, board': seq<Piece>, c: Color, p: nat, k: nat, occ: set<nat>, to: nat)
    requires |board| == |board'| == SQUARE_NB && k < SQUARE_NB && OnBoardOnly(occ) && OnBoardOnly(occ + {to})
    requires p < SQUARE_NB ==> board'[p] == board[p]
    requires IsAttacker(board', c, p, k, occ + {to})
    ensures IsAttacker(board, c, p, k, occ)
  {
    AttackerHits(board', c, p, k, occ + {to});
    AttackerHits(board, c, p, k, occ);
    hide PieceAttacks, Reaches, IsBetween;
  }

  /** A dropped pawn can only give check itself: dropping it before the king and giving check by
      the drop are the same, as long as the king was not already attacked. */
  lemma {:induction false} DropChecksByItself(f: Full, m: Move)
    requires Ready(f) && PseudoLegal(f, m) && CanMake(f, m) && m.Drop? && m.kind == PAWN && !InCheck(f, f.side.Other())
    ensures After(f, m).Shaped() && After(f, m).kingSq[Idx(f.side.Other())] < SQUARE_NB
    ensures DropsPawnWithCheck(f, m) <==> InCheck(After(f, m), f.side.Other())
  {
    DroppedPawn(f, m);
    hide Ready, PseudoLegal, CanMake, After, Occupied, PieceAttacks, OnBoardOnly;
    var g, us, k := After(f, m), f.side, f.kingSq[Idx(f.side.Other())];
    assert us.Other().Other() == us;
    PawnAttacks(us, m.to, k, Occupied(g));
    forall p: nat | p != m.to
      ensures !IsAttacker(g.board, us, p, k, Occupied(g))
    {
      if IsAttacker(g.board, us, p, k, Occupied(g)) {
        AttackedBefore(f.board, g.board, us, p, k, Occupied(f), m.to);
      }
    }
    assert IsAttacker(g.board, us, m.to, k, Occupied(g)) <==> DropsPawnWithCheck(f, m);
  }

  lemma PawnAttacks(c: Color, to: nat, k: nat, occ: set<nat>)
    requires to < SQUARE_NB
    ensures PieceAttacks(PAWN, c, to, occ) == StepSet(to, PawnSteps(c))
  {
  }

  /** The rule: of the pawn drops that leave the own king safe, exactly those that checkmate are
      not allowed. */
  lemma {:induction false} PawnDropRule(f: Full, m: Move)
    requires Ready(f) && PseudoLegal(f, m) && CanMake(f, m) && m.Drop? && m.kind == PAWN && !InCheck(f, f.side.Other())
    ensures After(f, m).Shaped() && Ready(After(f, m))
    ensures Legal(f, m) <==> !InCheck(After(f, m), f.side) && !(InCheck(After(f, m), f.side.Other()) && Mated(After(f, m)))
  {
    DropChecksByItself(f, m);
    DropKeepsReady(f, m);
    DropFills(f, m);
    hide Ready, PseudoLegal, CanMake, After, InCheck, Mated, DropsPawnWithCheck, Empties;
  }
}
