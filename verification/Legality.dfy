/** The rules of legal moves, and why blockers and lines decide them: a move leaves the own
    king unattacked exactly when it meets every check and no pinned piece leaves its line. */
module Legality {
  import opened Shogi
  import opened Qugiy
  import opened Geometry
  import opened BoardState
  import opened Attacks

  // ----- the rules -----

  const NO_KEYS := Zobrist((p: Piece, s: nat) => 0, (c: Color, t: PieceType, n: nat) => 0, 0)

  /** The position after a move; keys and counters play no part. */
  function After(f: Full, m: Move): (r: Full)
    requires CanMake(f, m)
    ensures r.Shaped()
  {
    Made(NO_KEYS, f, m, false, false)
  }

  function RelativeRank(sq: nat, c: Color): int { if c.Black? then RankOf(sq) else 8 - RankOf(sq) }

  predicate InPromotionZone(sq: nat, c: Color) { if c.Black? then RankOf(sq) <= 2 else RankOf(sq) >= 6 }

  predicate MayPromote(t: PieceType, c: Color, from: nat, to: nat) {
    CanPromote(t) && (InPromotionZone(from, c) || InPromotionZone(to, c))
  }

  /** A pawn, lance or knight that could never move again has to promote. */
  predicate MustPromote(t: PieceType, c: Color, to: nat) {
    if t == KNIGHT then RelativeRank(to, c) <= 1 else (t == PAWN || t == LANCE) && RelativeRank(to, c) == 0
  }

  predicate HasPawnOnFile(board: seq<Piece>, c: Color, sq: nat) {
    exists s: nat | s < |board| :: FileOf(s) == FileOf(sq) && board[s] == Piece(c, PAWN)
  }

  /** The way pieces move and drop, before asking about kings. */
  predicate PseudoLegal(f: Full, m: Move)
    requires f.Shaped()
  {
    && m.OnBoard()
    && match m
       case BoardMove(from, to, promotion) =>
         && f.board[from].Piece? && f.board[from].color == f.side && to !in f.byColor[Idx(f.side)]
         && to in PieceAttacks(f.board[from].kind, f.side, from, Occupied(f))
         && (if promotion then MayPromote(f.board[from].kind, f.side, from, to) else !MustPromote(f.board[from].kind, f.side, to))
       case Drop(kind, to) =>
         && IsHandPiece(kind) && f.hand[Idx(f.side)][kind] > 0 && f.board[to].NoPiece?
         && !MustPromote(kind, f.side, to) && (kind == PAWN ==> !HasPawnOnFile(f.board, f.side, to))
  }

  /** Both kings are on the board, where the cache says. */
  ghost predicate Ready(f: Full) {
    && Agrees(f) && KingsKnown(f.board, f.kingSq)
    && forall c: Color :: f.kingSq[Idx(c)] < SQUARE_NB && f.board[f.kingSq[Idx(c)]] == Piece(c, KING)
  }

  ghost predicate InCheck(f: Full, c: Color)
    requires f.Shaped() && f.kingSq[Idx(c)] < SQUARE_NB
  {
    exists p: nat :: IsAttacker(f.board, c.Other(), p, f.kingSq[Idx(c)], Occupied(f))
  }

  /** The move is a pawn drop that attacks the king. */
  predicate DropsPawnWithCheck(f: Full, m: Move)
    requires f.Shaped()
  {
    m.Drop? && m.kind == PAWN && f.kingSq[Idx(f.side.Other())] in StepSet(m.to, PawnSteps(f.side))
  }

  ghost function Empties(board: seq<Piece>): nat { |set s: nat | s < |board| && board[s].NoPiece?| }

  /** A legal move: pieces move as they may, the own king is not left attacked, and a pawn is
      not dropped to give mate. */
  ghost predicate Legal(f: Full, m: Move)
    requires Ready(f)
    decreases Empties(f.board), 0
  {
    && PseudoLegal(f, m)
    && (PseudoIsMakeable(f, m); KeepsShape(f, m); !InCheck(After(f, m), f.side))
    && (DropsPawnWithCheck(f, m) ==> (PseudoIsMakeable(f, m); DropKeepsReady(f, m); DropFills(f, m); !Mated(After(f, m))))
  }

  /** No legal move is left. */
  ghost predicate Mated(f: Full)
    requires Ready(f)
    decreases Empties(f.board), 1
  {
    forall m: Move :: !Legal(f, m)
  }

  // ----- pseudo-legal moves can be made -----

  lemma AgreedBoards(f: Full, s: nat)
    requires Agrees(f) && s < SQUARE_NB
    ensures forall c: Color :: s in f.byColor[Idx(c)] <==> f.board[s].Piece? && f.board[s].color == c
  {
  }

  lemma PseudoIsMakeable(f: Full, m: Move)
    requires Agrees(f) && PseudoLegal(f, m)
    ensures CanMake(f, m)
  {
    hide PieceAttacks, ColorSets, TypeSets, MustPromote;
    if m.BoardMove? {
      AgreedBoards(f, m.to);
      OccupiedOnBoard(f);
      AttacksAre(f.board[m.from].kind, f.side, m.from, m.to, Occupied(f));
      NeverToItself(f.board[m.from].kind, f.side, m.from);
    }
  }

  lemma NeverToItself(t: PieceType, c: Color, a: nat)
    ensures !Reaches(t, c, a, a)
  {
  }

  lemma AfterAgrees(f: Full, m: Move)
    requires CanMake(f, m)
    ensures Agrees(After(f, m))
  {
    hide ColorSets, TypeSets, BoardAfter, HandAfter, Landing, CanMake;
  }

  lemma KeepsShape(f: Full, m: Move)
    requires Ready(f) && CanMake(f, m)
    ensures After(f, m).Shaped() && After(f, m).kingSq[Idx(f.side)] < SQUARE_NB
  {
    hide ColorSets, TypeSets, KingsKnown;
  }

  lemma DropKeepsReady(f: Full, m: Move)
    requires Ready(f) && CanMake(f, m) && m.Drop?
    ensures Ready(After(f, m))
  {
    MadeKnowsKings(NO_KEYS, f, m, false, false);
    AfterAgrees(f, m);
    hide ColorSets, TypeSets, KingsKnown, Agrees;
    assert Agrees(f);
    DropKeepsKings(f, m);
  }

  lemma DropKeepsKings(f: Full, m: Move)
    requires Ready(f) && CanMake(f, m) && m.Drop?
    ensures forall c: Color :: After(f, m).kingSq[Idx(c)] < SQUARE_NB && After(f, m).board[After(f, m).kingSq[Idx(c)]] == Piece(c, KING)
  {
    hide ColorSets, TypeSets, KingsKnown;
  }

  lemma DropFills(f: Full, m: Move)
    requires CanMake(f, m) && m.Drop?
    ensures Empties(After(f, m).board) < Empties(f.board)
  {
    hide ColorSets, TypeSets;
    var was := set s: nat | s < |f.board| && f.board[s].NoPiece?;
    var now := set s: nat | s < |After(f, m).board| && After(f, m).board[s].NoPiece?;
    assert now == was - {m.to} && m.to in was;
  }

  // ----- attacks in terms of lines -----

  /** A piece of colour c on p reaches the square over an empty path. */
  ghost predicate Hits(board: seq<Piece>, c: Color, p: nat, sq: nat, occ: set<nat>) {
    p < |board| && p < SQUARE_NB && board[p].Piece? && board[p].color == c && Reaches(board[p].kind, c, p, sq) && Clear(p, sq, occ)
  }

  lemma AttackerHits(board: seq<Piece>, c: Color, p: nat, sq: nat, occ: set<nat>)
    requires sq < SQUARE_NB && OnBoardOnly(occ)
    ensures IsAttacker(board, c, p, sq, occ) <==> Hits(board, c, p, sq, occ)
  {
    hide PieceAttacks, Reaches, Clear;
    if p < |board| && p < SQUARE_NB && board[p].Piece? {
      AttacksAre(board[p].kind, c, p, sq, occ);
    }
  }

  /** The piece on p would attack the square if it were not for exactly one piece, on s. */
  ghost predicate Pins(board: seq<Piece>, enemy: Color, p: nat, k: nat, s: nat, occ: set<nat>) {
    && p < |board| && p < SQUARE_NB && board[p].Piece? && board[p].color == enemy && Reaches(board[p].kind, enemy, p, k)
    && Between(k, p) * occ == {s}
  }

  ghost predicate IsBlocker(board: seq<Piece>, enemy: Color, k: nat, s: nat, occ: set<nat>) {
    exists p: nat :: Pins(board, enemy, p, k, s, occ)
  }

  lemma ClearIsEmpty(a: nat, b: nat, occ: set<nat>)
    requires OnBoardOnly(occ)
    ensures Clear(a, b, occ) <==> Between(b, a) * occ == {}
  {
    hide IsBetween;
    forall s | s in occ
      ensures IsBetween(a, s, b) == IsBetween(b, s, a)
    {
      BetweenBack(a, s, b);
    }
    if Between(b, a) * occ == {} {
      forall s | s in occ
        ensures !IsBetween(a, s, b)
      {
        assert s !in Between(b, a) * occ;
      }
    }
  }

  /** A piece leaves `from` for `to` without passing over anything; the line of p to k is clear
      afterwards exactly when it was clear and stays so, or when the mover alone blocked it and
      has left the line. */
  lemma {:induction false} LineOpens(k: nat, p: nat, from: nat, to: nat, occ: set<nat>)
    requires k < SQUARE_NB && p < SQUARE_NB && from < SQUARE_NB && to < SQUARE_NB && OnBoardOnly(occ)
    requires k in occ && p in occ && from in occ && k != from && p != from && k != to && p != to && from != to
    requires Clear(from, to, occ)
    ensures Clear(p, k, occ - {from} + {to}) <==>
            (Clear(p, k, occ) && !IsBetween(k, to, p)) || (Between(k, p) * occ == {from} && !OnLine(from, to, k))
  {
    hide IsBetween, OnLine, Clear;
    ClearIsEmpty(p, k, occ);
    ClearIsEmpty(p, k, occ - {from} + {to});
    var was, now := Between(k, p) * occ, Between(k, p) * (occ - {from} + {to});
    assert IsBetween(k, to, p) <==> to in now;
    if was == {from} {
      assert from in Between(k, p);
      StaysOrLeaves(k, p, from, to, occ);
      assert now == if IsBetween(k, to, p) then {to} else {};
    } else if now == {} {
      assert was <= {from};
      assert was == {};
    }
  }

  /** The only blocker moves: it keeps blocking exactly when it stays on the line. */
  lemma StaysOrLeaves(k: nat, p: nat, from: nat, to: nat, occ: set<nat>)
    requires k in occ && p in occ && k != to && p != to && from != to && IsBetween(k, from, p) && Clear(from, to, occ)
    ensures IsBetween(k, to, p) <==> OnLine(from, to, k)
  {
    hide FileOf, RankOf, Dist, Files, Ranks;
    LineBack(from, to, k);
    if OnLine(k, to, from) {
      if SameWay(k, to, from) {
        SameWayAgain(k, to, from, p);
        OneIsNearer(k, to, p);
        if IsBetween(k, p, to) {
          PastTheNearer(k, from, p, to);
          assert false;
        }
      } else {
        AcrossPasses(k, to, from);
        BetweenBack(to, k, from);
        assert false;
      }
    }
    if IsBetween(k, to, p) {
      assert SameWay(k, to, from);
    }
  }

  lemma SameWayAgain(k: nat, to: nat, from: nat, p: nat)
    requires SameWay(k, to, from) && IsBetween(k, from, p)
    ensures SameWay(k, to, p)
  {
  }

  // ----- what a move changes -----

  lemma MoveOccupies(f: Full, m: Move)
    requires Agrees(f) && CanMake(f, m)
    ensures Occupied(After(f, m)) == (if m.BoardMove? then Occupied(f) - {m.from} else Occupied(f)) + {m.to}
    ensures OnBoardOnly(Occupied(After(f, m))) && OnBoardOnly(Occupied(f))
  {
    AfterAgrees(f, m);
    OccupiedOnBoard(f);
    OccupiedOnBoard(After(f, m));
    hide Agrees, Occupied, ColorSets, TypeSets;
    forall s: nat | s < SQUARE_NB
      ensures s in Occupied(After(f, m)) <==> s in ((if m.BoardMove? then Occupied(f) - {m.from} else Occupied(f)) + {m.to})
    {
      OccupiedAre(f, s);
      OccupiedAre(After(f, m), s);
    }
  }

  /** Enemy pieces stay, but for the one captured. */
  lemma EnemyAfter(f: Full, m: Move, p: nat)
    requires CanMake(f, m) && p < SQUARE_NB
    ensures After(f, m).board[p].Piece? && After(f, m).board[p].color == f.side.Other() <==>
            p != m.to && f.board[p].Piece? && f.board[p].color == f.side.Other()
    ensures p != m.to && f.board[p].Piece? && f.board[p].color == f.side.Other() ==> After(f, m).board[p] == f.board[p]
  {
    hide ColorSets, TypeSets;
  }

  lemma HitsAfter(f: Full, m: Move, p: nat, sq: nat)
    requires CanMake(f, m)
    ensures Hits(After(f, m).board, f.side.Other(), p, sq, Occupied(After(f, m))) <==>
            p < SQUARE_NB && p != m.to && f.board[p].Piece? && f.board[p].color == f.side.Other()
            && Reaches(f.board[p].kind, f.side.Other(), p, sq) && Clear(p, sq, Occupied(After(f, m)))
  {
    hide Clear, Reaches, Made, Occupied, CanMake;
    if p < SQUARE_NB {
      EnemyAfter(f, m, p);
    }
  }

  // ----- king moves -----

  lemma EndsDoNotMatter(a: nat, b: nat, occ: set<nat>, occ': set<nat>)
    requires forall s | s != a && s != b :: s in occ <==> s in occ'
    ensures Clear(a, b, occ) == Clear(a, b, occ')
  {
    hide FileOf, RankOf;
  }

  /** A king may go where nothing attacks it once it has left its square. */
  lemma {:induction false} KingMoveSafety(f: Full, m: Move)
    requires Ready(f) && PseudoLegal(f, m) && m.BoardMove? && m.from == f.kingSq[Idx(f.side)] && CanMake(f, m)
    ensures After(f, m).kingSq[Idx(f.side)] == m.to
    ensures InCheck(After(f, m), f.side) <==>
            exists p: nat :: IsAttacker(f.board, f.side.Other(), p, m.to, Occupied(f) - {m.from})
  {
    KingLands(f, m);
    MoveOccupies(f, m);
    hide Ready, PseudoLegal, Made, Hits, IsAttacker, Occupied, CanMake;
    var g, them := After(f, m), f.side.Other();
    forall p: nat
      ensures IsAttacker(g.board, them, p, m.to, Occupied(g)) <==> IsAttacker(f.board, them, p, m.to, Occupied(f) - {m.from})
    {
      AttackerHits(g.board, them, p, m.to, Occupied(g));
      AttackerHits(f.board, them, p, m.to, Occupied(f) - {m.from});
      KingSeesSame(f, m, p);
    }
    assert InCheck(g, f.side) <==> exists p: nat :: IsAttacker(g.board, them, p, m.to, Occupied(g));
  }

  lemma KingLands(f: Full, m: Move)
    requires Ready(f) && CanMake(f, m) && m.BoardMove? && m.from == f.kingSq[Idx(f.side)]
    ensures After(f, m).kingSq[Idx(f.side)] == m.to && m.to < SQUARE_NB && Agrees(f)
  {
    hide ColorSets, TypeSets, KingsKnown;
  }

  lemma KingSeesSame(f: Full, m: Move, p: nat)
    requires CanMake(f, m) && m.BoardMove? && OnBoardOnly(Occupied(f))
    requires Occupied(After(f, m)) == Occupied(f) - {m.from} + {m.to}
    ensures Hits(After(f, m).board, f.side.Other(), p, m.to, Occupied(After(f, m))) <==>
            Hits(f.board, f.side.Other(), p, m.to, Occupied(f) - {m.from})
  {
    HitsAfter(f, m, p, m.to);
    EndsDoNotMatter(p, m.to, Occupied(f) - {m.from}, Occupied(After(f, m)));
    hide Made, Occupied, Clear, Reaches;
    if p < SQUARE_NB && f.board[p].Piece? {
      NeverToItself(f.board[p].kind, f.side.Other(), m.to);
    }
  }

  // ----- moves of other pieces -----

  /** Whether a move to this square meets the check from p: it captures or interposes. */
  predicate Meets(k: nat, to: nat, p: nat) { to == p || IsBetween(k, to, p) }

  /** Every check is met. */
  ghost predicate MeetsChecks(f: Full, to: nat)
    requires f.Shaped() && f.kingSq[Idx(f.side)] < SQUARE_NB
  {
    var k := f.kingSq[Idx(f.side)];
    forall p: nat | IsAttacker(f.board, f.side.Other(), p, k, Occupied(f)) :: Meets(k, to, p)
  }

  /** A piece that alone shields the king stays on its line. */
  ghost predicate KeepsLine(f: Full, from: nat, to: nat)
    requires f.Shaped() && f.kingSq[Idx(f.side)] < SQUARE_NB
  {
    var k := f.kingSq[Idx(f.side)];
    IsBlocker(f.board, f.side.Other(), k, from, Occupied(f)) ==> OnLine(from, to, k)
  }

  /** Legality by pins: a move of another piece leaves the king safe exactly when it meets every
      check and keeps the mover on its line if it is pinned. */
  lemma {:induction false} BoardMoveSafety(f: Full, m: Move)
    requires Ready(f) && PseudoLegal(f, m) && m.BoardMove? && m.from != f.kingSq[Idx(f.side)] && CanMake(f, m)
    ensures After(f, m).kingSq[Idx(f.side)] == f.kingSq[Idx(f.side)]
    ensures InCheck(After(f, m), f.side) <==> !(MeetsChecks(f, m.to) && KeepsLine(f, m.from, m.to))
  {
    KingStays(f, m);
    MoveOccupies(f, m);
    hide Ready, PseudoLegal, Made, Hits, IsAttacker, Occupied, CanMake, Pins, Meets, OnLine;
    var g, them, k := After(f, m), f.side.Other(), f.kingSq[Idx(f.side)];
    forall p: nat
      ensures IsAttacker(g.board, them, p, k, Occupied(g)) <==>
              (IsAttacker(f.board, them, p, k, Occupied(f)) && !Meets(k, m.to, p)) || (Pins(f.board, them, p, k, m.from, Occupied(f)) && !OnLine(m.from, m.to, k))
    {
      AttackerHits(g.board, them, p, k, Occupied(g));
      AttackerHits(f.board, them, p, k, Occupied(f));
      OneAttackerAfter(f, m, p);
    }
    assert InCheck(g, f.side) <==> exists p: nat :: IsAttacker(g.board, them, p, k, Occupied(g));
  }

  lemma KingStays(f: Full, m: Move)
    requires Ready(f) && CanMake(f, m) && (m.BoardMove? ==> m.from != f.kingSq[Idx(f.side)])
    ensures After(f, m).kingSq == f.kingSq && f.kingSq[Idx(f.side)] < SQUARE_NB && Agrees(f)
    ensures f.kingSq[Idx(f.side)] in Occupied(f) && m.to != f.kingSq[Idx(f.side)]
  {
    OccupiedAre(f, f.kingSq[Idx(f.side)]);
    hide ColorSets, TypeSets, Occupied;
    if IsKing(Landing(f, m)) {
      assert false;
    }
  }

  lemma OneAttackerAfter(f: Full, m: Move, p: nat)
    requires Ready(f) && PseudoLegal(f, m) && CanMake(f, m) && m.BoardMove? && m.from != f.kingSq[Idx(f.side)]
    requires OnBoardOnly(Occupied(f)) && Occupied(After(f, m)) == Occupied(f) - {m.from} + {m.to}
    ensures var k, them := f.kingSq[Idx(f.side)], f.side.Other();
            Hits(After(f, m).board, them, p, k, Occupied(After(f, m))) <==>
            (Hits(f.board, them, p, k, Occupied(f)) && !Meets(k, m.to, p)) || (Pins(f.board, them, p, k, m.from, Occupied(f)) && !OnLine(m.from, m.to, k))
  {
    var k, them := f.kingSq[Idx(f.side)], f.side.Other();
    HitsAfter(f, m, p, k);
    KingStays(f, m);
    PathIsClear(f, m);
    hide Made, Occupied, Clear, Reaches, IsBetween, OnLine, Ready, PseudoLegal, PieceAttacks, Between;
    if p < SQUARE_NB && f.board[p].Piece? && f.board[p].color == them && Reaches(f.board[p].kind, them, p, k) {
      if p == m.to {
        PinnerOnLine(f.board, them, p, k, m.from, Occupied(f));
      } else {
        OccupiedAre(f, p);
        LineOpens(k, p, m.from, m.to, Occupied(f));
      }
    }
  }

  lemma PinnerOnLine(board: seq<Piece>, enemy: Color, p: nat, k: nat, s: nat, occ: set<nat>)
    ensures Pins(board, enemy, p, k, s, occ) ==> OnLine(s, p, k)
  {
    hide FileOf, RankOf, Reaches;
    if Pins(board, enemy, p, k, s, occ) {
      assert s in Between(k, p);
      LineBack(k, p, s);
    }
  }

  lemma PathIsClear(f: Full, m: Move)
    requires Agrees(f) && PseudoLegal(f, m) && m.BoardMove? && CanMake(f, m)
    ensures Clear(m.from, m.to, Occupied(f)) && m.from in Occupied(f)
  {
    OccupiedOnBoard(f);
    OccupiedAre(f, m.from);
    AttacksAre(f.board[m.from].kind, f.side, m.from, m.to, Occupied(f));
    hide Clear, Occupied, Reaches, PieceAttacks;
  }

  // ----- drops -----

  /** A drop leaves the king safe exactly when it interposes against every check. */
  lemma {:induction false} DropSafety(f: Full, m: Move)
    requires Ready(f) && PseudoLegal(f, m) && m.Drop? && CanMake(f, m)
    ensures After(f, m).kingSq[Idx(f.side)] == f.kingSq[Idx(f.side)]
    ensures InCheck(After(f, m), f.side) <==> !MeetsChecks(f, m.to)
  {
    KingStays(f, m);
    MoveOccupies(f, m);
    hide Ready, PseudoLegal, Made, Hits, IsAttacker, Occupied, CanMake, Meets;
    var g, them, k := After(f, m), f.side.Other(), f.kingSq[Idx(f.side)];
    forall p: nat
      ensures IsAttacker(g.board, them, p, k, Occupied(g)) <==> IsAttacker(f.board, them, p, k, Occupied(f)) && !Meets(k, m.to, p)
    {
      AttackerHits(g.board, them, p, k, Occupied(g));
      AttackerHits(f.board, them, p, k, Occupied(f));
      DropBlocks(f, m, p);
    }
    assert InCheck(g, f.side) <==> exists p: nat :: IsAttacker(g.board, them, p, k, Occupied(g));
  }

  lemma DropBlocks(f: Full, m: Move, p: nat)
    requires Ready(f) && CanMake(f, m) && m.Drop? && OnBoardOnly(Occupied(f)) && Occupied(After(f, m)) == Occupied(f) + {m.to}
    ensures var k, them := f.kingSq[Idx(f.side)], f.side.Other();
            Hits(After(f, m).board, them, p, k, Occupied(After(f, m))) <==> Hits(f.board, them, p, k, Occupied(f)) && !Meets(k, m.to, p)
  {
    var k, them := f.kingSq[Idx(f.side)], f.side.Other();
    HitsAfter(f, m, p, k);
    BetweenBack(k, m.to, p);
    hide Made, Occupied, Reaches, IsBetween, Ready;
  }

  // ----- several checks -----

  /** No single move meets two checks. */
  lemma {:induction false} TwoChecksCannotBeMet(f: Full, to: nat, p: nat, q: nat)
    requires Ready(f) && p != q
    requires IsAttacker(f.board, f.side.Other(), p, f.kingSq[Idx(f.side)], Occupied(f))
    requires IsAttacker(f.board, f.side.Other(), q, f.kingSq[Idx(f.side)], Occupied(f))
    ensures !MeetsChecks(f, to)
  {
    var k, them := f.kingSq[Idx(f.side)], f.side.Other();
    OccupiedOnBoard(f);
    AttackerHits(f.board, them, p, k, Occupied(f));
    AttackerHits(f.board, them, q, k, Occupied(f));
    OccupiedAre(f, p);
    OccupiedAre(f, q);
    hide Occupied, IsAttacker, Ready, Reaches;
    if MeetsChecks(f, to) {
      assert Meets(k, to, p) && Meets(k, to, q);
      NotBoth(k, to, p, q, Occupied(f));
      assert false;
    }
  }

  lemma NotBoth(k: nat, to: nat, p: nat, q: nat, occ: set<nat>)
    requires p != q && p in occ && q in occ && Clear(p, k, occ) && Clear(q, k, occ)
    ensures !(Meets(k, to, p) && Meets(k, to, q))
  {
    hide FileOf, RankOf, Dist, Files, Ranks;
    ClearBack(p, k, occ);
    ClearBack(q, k, occ);
    if IsBetween(k, to, p) && IsBetween(k, to, q) {
      assert SameWay(k, p, q);
      OneIsNearer(k, p, q);
    }
  }
}
