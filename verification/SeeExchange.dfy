/** The exchange on a real board: its attackers are the pieces that attack the square as the
    occupancy shrinks, and the cheapest of them captures. */
module SeeExchange {
  import opened Shogi
  import opened BoardState
  import opened Attacks
  import See

  /** The board as the exchange evaluation reads it. */
  function OfBoard(f: Full): See.SeeBoard
    requires f.Shaped()
  {
    See.SeeBoard(f.board, f.side, (sq: nat, occ: set<nat>, c: Color) => if f.Shaped() && sq < SQUARE_NB then AttackersTo(f, sq, occ, c) else {})
  }

  lemma SameOccupied(f: Full)
    requires Agrees(f)
    ensures See.Valid(OfBoard(f)) && See.Occupied(OfBoard(f)) == Occupied(f)
  {
    hide Occupied, ColorSets, TypeSets;
    forall s: nat
      ensures s in See.Occupied(OfBoard(f)) <==> s in Occupied(f)
    {
      OccupiedAre(f, s);
    }
  }

  /** The attackers at every stage of the exchange are the pieces still there that attack the
      square past those already gone. */
  lemma {:induction false} AttackersAreReal(f: Full, to: nat, occ: set<nat>, c: Color, s: nat)
    requires Agrees(f) && to < SQUARE_NB && OnBoardOnly(occ)
    ensures s in See.Attackers(OfBoard(f), to, occ, c) <==> s in occ && IsAttacker(f.board, c, s, to, occ)
  {
    hide AttackersTo, ColorSets, TypeSets, IsAttacker;
    AttackersAre(f, to, occ, c, s);
  }

  /** The capturer is one of them and none is worth less, unless it is a rook beside a horse. */
  lemma {:induction false} CapturerIsCheapest(f: Full, to: nat, occ: set<nat>, c: Color, s: nat)
    requires Agrees(f) && to < SQUARE_NB && OnBoardOnly(occ) && s in occ && IsAttacker(f.board, c, s, to, occ)
    ensures var t := See.LeastValuable(OfBoard(f), See.Attackers(OfBoard(f), to, occ, c), c, 0);
            && (exists a: nat :: a in occ && IsAttacker(f.board, c, a, to, occ) && f.board[a].kind == t)
            && (See.SeeValue(t) <= See.SeeValue(f.board[s].kind) <==> !(t == ROOK && f.board[s].kind == HORSE))
  {
    var p := OfBoard(f);
    var attackers := See.Attackers(p, to, occ, c);
    AttackersAreReal(f, to, occ, c, s);
    MovesAtAll(f.board[s].kind, c, s, to, occ);
    See.ChosenIsCheapest(p, attackers, c, s);
    var t := See.LeastValuable(p, attackers, c, 0);
    var a: nat :| a in See.OfType(p, attackers, c, t);
    AttackersAreReal(f, to, occ, c, a);
  }

  lemma MovesAtAll(t: PieceType, c: Color, a: nat, b: nat, occ: set<nat>)
    requires a < SQUARE_NB && b in PieceAttacks(t, c, a, occ)
    ensures 1 <= t <= 14
  {
  }
}
