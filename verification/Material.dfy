/** Conservation of material: a captured piece goes to the captor's hand, turned back, and
    nothing else ever enters or leaves the game. */
module Material {
  import opened Shogi
  import opened BoardState
  import Sennichite

  /** A piece of this kind, promoted or not. */
  predicate IsA(p: Piece, base: PieceType) { p.Piece? && (p.kind == base || p.kind == base + 8) }

  function On(board: seq<Piece>, c: Color, base: PieceType): set<nat> {
    set s: nat | s < |board| && IsA(board[s], base) && board[s].color == c
  }

  /** How many pieces of a kind a side has on the board and in hand. */
  function Owned(f: Full, c: Color, base: PieceType): nat
    requires f.Shaped() && IsHandPiece(base)
  {
    |On(f.board, c, base)| + f.hand[Idx(c)][base]
  }

  function Captures(f: Full, m: Move, base: PieceType): nat
    requires CanMake(f, m)
  {
    if m.BoardMove? && IsA(f.board[m.to], base) then 1 else 0
  }

  function Drops(m: Move, base: PieceType): nat { if m.Drop? && m.kind == base then 1 else 0 }

  lemma OneLess(s: set<nat>, x: nat)
    ensures |s - {x}| == |s| - if x in s then 1 else 0
  {
    if x in s {
      assert s == (s - {x}) + {x};
    } else {
      assert s - {x} == s;
    }
  }

  lemma Exchanged(s: set<nat>, from: nat, to: nat)
    requires to !in s
    ensures |(s - {from}) + if from in s then {to} else {}| == |s|
  {
    OneLess(s, from);
    if from !in s {
      assert (s - {from}) + {} == s;
    }
  }

  /** A piece stays of its kind whether it promotes or not. */
  lemma LandsOfKind(f: Full, m: Move, base: PieceType)
    requires CanMake(f, m) && IsHandPiece(base)
    ensures Landing(f, m).Piece? && Landing(f, m).color == f.side
    ensures IsA(Landing(f, m), base) == if m.Drop? then m.kind == base else IsA(f.board[m.from], base)
  {
  }

  lemma AfterDrop(f: Full, m: Move, base: PieceType)
    requires CanMake(f, m) && m.Drop? && IsHandPiece(base)
    ensures On(BoardAfter(f, m), f.side, base) == On(f.board, f.side, base) + if m.kind == base then {m.to} else {}
    ensures On(BoardAfter(f, m), f.side.Other(), base) == On(f.board, f.side.Other(), base)
    ensures m.to !in On(f.board, f.side, base)
  {
    LandsOfKind(f, m, base);
    hide Landing, IsA;
    assert BoardAfter(f, m) == f.board[m.to := Landing(f, m)];
  }

  lemma AfterMove(f: Full, m: Move, base: PieceType)
    requires CanMake(f, m) && m.BoardMove? && IsHandPiece(base)
    ensures On(BoardAfter(f, m), f.side, base) ==
            (On(f.board, f.side, base) - {m.from}) + if m.from in On(f.board, f.side, base) then {m.to} else {}
    ensures On(BoardAfter(f, m), f.side.Other(), base) == On(f.board, f.side.Other(), base) - {m.to}
    ensures m.to !in On(f.board, f.side, base) && (Captures(f, m, base) == 1 <==> m.to in On(f.board, f.side.Other(), base))
  {
    LandsOfKind(f, m, base);
    hide Landing, IsA;
    assert BoardAfter(f, m) == f.board[m.from := NoPiece][m.to := Landing(f, m)];
  }

  lemma CountsOf(f: Full, m: Move, base: PieceType)
    requires CanMake(f, m)
    ensures Captures(f, m, base) <= 1 && Drops(m, base) <= 1
    ensures m.Drop? ==> Captures(f, m, base) == 0 && (Drops(m, base) == 1 <==> m.kind == base)
    ensures m.BoardMove? ==> Drops(m, base) == 0
  {
  }

  /** The pieces of a kind on the board after a move: the mover's one changes its square, and a
      captured one is gone. */
  lemma OnBoardAfter(f: Full, m: Move, base: PieceType)
    requires CanMake(f, m) && IsHandPiece(base)
    ensures |On(BoardAfter(f, m), f.side, base)| == |On(f.board, f.side, base)| + Drops(m, base)
    ensures |On(BoardAfter(f, m), f.side.Other(), base)| == |On(f.board, f.side.Other(), base)| - Captures(f, m, base)
  {
    hide *;
    CountsOf(f, m, base);
    if m.Drop? {
      AfterDrop(f, m, base);
      assert m.kind != base ==> On(f.board, f.side, base) + {} == On(f.board, f.side, base);
    } else {
      AfterMove(f, m, base);
      Exchanged(On(f.board, f.side, base), m.from, m.to);
      OneLess(On(f.board, f.side.Other(), base), m.to);
    }
  }

  lemma HandsAfter(f: Full, m: Move, base: PieceType)
    requires CanMake(f, m) && IsHandPiece(base)
    ensures |HandAfter(f, m)| == 8 && HandAfter(f, m)[base] == f.hand[Idx(f.side)][base] + Captures(f, m, base) - Drops(m, base)
  {
  }

  /** What a move does to the material: the mover gains what it captures and the opponent loses
      it, kind by kind, and only the mover's hand changes. */
  lemma {:induction false} MoveConservesMaterial(z: Zobrist, f: Full, m: Move, aux: bool, gave: bool, base: PieceType)
    requires CanMake(f, m) && IsHandPiece(base)
    ensures var g, us, them := Made(z, f, m, aux, gave), f.side, f.side.Other();
            && Owned(g, us, base) == Owned(f, us, base) + Captures(f, m, base)
            && Owned(g, them, base) == Owned(f, them, base) - Captures(f, m, base)
            && g.hand[Idx(us)][base] == f.hand[Idx(us)][base] + Captures(f, m, base) - Drops(m, base)
            && g.hand[Idx(them)] == f.hand[Idx(them)]
  {
    hide ColorSets, TypeSets, HashOf, BoardAfter, HandAfter, On, Captures, CanMake;
    MoveMakes(z, f, m, aux, gave);
    OnBoardAfter(f, m, base);
    HandsAfter(f, m, base);
  }

  lemma MoveMakes(z: Zobrist, f: Full, m: Move, aux: bool, gave: bool)
    requires CanMake(f, m)
    ensures f.Shaped() && Made(z, f, m, aux, gave).board == BoardAfter(f, m)
    ensures Made(z, f, m, aux, gave).hand == f.hand[Idx(f.side) := HandAfter(f, m)]
  {
    hide ColorSets, TypeSets, HashOf, BoardAfter, HandAfter;
  }

  /** Both sides together. */
  function InGame(f: Full, base: PieceType): nat
    requires f.Shaped() && IsHandPiece(base)
  {
    Owned(f, Black, base) + Owned(f, White, base)
  }

  /** Every kind keeps its number. */
  ghost predicate SameMaterial(f: Full, g: Full) {
    f.Shaped() && g.Shaped() && forall base: PieceType | IsHandPiece(base) :: InGame(g, base) == InGame(f, base)
  }

  lemma MoveKeepsMaterial(z: Zobrist, f: Full, m: Move, aux: bool, gave: bool)
    requires CanMake(f, m)
    ensures SameMaterial(f, Made(z, f, m, aux, gave))
  {
    MoveMakes(z, f, m, aux, gave);
    hide Made, Owned, CanMake;
    forall base: PieceType | IsHandPiece(base)
      ensures f.Shaped() && InGame(Made(z, f, m, aux, gave), base) == InGame(f, base)
    {
      MoveConservesMaterial(z, f, m, aux, gave, base);
    }
  }

  /** Over a whole record of moves and take-backs every kind keeps its number. */
  lemma {:induction false} RecordKeepsMaterial(z: Zobrist, past: seq<Sennichite.Ply>, now: Full, i: nat, base: PieceType)
    requires Sennichite.IsRecord(z, past, now) && i < |past| && IsHandPiece(base)
    ensures past[i].before.Shaped() && now.Shaped() && InGame(now, base) == InGame(past[i].before, base)
    decreases |past|
  {
    hide Made, Owned, CanMake;
    var last := past[|past| - 1];
    MoveConservesMaterial(z, last.before, last.move, true, last.gave, base);
    if i < |past| - 1 {
      RecordKeepsMaterial(z, past[..|past| - 1], last.before, i, base);
    }
  }
}
