/** Filling the tables of the squares between two squares and of the line through them. */
module LineTables {
  import opened Shogi
  import opened Bitboards
  import opened Qugiy
  import opened Geometry

  /** The bitboard holds exactly these squares and no stray bit. */
  ghost predicate IsBoardOf(b: Bitboard, s: set<nat>) { b.Valid() && Squares(b) == s && IsClean(b) }

  lemma ZeroIsEmpty()
    ensures IsBoardOf(ZeroBoard(), {})
  {
  }

  lemma OneSquareMore(b: Bitboard, squares: set<nat>, s: nat)
    requires IsBoardOf(b, squares) && s < SQUARE_NB
    ensures IsBoardOf(SetSquare(b, s), squares + {s})
  {
    hide SetSquare, Bits, Pos;
    PosInRange(s);
    forall t: nat | t < SQUARE_NB
      ensures Test(SetSquare(b, s), t) <==> t in squares + {s}
    {
      PosInRange(t);
      TestIsBit(SetSquare(b, s), t);
      TestIsBit(b, t);
      assert Test(b, t) <==> t in Squares(b);
    }
  }

  lemma UnionOfBoards(a: Bitboard, b: Bitboard, s: set<nat>, t: set<nat>)
    requires IsBoardOf(a, s) && IsBoardOf(b, t)
    ensures IsBoardOf(Or(a, b), s + t)
  {
    hide Squares, IsClean;
    OrSquares(a, b);
  }

  /** The squares in one direction, to the edge. */
  function RaySet(a: nat, df: int, dr: int): set<nat> { set s: nat | s < SQUARE_NB && InDirection(a, s, df, dr) }

  lemma RayBoard(a: nat, df: int, dr: int)
    requires a < SQUARE_NB && IsDirection(df, dr)
    ensures IsBoardOf(RayBB(RayFrom(a, df, dr)), RaySet(a, df, dr))
  {
    hide RayBB, Bits, Pos, RayFrom, InDirection, Dist;
    var ray, b := RayFrom(a, df, dr), RayBB(RayFrom(a, df, dr));
    forall s: nat | s < SQUARE_NB
      ensures Test(b, s) <==> InDirection(a, s, df, dr)
    {
      PosInRange(s);
      TestIsBit(b, s);
      BitOfRay(ray, Pos(s));
      if InDirection(a, s, df, dr) {
        ReachedOnRay(a, s, df, dr);
        assert ray[Dist(a, s) - 1] == s;
      }
      if k: nat :| k < |ray| && Pos(ray[k]) == Pos(s) {
        OnRay(a, df, dr, k);
      }
    }
    forall j: nat | j < 128 && (j == 63 || j >= 82)
      ensures !Bits(b)[j]
    {
      BitOfRay(ray, j);
      forall k: nat | k < |ray|
        ensures Pos(ray[k]) != j
      {
        PosInRange(ray[k]);
      }
    }
  }

  /** What the walk in one direction writes for a row. */
  ghost predicate DirectionFilled(was: seq<Bitboard>, now: seq<Bitboard>, a: nat, df: int, dr: int, upTo: nat, f: (nat, nat) -> set<nat>)
  {
    && |was| == |now| == SQUARE_NB
    && forall b: nat | b < SQUARE_NB ::
      if InDirection(a, b, df, dr) && Dist(a, b) < upTo then IsBoardOf(now[b], f(a, b)) else now[b] == was[b]
  }

  /** The square so many steps away, if it is still on the board. */
  lemma StepIsNext(a: nat, df: int, dr: int, k: nat, f: int, r: int)
    requires a < SQUARE_NB && IsDirection(df, dr) && k > 0 && 0 <= f < 9 && 0 <= r < 9
    requires f == FileOf(a) + Along(df, k) && r == RankOf(a) + Along(dr, k)
    ensures InDirection(a, f * 9 + r, df, dr) && Dist(a, f * 9 + r) == k < 9 && 0 <= f * 9 + r < SQUARE_NB
  {
    assert FileOf(f * 9 + r) == f && RankOf(f * 9 + r) == r;
  }

  /** No square of the direction is further than the edge. */
  lemma EdgeEnds(a: nat, df: int, dr: int, k: nat, b: nat)
    requires a < SQUARE_NB && b < SQUARE_NB && IsDirection(df, dr) && k > 0
    requires !InBoard(FileOf(a) + Along(df, k), RankOf(a) + Along(dr, k))
    ensures InDirection(a, b, df, dr) ==> Dist(a, b) < k
  {
  }

  lemma AtDistance(a: nat, b: nat, c: nat, df: int, dr: int)
    requires b < SQUARE_NB && c < SQUARE_NB && InDirection(a, b, df, dr) && InDirection(a, c, df, dr) && Dist(a, b) == Dist(a, c)
    ensures b == c
  {
    hide FileOf, RankOf;
    SameSquare(b, c);
    assert Files(a, b) == Files(a, c) && Ranks(a, b) == Ranks(a, c);
    assert Files(b, c) == 0 && Ranks(b, c) == 0;
  }

  /** The squares nearer than the next one are those between. */
  lemma NearerIsBetween(a: nat, b: nat, df: int, dr: int)
    requires InDirection(a, b, df, dr)
    ensures Nearer(a, df, dr, Dist(a, b)) == Between(a, b)
  {
    hide Dist, Files, Ranks;
  }

  function Nearer(a: nat, df: int, dr: int, k: nat): set<nat> {
    set s: nat | s < SQUARE_NB && InDirection(a, s, df, dr) && Dist(a, s) < k
  }

  lemma NearerGrows(a: nat, df: int, dr: int, b: nat)
    requires b < SQUARE_NB && InDirection(a, b, df, dr)
    ensures Nearer(a, df, dr, Dist(a, b) + 1) == Nearer(a, df, dr, Dist(a, b)) + {b}
  {
    hide InDirection, Dist;
    forall s: nat | s < SQUARE_NB && InDirection(a, s, df, dr) && Dist(a, s) == Dist(a, b)
      ensures s == b
    {
      AtDistance(a, b, s, df, dr);
    }
  }

  lemma BetweenStep(was: seq<Bitboard>, now: seq<Bitboard>, a: nat, df: int, dr: int, b: nat, ray: Bitboard, f: (nat, nat) -> set<nat>)
    requires b < SQUARE_NB && InDirection(a, b, df, dr) && DirectionFilled(was, now, a, df, dr, Dist(a, b), f)
    requires IsBoardOf(ray, Nearer(a, df, dr, Dist(a, b))) && f(a, b) == Between(a, b)
    ensures DirectionFilled(was, now[b := ray], a, df, dr, Dist(a, b) + 1, f)
    ensures IsBoardOf(SetSquare(ray, b), Nearer(a, df, dr, Dist(a, b) + 1))
  {
    hide InDirection, Dist, IsBoardOf, Nearer, SetSquare, Between;
    NearerIsBetween(a, b, df, dr);
    FillNext(was, now, a, df, dr, b, ray, f);
    NearerGrows(a, df, dr, b);
    OneSquareMore(ray, Nearer(a, df, dr, Dist(a, b)), b);
  }

  /** One row of the table of squares between. */
  method WalkBetween(row: seq<Bitboard>, f1: nat, r1: nat, df: int, dr: int) returns (row': seq<Bitboard>)
    requires f1 < 9 && r1 < 9 && IsDirection(df, dr) && |row| == SQUARE_NB
    ensures DirectionFilled(row, row', f1 * 9 + r1, df, dr, 9, (a, b) => Between(a, b))
  {
    hide *;
    ghost var a := f1 * 9 + r1;
    StartsAt(f1, r1);
    ghost var table := (a: nat, b: nat) => Between(a, b);
    row' := row;
    var ray := ZeroBoard();
    var f, r := f1 + df, r1 + dr;
    ghost var k: nat := 1;
    NothingNearer(a, df, dr);
    ZeroIsEmpty();
    NothingFilled(row, a, df, dr, table);
    AlongStarts(df, dr);
    while 0 <= f < 9 && 0 <= r < 9
      invariant k > 0 && f == f1 + Along(df, k) && r == r1 + Along(dr, k) && |row'| == SQUARE_NB && ray.Valid()
      invariant IsBoardOf(ray, Nearer(a, df, dr, k))
      invariant DirectionFilled(row, row', a, df, dr, k, table)
      decreases 10 - k
    {
      var b := f * 9 + r;
      StepIsNext(a, df, dr, k, f, r);
      BetweenStep(row, row', a, df, dr, b, ray, table);
      row' := row'[b := ray];
      ray := SetSquare(ray, b);
      AlongSteps(df, dr, k);
      f := f + df;
      r := r + dr;
      k := k + 1;
    }
    LeftBoard(f, r);
    FillEnds(row, row', a, df, dr, k, table);
  }

  lemma StartsAt(f1: nat, r1: nat)
    requires f1 < 9 && r1 < 9
    ensures f1 * 9 + r1 < SQUARE_NB && FileOf(f1 * 9 + r1) == f1 && RankOf(f1 * 9 + r1) == r1
  {
  }

  lemma BothRays(f1: nat, r1: nat, df: int, dr: int)
    requires f1 < 9 && r1 < 9 && IsDirection(df, dr)
    ensures InBoard(f1, r1) && IsDirection(-df, -dr) && f1 * 9 + r1 < SQUARE_NB
    ensures RayFrom(f1 * 9 + r1, df, dr) == Ray(f1, r1, df, dr) && RayFrom(f1 * 9 + r1, -df, -dr) == Ray(f1, r1, -df, -dr)
  {
    StartsAt(f1, r1);
  }

  lemma LeftBoard(f: int, r: int)
    requires !(0 <= f < 9 && 0 <= r < 9)
    ensures !InBoard(f, r)
  {
  }

  lemma AlongStarts(df: int, dr: int)
    requires IsDirection(df, dr)
    ensures Along(df, 1) == df && Along(dr, 1) == dr
  {
  }

  lemma AlongSteps(df: int, dr: int, k: nat)
    requires IsDirection(df, dr)
    ensures Along(df, k + 1) == Along(df, k) + df && Along(dr, k + 1) == Along(dr, k) + dr
  {
  }

  lemma DistBound(a: nat, b: nat)
    requires a < SQUARE_NB && b < SQUARE_NB
    ensures Dist(a, b) < 9
  {
  }

  lemma NothingNearer(a: nat, df: int, dr: int)
    ensures Nearer(a, df, dr, 1) == {}
  {
    forall s: nat | s < SQUARE_NB && InDirection(a, s, df, dr)
      ensures Dist(a, s) >= 1
    {
      SameSquare(a, s);
    }
  }

  lemma NothingFilled(row: seq<Bitboard>, a: nat, df: int, dr: int, f: (nat, nat) -> set<nat>)
    requires |row| == SQUARE_NB
    ensures DirectionFilled(row, row, a, df, dr, 1, f)
  {
    forall s: nat | s < SQUARE_NB && InDirection(a, s, df, dr)
      ensures Dist(a, s) >= 1
    {
      SameSquare(a, s);
    }
  }

  lemma FillNext(was: seq<Bitboard>, now: seq<Bitboard>, a: nat, df: int, dr: int, b: nat, bb: Bitboard, f: (nat, nat) -> set<nat>)
    requires b < SQUARE_NB && InDirection(a, b, df, dr) && DirectionFilled(was, now, a, df, dr, Dist(a, b), f)
    requires IsBoardOf(bb, f(a, b))
    ensures DirectionFilled(was, now[b := bb], a, df, dr, Dist(a, b) + 1, f)
  {
    hide InDirection, Dist, IsBoardOf;
    forall c: nat | c < SQUARE_NB && c != b && InDirection(a, c, df, dr)
      ensures Dist(a, c) != Dist(a, b)
    {
      if Dist(a, c) == Dist(a, b) {
        AtDistance(a, b, c, df, dr);
        assert false;
      }
    }
  }

  lemma FillEnds(was: seq<Bitboard>, now: seq<Bitboard>, a: nat, df: int, dr: int, k: nat, f: (nat, nat) -> set<nat>)
    requires a < SQUARE_NB && IsDirection(df, dr) && k > 0 && DirectionFilled(was, now, a, df, dr, k, f)
    requires !InBoard(FileOf(a) + Along(df, k), RankOf(a) + Along(dr, k))
    ensures DirectionFilled(was, now, a, df, dr, 9, f)
  {
    hide InDirection, Dist, IsBoardOf, FileOf, RankOf;
    forall b: nat | b < SQUARE_NB && InDirection(a, b, df, dr)
      ensures Dist(a, b) < k && Dist(a, b) < 9
    {
      EdgeEnds(a, df, dr, k, b);
      DistBound(a, b);
    }
  }

  /** The line through a square in one direction and the opposite one. */
  method FullLine(f1: nat, r1: nat, df: int, dr: int) returns (full: Bitboard)
    requires f1 < 9 && r1 < 9 && IsDirection(df, dr)
    ensures IsBoardOf(full, RaySet(f1 * 9 + r1, df, dr) + RaySet(f1 * 9 + r1, -df, -dr) + {f1 * 9 + r1})
  {
    hide *;
    ghost var a := f1 * 9 + r1;
    BothRays(f1, r1, df, dr);
    var ahead := MakeRayBB(f1, r1, df, dr);
    var back := MakeRayBB(f1, r1, -df, -dr);
    RayBoard(a, df, dr);
    RayBoard(a, -df, -dr);
    UnionOfBoards(ahead, back, RaySet(a, df, dr), RaySet(a, -df, -dr));
    OneSquareMore(Or(ahead, back), RaySet(a, df, dr) + RaySet(a, -df, -dr), a);
    full := SetSquare(Or(ahead, back), f1 * 9 + r1);
  }

  /** One row of the table of lines, for one direction. */
  method WalkLine(row: seq<Bitboard>, f1: nat, r1: nat, df: int, dr: int) returns (row': seq<Bitboard>)
    requires f1 < 9 && r1 < 9 && IsDirection(df, dr) && |row| == SQUARE_NB
    ensures DirectionFilled(row, row', f1 * 9 + r1, df, dr, 9, (a, b) => Line(a, b))
  {
    hide *;
    ghost var a := f1 * 9 + r1;
    StartsAt(f1, r1);
    ghost var table := (a: nat, b: nat) => Line(a, b);
    var full := FullLine(f1, r1, df, dr);
    row' := row;
    var f, r := f1 + df, r1 + dr;
    ghost var k: nat := 1;
    NothingFilled(row, a, df, dr, table);
    AlongStarts(df, dr);
    while 0 <= f < 9 && 0 <= r < 9
      invariant k > 0 && f == f1 + Along(df, k) && r == r1 + Along(dr, k) && |row'| == SQUARE_NB
      invariant DirectionFilled(row, row', a, df, dr, k, table)
      decreases 10 - k
    {
      var b := f * 9 + r;
      StepIsNext(a, df, dr, k, f, r);
      LineIsBothRays(a, b, df, dr);
      FillNext(row, row', a, df, dr, b, full, table);
      row' := row'[b := full];
      AlongSteps(df, dr, k);
      f := f + df;
      r := r + dr;
      k := k + 1;
    }
    LeftBoard(f, r);
    FillEnds(row, row', a, df, dr, k, table);
  }

  lemma LineIsBothRays(a: nat, b: nat, df: int, dr: int)
    requires a < SQUARE_NB && b < SQUARE_NB && InDirection(a, b, df, dr)
    ensures RaySet(a, df, dr) + RaySet(a, -df, -dr) + {a} == Line(a, b)
  {
    hide FileOf, RankOf;
  }

  // ----- the whole tables -----

  type Table = seq<seq<Bitboard>>

  const DIRECTIONS: seq<(int, int)> := [(0, -1), (0, 1), (-1, 0), (1, 0), (-1, -1), (-1, 1), (1, -1), (1, 1)]

  ghost predicate RowIs(row: seq<Bitboard>, a: nat, done: nat, f: (nat, nat) -> set<nat>)
    requires done <= 8
  {
    && |row| == SQUARE_NB
    && forall b: nat | b < SQUARE_NB ::
      if exists d: nat | d < done :: InDirection(a, b, DIRECTIONS[d].0, DIRECTIONS[d].1) then IsBoardOf(row[b], f(a, b))
      else IsBoardOf(row[b], {})
  }

  lemma RowGrows(was: seq<Bitboard>, now: seq<Bitboard>, a: nat, d: nat, f: (nat, nat) -> set<nat>)
    requires a < SQUARE_NB && d < 8 && RowIs(was, a, d, f) && DirectionFilled(was, now, a, DIRECTIONS[d].0, DIRECTIONS[d].1, 9, f)
    ensures RowIs(now, a, d + 1, f)
  {
    hide InDirection, Dist, IsBoardOf;
    forall b: nat | b < SQUARE_NB
      ensures Dist(a, b) < 9
    {
      DistBound(a, b);
    }
  }

  /** A finished row is right for aligned and other squares alike. */
  lemma RowDone(row: seq<Bitboard>, a: nat, f: (nat, nat) -> set<nat>)
    requires a < SQUARE_NB && RowIs(row, a, 8, f) && forall b: nat | !Aligned(a, b) :: f(a, b) == {}
    ensures forall b: nat | b < SQUARE_NB :: IsBoardOf(row[b], f(a, b))
  {
    hide IsBoardOf, Files, Ranks;
    forall b: nat | b < SQUARE_NB
      ensures IsBoardOf(row[b], f(a, b))
    {
      if Aligned(a, b) {
        SomeDirection(a, b);
      } else {
        forall d: nat | d < 8
          ensures !InDirection(a, b, DIRECTIONS[d].0, DIRECTIONS[d].1)
        {
        }
      }
    }
  }

  lemma SomeDirection(a: nat, b: nat)
    requires Aligned(a, b)
    ensures exists d: nat | d < 8 :: InDirection(a, b, DIRECTIONS[d].0, DIRECTIONS[d].1)
  {
    hide FileOf, RankOf;
    SameSquare(a, b);
    var df, dr := Sign(Files(a, b)), Sign(Ranks(a, b));
    var d: nat := if df == 0 then (if dr < 0 then 0 else 1) else if dr == 0 then (if df < 0 then 2 else 3)
                  else if df < 0 then (if dr < 0 then 4 else 5) else (if dr < 0 then 6 else 7);
    assert DIRECTIONS[d] == (df, dr);
    assert InDirection(a, b, DIRECTIONS[d].0, DIRECTIONS[d].1);
  }

  /** Fills one row of both tables, direction by direction. */
  method FillRow(f1: nat, r1: nat) returns (between: seq<Bitboard>, line: seq<Bitboard>)
    requires f1 < 9 && r1 < 9
    ensures RowFilled(between, line, f1 * 9 + r1)
  {
    hide Between, Line, InDirection, IsBoardOf, Dist;
    ghost var a := f1 * 9 + r1;
    between, line := seq(SQUARE_NB, _ => ZeroBoard()), seq(SQUARE_NB, _ => ZeroBoard());
    ZeroIsEmpty();
    var d: nat := 0;
    while d < 8
      invariant d <= 8 && RowIs(between, a, d, (a, b) => Between(a, b)) && RowIs(line, a, d, (a, b) => Line(a, b))
    {
      var (df, dr) := DIRECTIONS[d];
      ghost var oldBetween, oldLine := between, line;
      between := WalkBetween(between, f1, r1, df, dr);
      line := WalkLine(line, f1, r1, df, dr);
      RowGrows(oldBetween, between, a, d, (a, b) => Between(a, b));
      RowGrows(oldLine, line, a, d, (a, b) => Line(a, b));
      d := d + 1;
    }
    UnalignedIsEmpty(a);
    RowDone(between, a, (a, b) => Between(a, b));
    RowDone(line, a, (a, b) => Line(a, b));
  }

  lemma UnalignedIsEmpty(a: nat)
    ensures forall b: nat | !Aligned(a, b) :: Between(a, b) == {} && Line(a, b) == {}
  {
  }

  ghost predicate TablesFilled(between: Table, line: Table, n: nat) {
    && |between| == |line| == n
    && (forall a: nat | a < n :: RowFilled(between[a], line[a], a))
  }

  ghost predicate RowFilled(between: seq<Bitboard>, line: seq<Bitboard>, a: nat) {
    && |between| == |line| == SQUARE_NB
    && (forall b: nat | b < SQUARE_NB :: IsBoardOf(between[b], Between(a, b)) && IsBoardOf(line[b], Line(a, b)))
  }

  /** Fills both tables square by square. */
  method InitBetweenAndLine() returns (between: Table, line: Table)
    ensures TablesFilled(between, line, SQUARE_NB)
  {
    hide RowFilled;
    between, line := [], [];
    var f1: nat := 0;
    while f1 < 9
      invariant f1 <= 9 && TablesFilled(between, line, f1 * 9)
    {
      var r1: nat := 0;
      while r1 < 9
        invariant r1 <= 9 && TablesFilled(between, line, f1 * 9 + r1)
      {
        var b, l := FillRow(f1, r1);
        between, line := between + [b], line + [l];
        r1 := r1 + 1;
      }
      f1 := f1 + 1;
    }
  }
}
