/** The lance's and the rook's reach along a file: bit arithmetic within one word against
    walking the file. */
module Lances {
  import opened Shogi
  import opened Bitboards
  import opened Qugiy

  // ----- the highest bit of a word -----

  /** The zeros above the highest set bit. */
  function LeadingZeros(w: Word): (n: nat)
    ensures n <= |w|
  {
    if w == [] || w[|w| - 1] then 0 else 1 + LeadingZeros(w[..|w| - 1])
  }

  predicate NoneAbove(w: Word, i: int) { forall j: nat | i < j < |w| :: !w[j] }

  lemma {:induction false} HighestBit(w: Word)
    requires !IsZero(w)
    ensures var h := |w| - 1 - LeadingZeros(w); 0 <= h < |w| && w[h] && NoneAbove(w, h)
  {
    if !w[|w| - 1] {
      var rest := w[..|w| - 1];
      var i: nat :| i < |w| && w[i];
      assert rest[i];
      HighestBit(rest);
      var h := |rest| - 1 - LeadingZeros(rest);
      forall j: nat | h < j < |w|
        ensures !w[j]
      {
        assert j < |rest| ==> w[j] == rest[j];
      }
    }
  }

  /** All ones from bit `n` on. */
  function OnesFrom(n: nat): (w: Word)
    ensures IsWord(w)
  {
    seq(64, (i: nat) => i >= n)
  }

  /** The mask's bits from the highest occupied one on; all of them when none is occupied. */
  function DownWord(occ: Word, mask: Word): (r: Word)
    requires IsWord(occ) && IsWord(mask)
    ensures IsWord(r)
  {
    var mocc := AndWord(occ, mask);
    AndWord(OnesFrom(DownStart(mocc)), mask)
  }

  /** Bit zero stands in for a blocker when there is none. */
  function DownStart(mocc: Word): (n: nat)
    requires IsWord(mocc)
  {
    var w := mocc[0 := true];
    assert w[0];
    HighestBit(w);
    63 - LeadingZeros(w)
  }

  lemma DownStartIs(mocc: Word, i: nat)
    requires IsWord(mocc) && i < 64
    ensures i >= DownStart(mocc) <==> NoneAbove(mocc, i)
  {
    var w := mocc[0 := true];
    assert w[0];
    HighestBit(w);
    var h := 63 - LeadingZeros(w);
    assert NoneAbove(w, h);
    if i < h {
      assert mocc[h];
    } else {
      forall j: nat | i < j < 64
        ensures !mocc[j]
      {
        assert !w[j];
      }
    }
  }

  /** The mask's bits up to the lowest occupied one. */
  function UpWord(occ: Word, mask: Word): (r: Word)
    requires IsWord(occ) && IsWord(mask)
    ensures IsWord(r)
  {
    var mocc := AndWord(occ, mask);
    AndWord(XorWord(mocc, Dec(mocc)), mask)
  }

  // ----- masks -----

  /** Black lances go towards rank one, White ones towards rank nine. */
  function Forward(c: Color): int { if c.Black? then -1 else 1 }

  function LanceRay(sq: nat, c: Color): (ray: seq<nat>)
    requires sq < SQUARE_NB
    ensures forall k: nat | k < |ray| :: ray[k] < SQUARE_NB
  {
    RayFrom(sq, 0, Forward(c))
  }

  function LanceMask(sq: nat, c: Color): (b: Bitboard)
    requires sq < SQUARE_NB
    ensures b.Valid()
  {
    RayBB(LanceRay(sq, c))
  }

  lemma {:induction false} FileRay(f: int, r: int, c: Color)
    requires InBoard(f, r)
    ensures var ray := Ray(f, r, 0, Forward(c));
            && |ray| == (if c.Black? then r else 8 - r)
            && forall k: nat | k < |ray| :: ray[k] == f * 9 + r + (k + 1) * Forward(c)
    decreases if c.Black? then r else 8 - r
  {
    if InBoard(f, r + Forward(c)) {
      FileRay(f, r + Forward(c), c);
      var ray, rest := Ray(f, r, 0, Forward(c)), Ray(f, r + Forward(c), 0, Forward(c));
      assert ray == [f * 9 + (r + Forward(c))] + rest;
      assert forall k: nat | 0 < k < |ray| :: ray[k] == rest[k - 1];
    }
  }

  /** Sets the squares of a file before and behind a square. */
  method MakeLanceMasks(f: nat, r: nat) returns (black: Bitboard, white: Bitboard)
    requires f < 9 && r < 9
    ensures black == LanceMask(f * 9 + r, Black) && white == LanceMask(f * 9 + r, White)
  {
    hide HasBit;
    ghost var sq := f * 9 + r;
    assert FileOf(sq) == f && RankOf(sq) == r;
    FileRay(f, r, Black);
    FileRay(f, r, White);
    black, white := ZeroBoard(), ZeroBoard();
    ghost var upper: seq<nat>, lower: seq<nat> := [], [];
    HoldsNothing();
    var rr: nat := 0;
    while rr < r
      invariant rr <= r && black.Valid() && Holds(black, upper)
      invariant |upper| == rr && forall k: nat | k < rr :: upper[k] == f * 9 + k
    {
      HoldsOneMore(black, upper, f * 9 + rr);
      black := SetSquare(black, f * 9 + rr);
      upper := upper + [f * 9 + rr];
      rr := rr + 1;
    }
    rr := r + 1;
    while rr < 9
      invariant r + 1 <= rr <= 9 && white.Valid() && Holds(white, lower)
      invariant |lower| == rr - r - 1 && forall k: nat | k < |lower| :: lower[k] == f * 9 + r + k + 1
    {
      HoldsOneMore(white, lower, f * 9 + rr);
      white := SetSquare(white, f * 9 + rr);
      lower := lower + [f * 9 + rr];
      rr := rr + 1;
    }
    SameSquares(black, upper, LanceRay(sq, Black));
    assert lower == LanceRay(sq, White);
    HoldsAll(white, lower);
  }

  /** The order in which squares were set does not matter. */
  lemma SameSquares(b: Bitboard, done: seq<nat>, ray: seq<nat>)
    requires Holds(b, done) && |done| == |ray| && forall k: nat | k < |ray| :: ray[k] == done[|ray| - 1 - k]
    ensures b == RayBB(ray)
  {
    forall j: nat | j < 128
      ensures HasBit(done, j) == HasBit(ray, j)
    {
      if k: nat :| k < |done| && Pos(done[k]) == j {
        assert ray[|ray| - 1 - k] == done[k];
      }
      if k: nat :| k < |ray| && Pos(ray[k]) == j {
        assert done[|ray| - 1 - k] == ray[k];
      }
    }
    HoldsAll(b, ray);
  }

  // ----- the effects -----

  /** The lance's reach, computed in the word its file lies in. */
  function LanceEffect(c: Color, sq: nat, occ: Bitboard): (r: Bitboard)
    requires sq < SQUARE_NB && occ.Valid()
    ensures r.Valid()
  {
    var mask := LanceMask(sq, c);
    if c.White? then
      if sq < BB_SPLIT then Bitboard(UpWord(occ.p0, mask.p0), ZeroBoard().p1)
      else Bitboard(ZeroBoard().p0, UpWord(occ.p1, mask.p1))
    else
      if sq < BB_SPLIT then Bitboard(DownWord(occ.p0, mask.p0), ZeroBoard().p1)
      else Bitboard(ZeroBoard().p0, DownWord(occ.p1, mask.p1))
  }

  /** A file lies in one word. */
  lemma FileInOneWord(sq: nat, c: Color, k: nat)
    requires sq < SQUARE_NB && k < |LanceRay(sq, c)|
    ensures LanceRay(sq, c)[k] < BB_SPLIT <==> sq < BB_SPLIT
    ensures LanceRay(sq, c)[k] == sq + (k + 1) * Forward(c)
  {
    FileRay(FileOf(sq), RankOf(sq), c);
    assert sq == sq / 9 * 9 + sq % 9;
  }

  lemma OtherWordEmpty(sq: nat, c: Color, i: nat)
    requires sq < SQUARE_NB && i < 64
    ensures if sq < BB_SPLIT then !Bits(LanceMask(sq, c))[64 + i] else !Bits(LanceMask(sq, c))[i]
  {
    var ray, j := LanceRay(sq, c), if sq < BB_SPLIT then 64 + i else i;
    hide RayFrom, RayBB, HasBit, Bits;
    BitOfRay(ray, j);
    if k: nat :| k < |ray| && Pos(ray[k]) == j {
      FileInOneWord(sq, c, k);
    }
  }

  /** A bit of the effect, for either colour. */
  lemma LanceBit(c: Color, sq: nat, occ: Bitboard, j: nat)
    requires sq < SQUARE_NB && occ.Valid() && j < 128
    ensures var mask := LanceMask(sq, c);
            Bits(LanceEffect(c, sq, occ))[j] <==>
            && Bits(mask)[j]
            && (if c.White? then ClearBelow(occ, mask, j)
                else forall i: nat | j < i < 128 :: !(Bits(occ)[i] && Bits(mask)[i]))
  {
    hide Dec, LanceMask, DownStart;
    var mask := LanceMask(sq, c);
    var low := sq < BB_SPLIT;
    forall i: nat | i < 64
      ensures if low then !mask.p1[i] else !mask.p0[i]
    {
      OtherWordEmpty(sq, c, i);
    }
    var i := if j < 64 then j else j - 64;
    var mocc := if low then AndWord(occ.p0, mask.p0) else AndWord(occ.p1, mask.p1);
    if low == (j < 64) {
      DecFlips(mocc, i);
      DownStartIs(mocc, i);
      WordClear(occ, mask, low, i);
    }
  }

  /** Within the word of the mask, clear below or above means the same for all 128 bits. */
  lemma WordClear(occ: Bitboard, mask: Bitboard, low: bool, i: nat)
    requires occ.Valid() && mask.Valid() && i < 64
    requires forall k: nat | k < 64 :: if low then !mask.p1[k] else !mask.p0[k]
    ensures var mocc, j := if low then AndWord(occ.p0, mask.p0) else AndWord(occ.p1, mask.p1), if low then i else 64 + i;
            && (ClearBelow(occ, mask, j) <==> NoneBelow(mocc, i))
            && ((forall k: nat | j < k < 128 :: !(Bits(occ)[k] && Bits(mask)[k])) <==> NoneAbove(mocc, i))
  {
    var mocc, j := if low then AndWord(occ.p0, mask.p0) else AndWord(occ.p1, mask.p1), if low then i else 64 + i;
    var d := if low then 0 else 64;
    assert forall k: nat | k < 64 :: mocc[k] == (Bits(occ)[k + d] && Bits(mask)[k + d]);
    if NoneBelow(mocc, i) {
      forall k: nat | k < j
        ensures !(Bits(occ)[k] && Bits(mask)[k])
      {
        if k >= d {
          assert !mocc[k - d];
        }
      }
    }
    if NoneAbove(mocc, i) {
      forall k: nat | j < k < 128
        ensures !(Bits(occ)[k] && Bits(mask)[k])
      {
        if k < d + 64 {
          assert !mocc[k - d];
        }
      }
    }
    if ClearBelow(occ, mask, j) {
      forall k: nat | k < i
        ensures !mocc[k]
      {
        assert k + d < j;
      }
    }
    if forall k: nat | j < k < 128 :: !(Bits(occ)[k] && Bits(mask)[k]) {
      forall k: nat | i < k < 64
        ensures !mocc[k]
      {
        assert j < k + d < 128;
      }
    }
  }

  /** At the ray's own squares a bit means nothing stands before. */
  lemma LanceReaches(c: Color, sq: nat, occ: Bitboard, k: nat)
    requires sq < SQUARE_NB && occ.Valid() && k < |LanceRay(sq, c)|
    ensures LanceRay(sq, c)[k] < SQUARE_NB
    ensures Bits(LanceEffect(c, sq, occ))[Pos(LanceRay(sq, c)[k])] <==> FreeBefore(LanceRay(sq, c), Squares(occ), k)
  {
    hide LanceEffect, RayFrom, Bits, RayBB;
    var ray, mask := LanceRay(sq, c), LanceMask(sq, c);
    var j := Pos(ray[k]);
    AllInRange();
    LanceBit(c, sq, occ, j);
    BitOfRay(ray, j);
    if FreeBefore(ray, Squares(occ), k) {
      forall i: nat | i < 128 && (if c.White? then i < j else i > j)
        ensures !(Bits(occ)[i] && Bits(mask)[i])
      {
        BitOfRay(ray, i);
        if m: nat :| m < |ray| && Pos(ray[m]) == i {
          FileInOneWord(sq, c, k);
          FileInOneWord(sq, c, m);
          TestIsBit(occ, ray[m]);
          assert m < k;
        }
      }
    } else {
      var m: nat :| m < k && ray[m] in Squares(occ);
      FileInOneWord(sq, c, k);
      FileInOneWord(sq, c, m);
      TestIsBit(occ, ray[m]);
      BitOfRay(ray, Pos(ray[m]));
    }
  }

  /** For every square and every occupancy, the lance walks its file forward. */
  lemma {:induction false} LanceWalks(c: Color, sq: nat, occ: Bitboard)
    requires sq < SQUARE_NB && occ.Valid()
    ensures Squares(LanceEffect(c, sq, occ)) == Walk(LanceRay(sq, c), Squares(occ))
    ensures IsClean(LanceEffect(c, sq, occ))
  {
    hide LanceEffect, LanceRay, Bits, Walk, FreeBefore, Pos, LanceMask;
    var r, ray, pieces := LanceEffect(c, sq, occ), LanceRay(sq, c), Squares(occ);
    forall j: nat | j < 128
      ensures Bits(r)[j] <==> exists k: nat :: k < |ray| && Pos(ray[k]) == j && FreeBefore(ray, pieces, k)
    {
      LanceBit(c, sq, occ, j);
      MaskBit(sq, c, j);
      forall k: nat | k < |ray|
        ensures Pos(ray[k]) == j ==> (Bits(r)[j] <==> FreeBefore(ray, pieces, k))
      {
        LanceReaches(c, sq, occ, k);
      }
    }
    forall s: nat | s < SQUARE_NB
      ensures s in Squares(r) <==> s in Walk(ray, pieces)
    {
      PosInRange(s);
      TestIsBit(r, s);
      WalkReaches(ray, pieces, s);
      forall k: nat | k < |ray|
        ensures Pos(ray[k]) == Pos(s) ==> ray[k] == s
      {
        PosInRange(s);
      }
    }
    forall j: nat | j < 128 && (j == 63 || j >= 82)
      ensures !Bits(r)[j]
    {
      forall k: nat | k < |ray|
        ensures Pos(ray[k]) != j
      {
        PosInRange(ray[k]);
      }
    }
    WalkOnBoard(ray, pieces);
  }

  lemma MaskBit(sq: nat, c: Color, j: nat)
    requires sq < SQUARE_NB && j < 128
    ensures Bits(LanceMask(sq, c))[j] <==> exists k: nat :: k < |LanceRay(sq, c)| && Pos(LanceRay(sq, c)[k]) == j
  {
    hide Pos, LanceRay;
    BitOfRay(LanceRay(sq, c), j);
  }

  /** The rook's reach along its file: both lances' words at once. */
  function RookFileEffect(sq: nat, occ: Bitboard): (r: Bitboard)
    requires sq < SQUARE_NB && occ.Valid()
    ensures r.Valid()
  {
    var white, black := LanceMask(sq, White), LanceMask(sq, Black);
    if sq < BB_SPLIT then
      Bitboard(OrWord(UpWord(occ.p0, white.p0), DownWord(occ.p0, black.p0)), ZeroBoard().p1)
    else
      Bitboard(ZeroBoard().p0, OrWord(UpWord(occ.p1, white.p1), DownWord(occ.p1, black.p1)))
  }

  /** For every square and every occupancy, both halves of the file are walked. */
  lemma {:induction false} RookFileWalks(sq: nat, occ: Bitboard)
    requires sq < SQUARE_NB && occ.Valid()
    ensures Squares(RookFileEffect(sq, occ)) == Walk(LanceRay(sq, White), Squares(occ)) + Walk(LanceRay(sq, Black), Squares(occ))
  {
    hide UpWord, DownWord, LanceMask, LanceRay, Walk;
    LanceWalks(White, sq, occ);
    LanceWalks(Black, sq, occ);
    FileIsBoth(sq, occ);
    OrSquares(LanceEffect(White, sq, occ), LanceEffect(Black, sq, occ));
  }

  lemma FileIsBoth(sq: nat, occ: Bitboard)
    requires sq < SQUARE_NB && occ.Valid()
    ensures RookFileEffect(sq, occ) == Or(LanceEffect(White, sq, occ), LanceEffect(Black, sq, occ))
  {
    hide UpWord, DownWord, LanceMask;
    var a, b := LanceEffect(White, sq, occ), LanceEffect(Black, sq, occ);
    assert OrWord(ZeroBoard().p0, ZeroBoard().p0) == ZeroBoard().p0;
    assert OrWord(ZeroBoard().p1, ZeroBoard().p1) == ZeroBoard().p1;
  }

  /** The whole rook: file and rank, four walks. */
  lemma {:induction false} RookWalks(m: QugiyMasks, sq: nat, occ: Bitboard)
    requires Initialized(m) && sq < SQUARE_NB && occ.Valid()
    ensures Squares(Or(RookFileEffect(sq, occ), RookRankEffect(m, sq, occ))) ==
            Walk(RayFrom(sq, 0, 1), Squares(occ)) + Walk(RayFrom(sq, 0, -1), Squares(occ))
            + Walk(RayFrom(sq, 1, 0), Squares(occ)) + Walk(RayFrom(sq, -1, 0), Squares(occ))
  {
    hide RookFileEffect, RookRankEffect, Walk, RayFrom, Squares;
    RookFileWalks(sq, occ);
    RookRankWalks(m, sq, occ);
    OrSquares(RookFileEffect(sq, occ), RookRankEffect(m, sq, occ));
  }
}
