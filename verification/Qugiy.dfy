/** The sliders' attack sets by bit arithmetic, against walking each ray up to and including
    the first piece in the way. */
module Qugiy {
  import opened Shogi
  import opened Bitboards

  // ----- rays -----

  predicate InBoard(f: int, r: int) { 0 <= f < 9 && 0 <= r < 9 }

  predicate IsDirection(df: int, dr: int) {
    -1 <= df <= 1 && -1 <= dr <= 1 && !(df == 0 && dr == 0)
  }

  /** How many steps the edge is away at most. */
  function StepsLeft(f: int, r: int, df: int, dr: int): nat
    requires InBoard(f, r) && IsDirection(df, dr)
  {
    if df == 1 then 8 - f else if df == -1 then f else if dr == 1 then 8 - r else r
  }

  /** The squares from (f, r), itself left out, in one direction to the edge of the board,
      nearest first. */
  function Ray(f: int, r: int, df: int, dr: int): (ray: seq<nat>)
    requires InBoard(f, r) && IsDirection(df, dr)
    ensures forall k: nat | k < |ray| :: ray[k] < SQUARE_NB
    decreases StepsLeft(f, r, df, dr)
  {
    if !InBoard(f + df, r + dr) then []
    else [(f + df) * 9 + (r + dr)] + Ray(f + df, r + dr, df, dr)
  }

  /** Walks a ray up to and including the first occupied square. */
  function Walk(ray: seq<nat>, occ: set<nat>): set<nat> {
    if ray == [] then {}
    else {ray[0]} + if ray[0] in occ then {} else Walk(ray[1..], occ)
  }

  ghost predicate FreeBefore(ray: seq<nat>, occ: set<nat>, k: nat)
    requires k <= |ray|
  {
    forall i: nat | i < k :: ray[i] !in occ
  }

  /** A square is reached exactly when nothing stands before it on the ray. */
  lemma {:induction false} WalkReaches(ray: seq<nat>, occ: set<nat>, s: nat)
    ensures s in Walk(ray, occ) <==> exists k: nat :: k < |ray| && ray[k] == s && FreeBefore(ray, occ, k)
  {
    if ray != [] {
      WalkReaches(ray[1..], occ, s);
      if s == ray[0] {
        assert FreeBefore(ray, occ, 0);
      }
      if ray[0] !in occ {
        if k: nat :| k < |ray[1..]| && ray[1..][k] == s && FreeBefore(ray[1..], occ, k) {
          assert FreeBefore(ray, occ, k + 1) by {
            forall i: nat | i < k + 1
              ensures ray[i] !in occ
            {
              assert i > 0 ==> ray[i] == ray[1..][i - 1];
            }
          }
        }
        if k: nat :| k < |ray| && ray[k] == s && FreeBefore(ray, occ, k) && k > 0 {
          assert FreeBefore(ray[1..], occ, k - 1) by {
            assert forall i: nat | i < k - 1 :: ray[1..][i] == ray[i + 1];
          }
          assert ray[1..][k - 1] == s;
        }
      } else {
        if k: nat :| k < |ray| && ray[k] == s && FreeBefore(ray, occ, k) {
          assert k == 0;
        }
      }
    }
  }

  /** Squares of the ray grow by at least eight from step to step, or fall by as much. */
  ghost predicate Leftward(ray: seq<nat>) {
    && (forall k: nat | k < |ray| :: ray[k] < SQUARE_NB)
    && forall i: nat, j: nat | i < j < |ray| :: ray[i] + 8 <= ray[j]
  }

  ghost predicate Rightward(ray: seq<nat>) {
    && (forall k: nat | k < |ray| :: ray[k] < SQUARE_NB)
    && forall i: nat, j: nat | i < j < |ray| :: ray[j] + 8 <= ray[i]
  }

  ghost predicate AllFrom(ray: seq<nat>, low: int) { forall k: nat | k < |ray| :: ray[k] >= low }

  ghost predicate AllTo(ray: seq<nat>, high: int) { forall k: nat | k < |ray| :: ray[k] <= high }

  lemma LeftCons(n: nat, rest: seq<nat>, low: int)
    requires Leftward(rest) && AllFrom(rest, n + 8) && low <= n < SQUARE_NB
    ensures Leftward([n] + rest) && AllFrom([n] + rest, low)
  {
  }

  lemma RightCons(n: nat, rest: seq<nat>, high: int)
    requires Rightward(rest) && AllTo(rest, n - 8) && n <= high && n < SQUARE_NB
    ensures Rightward([n] + rest) && AllTo([n] + rest, high)
  {
  }

  lemma {:induction false} LeftRayAscends(f: int, r: int, dr: int)
    requires InBoard(f, r) && -1 <= dr <= 1
    ensures Leftward(Ray(f, r, 1, dr)) && AllFrom(Ray(f, r, 1, dr), f * 9 + r + 8)
    decreases 8 - f
  {
    hide Leftward, AllFrom;
    if InBoard(f + 1, r + dr) {
      LeftRayAscends(f + 1, r + dr, dr);
      LeftCons((f + 1) * 9 + (r + dr), Ray(f + 1, r + dr, 1, dr), f * 9 + r + 8);
    } else {
      NoRay(f * 9 + r + 8, 0);
    }
  }

  lemma NoRay(low: int, high: int)
    ensures Leftward([]) && AllFrom([], low) && Rightward([]) && AllTo([], high)
  {
  }

  lemma {:induction false} RightRayDescends(f: int, r: int, dr: int)
    requires InBoard(f, r) && -1 <= dr <= 1
    ensures Rightward(Ray(f, r, -1, dr)) && AllTo(Ray(f, r, -1, dr), f * 9 + r - 8)
    decreases f
  {
    hide Rightward, AllTo;
    if InBoard(f - 1, r + dr) {
      RightRayDescends(f - 1, r + dr, dr);
      RightCons((f - 1) * 9 + (r + dr), Ray(f - 1, r + dr, -1, dr), f * 9 + r - 8);
    } else {
      NoRay(0, f * 9 + r - 8);
    }
  }

  // ----- masks -----

  /** Bit `j` belongs to a square of the ray. */
  predicate HasBit(ray: seq<nat>, j: nat) {
    exists k: nat | k < |ray| :: Pos(ray[k]) == j
  }

  /** The bitboard of a ray. */
  function RayBB(ray: seq<nat>): (b: Bitboard)
    ensures b.Valid() && forall j: nat | j < 128 :: Bits(b)[j] == HasBit(ray, j)
  {
    Bitboard(seq(64, (i: nat) => HasBit(ray, i)), seq(64, (i: nat) => HasBit(ray, 64 + i)))
  }

  /** The squares set so far are those of a list. */
  ghost predicate Holds(b: Bitboard, done: seq<nat>) {
    b.Valid() && forall j: nat | j < 128 :: Bits(b)[j] == HasBit(done, j)
  }

  lemma HoldsOneMore(b: Bitboard, done: seq<nat>, s: nat)
    requires Holds(b, done) && s < SQUARE_NB
    ensures Holds(SetSquare(b, s), done + [s])
  {
    hide HasBit, SetSquare;
    forall j: nat | j < 128
      ensures Bits(SetSquare(b, s))[j] == HasBit(done + [s], j)
    {
      OneMoreBit(done, s, j);
      assert Bits(b)[j] == HasBit(done, j);
    }
  }

  lemma HoldsNothing()
    ensures Holds(ZeroBoard(), [])
  {
    NoBits();
  }

  lemma HoldsAll(b: Bitboard, ray: seq<nat>)
    requires Holds(b, ray)
    ensures b == RayBB(ray)
  {
    hide HasBit;
    SameBits(b, RayBB(ray));
  }

  lemma RayStep(f: int, r: int, df: int, dr: int)
    requires InBoard(f, r) && IsDirection(df, dr)
    ensures if InBoard(f + df, r + dr) then
              Ray(f, r, df, dr) == [(f + df) * 9 + (r + dr)] + Ray(f + df, r + dr, df, dr)
              && StepsLeft(f + df, r + dr, df, dr) < StepsLeft(f, r, df, dr)
            else Ray(f, r, df, dr) == []
  {
  }

  /** Sets the squares of a ray one by one. */
  method MakeRayBB(f: int, r: int, df: int, dr: int) returns (bb: Bitboard)
    requires InBoard(f, r) && IsDirection(df, dr)
    ensures bb == RayBB(Ray(f, r, df, dr))
  {
    hide Holds, SetSquare, Ray, StepsLeft, RayBB;
    ghost var done: seq<nat>, full, cf, cr := [], Ray(f, r, df, dr), f, r;
    var nf, nr := f + df, r + dr;
    bb := ZeroBoard();
    HoldsNothing();
    while 0 <= nf < 9 && 0 <= nr < 9
      invariant InBoard(cf, cr) && nf == cf + df && nr == cr + dr && bb.Valid()
      invariant done + Ray(cf, cr, df, dr) == full && Holds(bb, done)
      decreases StepsLeft(cf, cr, df, dr)
    {
      RayStep(cf, cr, df, dr);
      HoldsOneMore(bb, done, nf * 9 + nr);
      bb := SetSquare(bb, nf * 9 + nr);
      assert done + [nf * 9 + nr] + Ray(nf, nr, df, dr) == full;
      done := done + [nf * 9 + nr];
      cf, cr := nf, nr;
      nf := nf + df;
      nr := nr + dr;
    }
    RayStep(cf, cr, df, dr);
    assert done == full;
    HoldsAll(bb, full);
  }

  lemma NoBits()
    ensures forall j: nat :: !HasBit([], j)
  {
  }

  lemma OneMoreBit(ray: seq<nat>, s: nat, j: nat)
    ensures HasBit(ray + [s], j) <==> HasBit(ray, j) || Pos(s) == j
  {
    if Pos(s) == j {
      assert (ray + [s])[|ray|] == s;
    }
    if k: nat :| k < |ray| && Pos(ray[k]) == j {
      assert (ray + [s])[k] == ray[k];
    }
  }

  lemma SameBits(a: Bitboard, b: Bitboard)
    requires a.Valid() && b.Valid() && forall j: nat | j < 128 :: Bits(a)[j] == Bits(b)[j]
    ensures a == b
  {
    forall i: nat | i < 64
      ensures a.p0[i] == b.p0[i] && a.p1[i] == b.p1[i]
    {
      assert Bits(a)[i] == Bits(b)[i] && Bits(a)[64 + i] == Bits(b)[64 + i];
    }
    assert a.p0 == b.p0 && a.p1 == b.p1;
  }

  // ----- one lane -----

  /** The bits of a mask up to and including the lowest occupied one. */
  function Lane(occ: Bitboard, mask: Bitboard): (r: Bitboard)
    requires occ.Valid() && mask.Valid()
    ensures r.Valid()
  {
    var m := And(occ, mask);
    var low, high := Dec(m.p0), if IsZero(m.p0) then Dec(m.p1) else m.p1;
    And(Xor(Bitboard(low, high), m), mask)
  }

  /** No occupied bit of the mask below position `i`. */
  ghost predicate ClearBelow(occ: Bitboard, mask: Bitboard, i: nat)
    requires occ.Valid() && mask.Valid() && i <= 128
  {
    forall j: nat | j < i :: !(Bits(occ)[j] && Bits(mask)[j])
  }

  lemma LaneLow(occ: Bitboard, mask: Bitboard, i: nat)
    requires occ.Valid() && mask.Valid() && i < 64
    ensures Bits(Lane(occ, mask))[i] <==> Bits(mask)[i] && ClearBelow(occ, mask, i)
  {
    hide Dec;
    var m := And(occ, mask);
    DecFlips(m.p0, i);
    assert forall j: nat | j < 64 :: m.p0[j] == (Bits(occ)[j] && Bits(mask)[j]);
  }

  lemma LaneHigh(occ: Bitboard, mask: Bitboard, i: nat)
    requires occ.Valid() && mask.Valid() && i < 64
    ensures Bits(Lane(occ, mask))[64 + i] <==> Bits(mask)[64 + i] && ClearBelow(occ, mask, 64 + i)
  {
    hide Dec;
    var m := And(occ, mask);
    DecFlips(m.p1, i);
    HighClear(occ, mask, i);
  }

  lemma HighClear(occ: Bitboard, mask: Bitboard, i: nat)
    requires occ.Valid() && mask.Valid() && i < 64
    ensures ClearBelow(occ, mask, 64 + i) <==> IsZero(And(occ, mask).p0) && NoneBelow(And(occ, mask).p1, i)
  {
    var m := And(occ, mask);
    assert forall j: nat | j < 64 :: m.p0[j] == (Bits(occ)[j] && Bits(mask)[j]);
    assert forall j: nat | j < 64 :: m.p1[j] == (Bits(occ)[64 + j] && Bits(mask)[64 + j]);
    if IsZero(m.p0) && NoneBelow(m.p1, i) {
      forall j: nat | j < 64 + i
        ensures !(Bits(occ)[j] && Bits(mask)[j])
      {
        if j >= 64 {
          assert !m.p1[j - 64];
        }
      }
    }
  }

  /** The decrement trick on a lane. */
  lemma LaneIs(occ: Bitboard, mask: Bitboard, i: nat)
    requires occ.Valid() && mask.Valid() && i < 128
    ensures Bits(Lane(occ, mask))[i] <==> Bits(mask)[i] && ClearBelow(occ, mask, i)
  {
    hide Lane, ClearBelow, Bits;
    if i < 64 {
      LaneLow(occ, mask, i);
    } else {
      LaneHigh(occ, mask, i - 64);
    }
  }

  /** A ray whose squares lie on ascending bits of a lane. */
  ghost predicate Ascends(ray: seq<nat>, at: seq<nat>) {
    && |at| == |ray|
    && (forall k: nat | k < |ray| :: ray[k] < SQUARE_NB && at[k] < 128)
    && forall i: nat, j: nat | i < j < |at| :: at[i] < at[j]
  }

  /** On such a lane the trick walks the ray. */
  lemma {:induction false} LaneWalks(occ: Bitboard, mask: Bitboard, pieces: set<nat>, ray: seq<nat>, at: seq<nat>, k: nat)
    requires occ.Valid() && mask.Valid() && Ascends(ray, at) && k < |ray|
    requires forall j: nat | j < 128 :: Bits(mask)[j] <==> exists i: nat :: i < |at| && at[i] == j
    requires forall i: nat | i < |ray| :: Bits(occ)[at[i]] <==> ray[i] in pieces
    ensures Bits(Lane(occ, mask))[at[k]] <==> FreeBefore(ray, pieces, k)
  {
    hide Lane, Bits;
    LaneIs(occ, mask, at[k]);
    if FreeBefore(ray, pieces, k) {
      forall j: nat | j < at[k]
        ensures !(Bits(occ)[j] && Bits(mask)[j])
      {
        if Bits(mask)[j] {
          var i: nat :| i < |at| && at[i] == j;
          assert i < k;
        }
      }
    } else {
      var i: nat :| i < k && ray[i] in pieces;
      assert at[i] < at[k] && Bits(mask)[at[i]];
    }
  }

  // ----- a left and a reversed right ray together -----

  /** What one slide of two rays computes from packed masks: the words of the left ray in the
      first places, those of the byte-reversed right ray in the second. */
  function Slide(occ: Bitboard, mask0: Bitboard, mask1: Bitboard): (r: Bitboard)
    requires occ.Valid() && mask0.Valid() && mask1.Valid()
    ensures r.Valid()
  {
    var rocc := ByteReverse(occ);
    var (hi, lo) := Unpack(rocc, occ);
    var hiM, loM := And(hi, mask1), And(lo, mask0);
    var (t1, t0) := Decrement(hiM, loM);
    var (hi2, lo2) := Unpack(And(Xor(t1, hiM), mask1), And(Xor(t0, loM), mask0));
    Or(ByteReverse(hi2), lo2)
  }

  /** The packed masks of two rays. */
  function PackMasks(left: seq<nat>, right: seq<nat>): (m: (Bitboard, Bitboard))
    ensures m.0.Valid() && m.1.Valid()
  {
    var (hi, lo) := Unpack(ByteReverse(RayBB(right)), RayBB(left));
    (lo, hi)
  }

  /** Both lanes are independent. */
  lemma SlideIsTwoLanes(occ: Bitboard, left: seq<nat>, right: seq<nat>)
    requires occ.Valid()
    ensures var (mask0, mask1) := PackMasks(left, right);
            Slide(occ, mask0, mask1) ==
            Or(ByteReverse(Lane(ByteReverse(occ), ByteReverse(RayBB(right)))), Lane(occ, RayBB(left)))
  {
    hide Dec, AndWord, XorWord, OrWord, SwapBytes, RayBB;
  }

  function Bits1(ray: seq<nat>): seq<nat>
    requires forall k: nat | k < |ray| :: ray[k] < SQUARE_NB
  {
    seq(|ray|, (k: nat) requires k < |ray| => Pos(ray[k]))
  }

  function Bits2(ray: seq<nat>): seq<nat>
    requires forall k: nat | k < |ray| :: ray[k] < SQUARE_NB
  {
    seq(|ray|, (k: nat) requires k < |ray| && ray[k] < SQUARE_NB => Rev(Pos(ray[k])))
  }

  lemma LeftLane(occ: Bitboard, ray: seq<nat>, k: nat)
    requires occ.Valid() && Leftward(ray) && k < |ray|
    ensures Bits(Lane(occ, RayBB(ray)))[Pos(ray[k])] <==> FreeBefore(ray, Squares(occ), k)
  {
    hide Lane, Bits, RayBB, FreeBefore;
    var at := Bits1(ray);
    forall j: nat | j < 128
      ensures Bits(RayBB(ray))[j] <==> exists i: nat :: i < |at| && at[i] == j
    {
      if i: nat :| i < |ray| && Pos(ray[i]) == j {
        assert at[i] == j;
      }
    }
    forall i: nat | i < |ray|
      ensures Bits(occ)[at[i]] <==> ray[i] in Squares(occ)
    {
      TestIsBit(occ, ray[i]);
    }
    LaneWalks(occ, RayBB(ray), Squares(occ), ray, at, k);
  }

  /** Byte reversal turns a right-hand ray into one on ascending bits, because its squares
      are at least a byte apart. */
  lemma RightAscends(ray: seq<nat>)
    requires Rightward(ray)
    ensures Ascends(ray, Bits2(ray))
  {
    var at := Bits2(ray);
    forall i: nat, j: nat | i < j < |at|
      ensures at[i] < at[j]
    {
      RevReverses(Pos(ray[j]), Pos(ray[i]));
    }
  }

  lemma RightMask(ray: seq<nat>, j: nat)
    requires Rightward(ray) && j < 128
    ensures Bits(ByteReverse(RayBB(ray)))[j] <==> exists i: nat :: i < |Bits2(ray)| && Bits2(ray)[i] == j
  {
    hide Bits, ByteReverse, Rev;
    ReversedBits(RayBB(ray), j);
    RevTwice(j);
    if i: nat :| i < |ray| && Pos(ray[i]) == Rev(j) {
      assert Bits2(ray)[i] == j;
    }
    if i: nat :| i < |Bits2(ray)| && Bits2(ray)[i] == j {
      RevTwice(Pos(ray[i]));
    }
  }

  lemma RightLane(occ: Bitboard, ray: seq<nat>, k: nat)
    requires occ.Valid() && Rightward(ray) && k < |ray|
    ensures Bits(ByteReverse(Lane(ByteReverse(occ), ByteReverse(RayBB(ray)))))[Pos(ray[k])] <==> FreeBefore(ray, Squares(occ), k)
  {
    hide Lane, Bits, RayBB, FreeBefore, ByteReverse, Rev, Ascends;
    var at := Bits2(ray);
    RightAscends(ray);
    forall j: nat | j < 128
      ensures Bits(ByteReverse(RayBB(ray)))[j] <==> exists i: nat :: i < |at| && at[i] == j
    {
      RightMask(ray, j);
    }
    forall i: nat | i < |ray|
      ensures Bits(ByteReverse(occ))[at[i]] <==> ray[i] in Squares(occ)
    {
      ReversedBits(occ, at[i]);
      RevTwice(Pos(ray[i]));
      TestIsBit(occ, ray[i]);
    }
    LaneWalks(ByteReverse(occ), ByteReverse(RayBB(ray)), Squares(occ), ray, at, k);
    ReversedBits(Lane(ByteReverse(occ), ByteReverse(RayBB(ray))), Pos(ray[k]));
  }

  /** Outside its mask a lane is empty. */
  lemma LaneInMask(occ: Bitboard, mask: Bitboard, j: nat)
    requires occ.Valid() && mask.Valid() && j < 128 && Bits(Lane(occ, mask))[j]
    ensures Bits(mask)[j]
  {
    hide Lane, Bits;
    LaneIs(occ, mask, j);
  }

  /** A slide bit by bit: the squares reached on either ray. */
  lemma SlideBit(occ: Bitboard, left: seq<nat>, right: seq<nat>, j: nat)
    requires occ.Valid() && Leftward(left) && Rightward(right) && j < 128
    ensures var (mask0, mask1) := PackMasks(left, right);
            Bits(Slide(occ, mask0, mask1))[j] <==>
            || (exists k: nat :: k < |left| && Pos(left[k]) == j && FreeBefore(left, Squares(occ), k))
            || (exists k: nat :: k < |right| && Pos(right[k]) == j && FreeBefore(right, Squares(occ), k))
  {
    hide Slide, Lane, PackMasks, RayBB, FreeBefore, ByteReverse, HasBit, Squares, Rev, Pos, Bits;
    var (mask0, mask1) := PackMasks(left, right);
    var a, b := ByteReverse(Lane(ByteReverse(occ), ByteReverse(RayBB(right)))), Lane(occ, RayBB(left));
    AllInRange();
    SlideIsTwoLanes(occ, left, right);
    OrBits(a, b, j);
    if Bits(b)[j] {
      LaneInMask(occ, RayBB(left), j);
      BitOfRay(left, j);
    }
    forall k: nat | k < |left|
      ensures Bits(b)[Pos(left[k])] <==> FreeBefore(left, Squares(occ), k)
    {
      PosInRange(left[k]);
      LeftLane(occ, left, k);
    }
    if Bits(a)[j] {
      ReversedBits(Lane(ByteReverse(occ), ByteReverse(RayBB(right))), j);
      RevInRange(j);
      LaneInMask(ByteReverse(occ), ByteReverse(RayBB(right)), Rev(j));
      ReversedBits(RayBB(right), Rev(j));
      RevTwice(j);
      BitOfRay(right, j);
    }
    forall k: nat | k < |right|
      ensures Bits(a)[Pos(right[k])] <==> FreeBefore(right, Squares(occ), k)
    {
      PosInRange(right[k]);
      RightLane(occ, right, k);
    }
  }

  lemma OrBits(a: Bitboard, b: Bitboard, j: nat)
    requires a.Valid() && b.Valid() && j < 128
    ensures Bits(Or(a, b))[j] == (Bits(a)[j] || Bits(b)[j])
  {
  }

  lemma BitOfRay(ray: seq<nat>, j: nat)
    requires j < 128
    ensures Bits(RayBB(ray))[j] <==> exists k: nat :: k < |ray| && Pos(ray[k]) == j
  {
    hide Pos;
    assert Bits(RayBB(ray))[j] == HasBit(ray, j);
  }

  lemma PosInRange(s: nat)
    requires s < SQUARE_NB
    ensures Pos(s) < 128 && Pos(s) != 63 && Pos(s) < 82
    ensures forall t: nat | t < SQUARE_NB :: Pos(s) == Pos(t) ==> s == t
  {
  }

  lemma AllInRange()
    ensures forall s: nat | s < SQUARE_NB :: Pos(s) < 128
  {
  }

  lemma RevInRange(j: nat)
    requires j < 128
    ensures Rev(j) < 128
  {
  }

  /** A slide is exactly the two walks, and sets no bit that is not a square. */
  lemma SlideWalks(occ: Bitboard, left: seq<nat>, right: seq<nat>)
    requires occ.Valid() && Leftward(left) && Rightward(right)
    ensures var (mask0, mask1) := PackMasks(left, right);
            && Squares(Slide(occ, mask0, mask1)) == Walk(left, Squares(occ)) + Walk(right, Squares(occ))
            && IsClean(Slide(occ, mask0, mask1))
  {
    hide Slide, PackMasks, FreeBefore, Pos, Walk, Bits;
    var (mask0, mask1) := PackMasks(left, right);
    var r, pieces := Slide(occ, mask0, mask1), Squares(occ);
    forall s: nat | s < SQUARE_NB
      ensures s in Squares(r) <==> s in Walk(left, pieces) + Walk(right, pieces)
    {
      PosInRange(s);
      TestIsBit(r, s);
      SlideBit(occ, left, right, Pos(s));
      WalkReaches(left, pieces, s);
      WalkReaches(right, pieces, s);
    }
    forall j: nat | j < 128 && (j == 63 || j >= 82)
      ensures !Bits(r)[j]
    {
      SlideBit(occ, left, right, j);
      forall k: nat | k < |left|
        ensures Pos(left[k]) != j
      {
        PosInRange(left[k]);
      }
      forall k: nat | k < |right|
        ensures Pos(right[k]) != j
      {
        PosInRange(right[k]);
      }
    }
    WalkOnBoard(left, pieces);
    WalkOnBoard(right, pieces);
  }

  lemma {:induction false} WalkOnBoard(ray: seq<nat>, occ: set<nat>)
    requires forall k: nat | k < |ray| :: ray[k] < SQUARE_NB
    ensures forall s | s in Walk(ray, occ) :: s < SQUARE_NB
  {
    if ray != [] {
      WalkOnBoard(ray[1..], occ);
    }
  }

  // ----- the tables and the effects -----

  function FileOf(sq: nat): int { sq / 9 }

  function RankOf(sq: nat): int { sq % 9 }

  /** The ray from a square. */
  function RayFrom(sq: nat, df: int, dr: int): (ray: seq<nat>)
    requires sq < SQUARE_NB && IsDirection(df, dr)
    ensures forall k: nat | k < |ray| :: ray[k] < SQUARE_NB
  {
    Ray(FileOf(sq), RankOf(sq), df, dr)
  }

  lemma RaysGoSideways(sq: nat, dr: int)
    requires sq < SQUARE_NB && -1 <= dr <= 1
    ensures Leftward(RayFrom(sq, 1, dr)) && Rightward(RayFrom(sq, -1, dr))
  {
    hide Leftward, Rightward;
    LeftRayAscends(FileOf(sq), RankOf(sq), dr);
    RightRayDescends(FileOf(sq), RankOf(sq), dr);
  }

  /** Two bitboards side by side, processed lane by lane. */
  datatype Bitboard256 = Bitboard256(b0: Bitboard, b1: Bitboard)
  {
    predicate Valid() { b0.Valid() && b1.Valid() }
  }

  /** Packed masks for every square: the first list holds the low words, the second the high
      ones. */
  datatype QugiyMasks = QugiyMasks(rook0: seq<Bitboard>, rook1: seq<Bitboard>, bishop0: seq<Bitboard256>, bishop1: seq<Bitboard256>)

  ghost predicate MasksAt(m: QugiyMasks, sq: nat)
    requires sq < SQUARE_NB
  {
    && sq < |m.rook0| && sq < |m.rook1| && sq < |m.bishop0| && sq < |m.bishop1|
    && (m.rook0[sq], m.rook1[sq]) == PackMasks(RayFrom(sq, 1, 0), RayFrom(sq, -1, 0))
    && (m.bishop0[sq].b0, m.bishop1[sq].b0) == PackMasks(RayFrom(sq, 1, -1), RayFrom(sq, -1, -1))
    && (m.bishop0[sq].b1, m.bishop1[sq].b1) == PackMasks(RayFrom(sq, 1, 1), RayFrom(sq, -1, 1))
  }

  ghost predicate Initialized(m: QugiyMasks) {
    forall sq: nat | sq < SQUARE_NB :: MasksAt(m, sq)
  }

  /** Fills the tables square by square. */
  method InitQugiyMasks() returns (m: QugiyMasks)
    ensures Initialized(m)
  {
    hide Ray, RayBB, ByteReverse, MasksAt;
    m := QugiyMasks([], [], [], []);
    var f: nat := 0;
    while f < 9
      invariant f <= 9 && Filled(m, f * 9)
    {
      var r: nat := 0;
      while r < 9
        invariant r <= 9 && Filled(m, f * 9 + r)
      {
        m := AddMasks(m, f, r);
        r := r + 1;
      }
      f := f + 1;
    }
  }

  ghost predicate Filled(m: QugiyMasks, n: nat) {
    && |m.rook0| == |m.rook1| == |m.bishop0| == |m.bishop1| == n
    && forall sq: nat | sq < n && sq < SQUARE_NB :: MasksAt(m, sq)
  }

  /** The masks of one square. */
  method AddMasks(m: QugiyMasks, f: nat, r: nat) returns (m': QugiyMasks)
    requires f < 9 && r < 9 && Filled(m, f * 9 + r)
    ensures Filled(m', f * 9 + r + 1)
  {
    hide Ray, RayBB, ByteReverse;
    var left := MakeRayBB(f, r, 1, 0);
    var right := MakeRayBB(f, r, -1, 0);
    var (hi, lo) := Unpack(ByteReverse(right), left);
    var lu := MakeRayBB(f, r, 1, -1);
    var ld := MakeRayBB(f, r, 1, 1);
    var ru := MakeRayBB(f, r, -1, -1);
    var rd := MakeRayBB(f, r, -1, 1);
    var ruRev, rdRev := ByteReverse(ru), ByteReverse(rd);
    var b0 := Bitboard256(Bitboard(lu.p0, ruRev.p0), Bitboard(ld.p0, rdRev.p0));
    var b1 := Bitboard256(Bitboard(lu.p1, ruRev.p1), Bitboard(ld.p1, rdRev.p1));
    m' := QugiyMasks(m.rook0 + [lo], m.rook1 + [hi], m.bishop0 + [b0], m.bishop1 + [b1]);
    ghost var sq := f * 9 + r;
    assert FileOf(sq) == f && RankOf(sq) == r;
    assert MasksAt(m', sq);
    forall q: nat | q < sq
      ensures MasksAt(m', q)
    {
      assert MasksAt(m, q);
    }
  }

  /** The rook's reach along its rank. */
  function RookRankEffect(m: QugiyMasks, sq: nat, occ: Bitboard): (r: Bitboard)
    requires Initialized(m) && sq < SQUARE_NB && occ.Valid()
    ensures r.Valid()
  {
    hide RayBB;
    assert MasksAt(m, sq);
    Slide(occ, m.rook0[sq], m.rook1[sq])
  }

  /** For every square and every occupancy, both halves of the rank are walked. */
  lemma {:induction false} RookRankWalks(m: QugiyMasks, sq: nat, occ: Bitboard)
    requires Initialized(m) && sq < SQUARE_NB && occ.Valid()
    ensures Squares(RookRankEffect(m, sq, occ)) == Walk(RayFrom(sq, 1, 0), Squares(occ)) + Walk(RayFrom(sq, -1, 0), Squares(occ))
    ensures IsClean(RookRankEffect(m, sq, occ))
  {
    hide Slide, PackMasks, Walk, Bits, Squares, RayFrom, Leftward, Rightward;
    assert MasksAt(m, sq);
    RaysGoSideways(sq, 0);
    SlideWalks(occ, RayFrom(sq, 1, 0), RayFrom(sq, -1, 0));
  }

  /** The bishop's reach: two slides side by side, merged. */
  function BishopEffect(m: QugiyMasks, sq: nat, occ: Bitboard): (r: Bitboard)
    requires Initialized(m) && sq < SQUARE_NB && occ.Valid()
    ensures r.Valid()
  {
    hide RayBB;
    assert MasksAt(m, sq);
    Or(Slide(occ, m.bishop0[sq].b0, m.bishop1[sq].b0), Slide(occ, m.bishop0[sq].b1, m.bishop1[sq].b1))
  }

  lemma OrSquares(a: Bitboard, b: Bitboard)
    requires a.Valid() && b.Valid()
    ensures Squares(Or(a, b)) == Squares(a) + Squares(b)
    ensures IsClean(a) && IsClean(b) ==> IsClean(Or(a, b))
  {
    forall j: nat | j < 128
      ensures Bits(Or(a, b))[j] == (Bits(a)[j] || Bits(b)[j])
    {
      OrBits(a, b, j);
    }
    forall s: nat | s < SQUARE_NB
      ensures Test(Or(a, b), s) == (Test(a, s) || Test(b, s))
    {
    }
  }

  /** For every square and every occupancy, all four diagonals are walked. */
  lemma {:induction false} BishopWalks(m: QugiyMasks, sq: nat, occ: Bitboard)
    requires Initialized(m) && sq < SQUARE_NB && occ.Valid()
    ensures Squares(BishopEffect(m, sq, occ)) ==
            Walk(RayFrom(sq, 1, -1), Squares(occ)) + Walk(RayFrom(sq, -1, -1), Squares(occ))
            + Walk(RayFrom(sq, 1, 1), Squares(occ)) + Walk(RayFrom(sq, -1, 1), Squares(occ))
    ensures IsClean(BishopEffect(m, sq, occ))
  {
    hide Slide, PackMasks, Walk, Bits, Squares, RayFrom, Leftward, Rightward, IsClean;
    assert MasksAt(m, sq);
    RaysGoSideways(sq, -1);
    RaysGoSideways(sq, 1);
    SlideWalks(occ, RayFrom(sq, 1, -1), RayFrom(sq, -1, -1));
    SlideWalks(occ, RayFrom(sq, 1, 1), RayFrom(sq, -1, 1));
    OrSquares(Slide(occ, m.bishop0[sq].b0, m.bishop1[sq].b0), Slide(occ, m.bishop0[sq].b1, m.bishop1[sq].b1));
  }
}
