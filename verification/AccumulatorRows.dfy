/** Which rows group A lists: exactly the row of every piece on the board and in hand, each
    once. */
module AccumulatorRows {
  import opened Shogi
  import opened Accumulator

  /** Weighs one row and no other, so that a sum counts its occurrences. */
  function Only(r: nat): Weight {
    (row: nat) => if row == r then 1 else 0
  }

  lemma {:induction false} SumCounts(list: seq<nat>, r: nat)
    ensures SumRows(list, Only(r)) == multiset(list)[r]
  {
    if list != [] {
      var last := list[|list| - 1];
      assert list == list[..|list| - 1] + [last];
      SumCounts(list[..|list| - 1], r);
    }
  }

  /** A piece on the board whose row is `r`. */
  ghost predicate IsPieceRow(b: FeatureBoard, p: Color, r: nat, s: nat)
    requires b.Valid()
  {
    && s < SQUARE_NB && b.board[s].Piece? && 1 <= b.board[s].kind <= 14 && b.board[s].kind != KING
    && r == KingFrameSq(b, p) * NUM_SLOTS + BoardSlot(Owner(p, b.board[s].color), TypeId(b.board[s].kind), FrameSq(p, s))
  }

  /** The `k`-th piece of a kind in hand whose row is `r`. */
  ghost predicate IsHandRow(b: FeatureBoard, p: Color, r: nat, c: Color, h: nat, k: nat)
    requires b.Valid()
  {
    && h < HAND_KINDS && 1 <= k <= b.Hand(c)[h]
    && r == KingFrameSq(b, p) * NUM_SLOTS + HandSlot(Owner(p, c), h, k)
  }

  ghost predicate IsActive(b: FeatureBoard, p: Color, r: nat)
    requires b.Valid()
  {
    || (exists s: nat :: IsPieceRow(b, p, r, s))
    || (exists c: Color, h: nat, k: nat :: IsHandRow(b, p, r, c, h, k))
  }

  // ----- board rows -----

  /** Row `r` is the row of square `s` for the piece set at `i`. */
  ghost predicate IsRowOf(p: Color, base: nat, r: nat, i: nat, s: nat) {
    i < 2 * TYPE_IDS && s < SQUARE_NB && r == PieceRow(p, base, i, s)
  }

  /** A row belongs to one piece set and one square only. */
  lemma RowIsUnique(p: Color, base: nat, r: nat, i: nat, s: nat, i': nat, s': nat)
    requires IsRowOf(p, base, r, i, s) && IsRowOf(p, base, r, i', s')
    ensures i == i' && s == s'
  {
  }

  lemma {:induction false} SetCount(p: Color, base: nat, r: nat, i: nat, s: nat, squares: set<nat>, i': nat, from: nat)
    requires IsRowOf(p, base, r, i, s) && i' < 2 * TYPE_IDS && from <= SQUARE_NB
    ensures PieceSum(Only(r), p, base, i', squares, from) == if i' == i && s in squares && from <= s then 1 else 0
    decreases SQUARE_NB - from
  {
    hide PieceRow;
    if from < SQUARE_NB {
      SetCount(p, base, r, i, s, squares, i', from + 1);
      if PieceRow(p, base, i', from) == r {
        RowIsUnique(p, base, r, i, s, i', from);
      }
    }
  }

  lemma {:induction false} SetsCount(p: Color, base: nat, r: nat, i: nat, s: nat, pieces: seq<set<nat>>, from: nat)
    requires IsRowOf(p, base, r, i, s) && |pieces| == 2 * TYPE_IDS && from <= 2 * TYPE_IDS
    ensures PiecesDiff(Only(r), p, base, pieces, NoPieces(), from) ==
            if from <= i && !IsKingIndex(i) && s in pieces[i] then 1 else 0
    decreases 2 * TYPE_IDS - from
  {
    hide PieceSum, Only, IsRowOf;
    RowOfIndex(p, base, r, i, s);
    if from < 2 * TYPE_IDS {
      assert pieces[from] - NoPieces()[from] == pieces[from];
      SetCount(p, base, r, i, s, pieces[from], from, 0);
      SetsCount(p, base, r, i, s, pieces, from + 1);
    }
  }

  lemma RowOfIndex(p: Color, base: nat, r: nat, i: nat, s: nat)
    requires IsRowOf(p, base, r, i, s)
    ensures i < 2 * TYPE_IDS && base + HAND_SLOTS <= r < base + NUM_SLOTS
  {
    PieceRowInRange(p, base, i, s);
  }

  /** Within the set a hand row stays in the hand part. */
  lemma HandRowInHandPart(base: nat, j: nat, k: nat)
    requires j < 2 * HAND_KINDS && 1 <= k <= HAND_MAX[j % HAND_KINDS]
    ensures base <= HandRow(base, j, k) < base + HAND_SLOTS
  {
  }

  lemma {:induction false} HandCountsNothing(base: nat, r: nat, j: nat, low: nat, high: nat)
    requires j < 2 * HAND_KINDS && high <= HAND_MAX[j % HAND_KINDS] && r >= base + HAND_SLOTS
    ensures HandSum(Only(r), base, j, low, high) == 0
    decreases high
  {
    hide HandRow;
    if high > low {
      HandRowInHandPart(base, j, high);
      HandCountsNothing(base, r, j, low, high - 1);
    }
  }

  lemma {:induction false} HandsCountNothing(base: nat, r: nat, hand: seq<nat>, j: nat)
    requires |hand| == 2 * HAND_KINDS && j <= 2 * HAND_KINDS && r >= base + HAND_SLOTS
    requires forall k: nat | k < 2 * HAND_KINDS :: hand[k] <= HAND_MAX[k % HAND_KINDS]
    ensures HandsDiff(Only(r), base, hand, NoHands(), j) == 0
    decreases 2 * HAND_KINDS - j
  {
    hide HandSum, Only;
    if j < 2 * HAND_KINDS {
      HandCountsNothing(base, r, j, 0, hand[j]);
      HandsCountNothing(base, r, hand, j + 1);
    }
  }

  // ----- hand rows -----

  /** Row `r` is the row of the `k`-th piece for the hand count at `j`. */
  ghost predicate IsRowOfHand(base: nat, r: nat, j: nat, k: nat) {
    j < 2 * HAND_KINDS && 1 <= k <= HAND_MAX[j % HAND_KINDS] && r == HandRow(base, j, k)
  }

  /** Where the rows of a hand count start. */
  const HAND_START: seq<nat> := [0, 18, 22, 26, 30, 32, 34, 38, 56, 60, 64, 68, 70, 72, 76]

  lemma HandRowIs(base: nat, j: nat, k: nat)
    requires j < 2 * HAND_KINDS && k >= 1
    ensures HandRow(base, j, k) == base + HAND_START[j] + k - 1
    ensures HAND_START[j] + HAND_MAX[j % HAND_KINDS] == HAND_START[j + 1]
  {
    assert j == j / HAND_KINDS * HAND_KINDS + j % HAND_KINDS;
  }

  lemma {:induction false} StartsAscend(i: nat, j: nat)
    requires i <= j < |HAND_START|
    ensures HAND_START[i] <= HAND_START[j]
    decreases j - i
  {
    if i < j {
      StartsAscend(i, j - 1);
      HandRowIs(0, j - 1, 1);
    }
  }

  lemma HandRowIsUnique(base: nat, r: nat, j: nat, k: nat, j': nat, k': nat)
    requires IsRowOfHand(base, r, j, k) && IsRowOfHand(base, r, j', k')
    ensures j == j' && k == k'
  {
    hide HandRow;
    HandRowIs(base, j, k);
    HandRowIs(base, j', k');
    if j < j' {
      StartsAscend(j + 1, j');
    } else if j' < j {
      StartsAscend(j' + 1, j);
    }
  }

  lemma {:induction false} HandCount(base: nat, r: nat, j: nat, k: nat, j': nat, high: nat)
    requires IsRowOfHand(base, r, j, k) && j' < 2 * HAND_KINDS && high <= HAND_MAX[j' % HAND_KINDS]
    ensures HandSum(Only(r), base, j', 0, high) == if j' == j && k <= high then 1 else 0
    decreases high
  {
    hide HandRow;
    if high > 0 {
      HandCount(base, r, j, k, j', high - 1);
      if HandRow(base, j', high) == r {
        HandRowIsUnique(base, r, j, k, j', high);
      }
    }
  }

  lemma {:induction false} HandsCount(base: nat, r: nat, j: nat, k: nat, hand: seq<nat>, from: nat)
    requires IsRowOfHand(base, r, j, k) && |hand| == 2 * HAND_KINDS && from <= 2 * HAND_KINDS
    requires forall m: nat | m < 2 * HAND_KINDS :: hand[m] <= HAND_MAX[m % HAND_KINDS]
    ensures HandsDiff(Only(r), base, hand, NoHands(), from) == if from <= j && k <= hand[j] then 1 else 0
    decreases 2 * HAND_KINDS - from
  {
    hide HandSum, Only, HandRow;
    if from < 2 * HAND_KINDS {
      HandCount(base, r, j, k, from, hand[from]);
      HandsCount(base, r, j, k, hand, from + 1);
    }
  }

  lemma {:induction false} SquaresCountNothing(p: Color, base: nat, r: nat, i: nat, squares: set<nat>, s: nat)
    requires i < 2 * TYPE_IDS && s <= SQUARE_NB && r < base + HAND_SLOTS
    ensures PieceSum(Only(r), p, base, i, squares, s) == 0
    decreases SQUARE_NB - s
  {
    hide PieceRow;
    if s < SQUARE_NB {
      PieceRowInRange(p, base, i, s);
      SquaresCountNothing(p, base, r, i, squares, s + 1);
    }
  }

  lemma {:induction false} SetsCountNothing(p: Color, base: nat, r: nat, pieces: seq<set<nat>>, i: nat)
    requires |pieces| == 2 * TYPE_IDS && i <= 2 * TYPE_IDS && r < base + HAND_SLOTS
    ensures PiecesDiff(Only(r), p, base, pieces, NoPieces(), i) == 0
    decreases 2 * TYPE_IDS - i
  {
    hide PieceSum, Only;
    if i < 2 * TYPE_IDS {
      SquaresCountNothing(p, base, r, i, pieces[i] - NoPieces()[i], 0);
      SetsCountNothing(p, base, r, pieces, i + 1);
    }
  }

  // ----- both together -----

  lemma HandIsInSet(b: FeatureBoard, c: Color, h: nat)
    requires b.Valid() && b.WithinSet() && h < HAND_KINDS
    ensures b.Hand(c)[h] <= HAND_MAX[h]
  {
  }

  lemma HandsOfState(b: FeatureBoard, p: Color)
    requires b.Valid() && b.WithinSet()
    ensures forall j: nat | j < 2 * HAND_KINDS :: StateOf(b, p).hand[j] <= HAND_MAX[j % HAND_KINDS]
  {
    hide PiecesOf, TypeFromId;
    forall j: nat | j < 2 * HAND_KINDS
      ensures StateOf(b, p).hand[j] <= HAND_MAX[j % HAND_KINDS]
    {
      HandIsInSet(b, OwnerColor(p, j / HAND_KINDS), j % HAND_KINDS);
    }
  }

  /** Type numbers and piece kinds correspond. */
  lemma TypeIds(t: PieceType, tid: nat)
    requires 1 <= t <= 14 && tid < TYPE_IDS
    ensures TypeFromId(tid) == t <==> tid == TypeId(t)
    ensures TypeId(t) < TYPE_IDS && (TypeId(t) == 0 <==> t == KING)
  {
  }

  /** In a piece set of the state, exactly the pieces of that row. */
  lemma SetEntry(b: FeatureBoard, p: Color, r: nat, i: nat, s: nat)
    requires b.Valid() && b.WithinSet() && IsRowOf(p, KingFrameSq(b, p) * NUM_SLOTS, r, i, s)
    ensures !IsKingIndex(i) && s in StateOf(b, p).pieces[i] <==> IsPieceRow(b, p, r, s)
  {
    var owner, tid := i / TYPE_IDS, i % TYPE_IDS;
    assert i == owner * TYPE_IDS + tid;
    assert StateOf(b, p).pieces[i] == PiecesOf(b, OwnerColor(p, owner), TypeFromId(tid));
    if b.board[s].Piece? && 1 <= b.board[s].kind <= 14 {
      TypeIds(b.board[s].kind, tid);
    }
  }

  lemma HandEntryRow(b: FeatureBoard, p: Color, r: nat, j: nat, k: nat)
    requires b.Valid() && b.WithinSet() && IsRowOfHand(KingFrameSq(b, p) * NUM_SLOTS, r, j, k)
    ensures k <= StateOf(b, p).hand[j] <==> IsHandRow(b, p, r, OwnerColor(p, j / HAND_KINDS), j % HAND_KINDS, k)
  {
    hide PiecesOf, TypeFromId;
    assert j == j / HAND_KINDS * HAND_KINDS + j % HAND_KINDS && j / HAND_KINDS < 2;
  }

  /** A board row counts once if its piece is there. */
  lemma BoardRowOnce(b: FeatureBoard, p: Color, r: nat, i: nat, s: nat)
    requires b.Valid() && b.WithinSet() && IsRowOf(p, KingFrameSq(b, p) * NUM_SLOTS, r, i, s)
    ensures FeatureSum(Only(r), b, p) == if IsPieceRow(b, p, r, s) then 1 else 0
  {
    hide PiecesDiff, HandsDiff, StateOf, KingFrameSq, IsRowOf, IsPieceRow, Only;
    var base, st := KingFrameSq(b, p) * NUM_SLOTS, StateOf(b, p);
    RowOfIndex(p, base, r, i, s);
    HandsOfState(b, p);
    SetsCount(p, base, r, i, s, st.pieces, 0);
    HandsCountNothing(base, r, st.hand, 0);
    SetEntry(b, p, r, i, s);
  }

  /** A hand row counts once if the hand has that many of its kind. */
  lemma HandRowOnce(b: FeatureBoard, p: Color, r: nat, j: nat, k: nat)
    requires b.Valid() && b.WithinSet() && IsRowOfHand(KingFrameSq(b, p) * NUM_SLOTS, r, j, k)
    ensures FeatureSum(Only(r), b, p) == if IsHandRow(b, p, r, OwnerColor(p, j / HAND_KINDS), j % HAND_KINDS, k) then 1 else 0
  {
    hide PiecesDiff, HandsDiff, StateOf, KingFrameSq, IsHandRow, Only;
    var base, st := KingFrameSq(b, p) * NUM_SLOTS, StateOf(b, p);
    HandRowInHandPart(base, j, k);
    HandsOfState(b, p);
    HandsCount(base, r, j, k, st.hand, 0);
    SetsCountNothing(p, base, r, st.pieces, 0);
    HandEntryRow(b, p, r, j, k);
  }

  /** The square and piece set of a piece's row. */
  lemma PieceHasRow(b: FeatureBoard, p: Color, r: nat, s: nat)
    requires b.Valid() && b.WithinSet() && IsPieceRow(b, p, r, s)
    ensures IsRowOf(p, KingFrameSq(b, p) * NUM_SLOTS, r, Owner(p, b.board[s].color) * TYPE_IDS + TypeId(b.board[s].kind), s)
  {
    hide KingFrameSq;
    TypeIds(b.board[s].kind, 0);
  }

  lemma HandHasRow(b: FeatureBoard, p: Color, r: nat, c: Color, h: nat, k: nat)
    requires b.Valid() && b.WithinSet() && IsHandRow(b, p, r, c, h, k)
    ensures var j := Owner(p, c) * HAND_KINDS + h;
            IsRowOfHand(KingFrameSq(b, p) * NUM_SLOTS, r, j, k) && j % HAND_KINDS == h && OwnerColor(p, j / HAND_KINDS) == c
  {
    hide KingFrameSq;
    var j := Owner(p, c) * HAND_KINDS + h;
    HandIsInSet(b, c, h);
    assert j % HAND_KINDS == h && j / HAND_KINDS == Owner(p, c);
  }

  /** Every active row counts once. */
  lemma ActiveOnce(b: FeatureBoard, p: Color, r: nat)
    requires b.Valid() && b.WithinSet() && IsActive(b, p, r)
    ensures FeatureSum(Only(r), b, p) == 1
  {
    hide FeatureSum, IsPieceRow, IsHandRow, KingFrameSq, IsRowOf, IsRowOfHand;
    if s: nat :| IsPieceRow(b, p, r, s) {
      PieceHasRow(b, p, r, s);
      PieceRowSize(b, p, r, s);
      BoardRowOnce(b, p, r, Owner(p, b.board[s].color) * TYPE_IDS + TypeId(b.board[s].kind), s);
    } else {
      var c: Color, h: nat, k: nat :| IsHandRow(b, p, r, c, h, k);
      HandHasRow(b, p, r, c, h, k);
      HandRowOnce(b, p, r, Owner(p, c) * HAND_KINDS + h, k);
    }
  }

  lemma PieceRowSize(b: FeatureBoard, p: Color, r: nat, s: nat)
    requires b.Valid() && b.WithinSet() && IsPieceRow(b, p, r, s)
    ensures s < SQUARE_NB && b.board[s].Piece? && 1 <= b.board[s].kind <= 14
  {
  }

  /** A list that sums to the position's rows for every weighing lists exactly the active
      rows, each once. */
  lemma {:induction false} ListedExactly(b: FeatureBoard, p: Color, list: seq<nat>, r: nat)
    requires b.Valid() && b.WithinSet() && forall w: Weight :: SumRows(list, w) == FeatureSum(w, b, p)
    requires InRange(list, KingFrameSq(b, p) * NUM_SLOTS)
    ensures multiset(list)[r] == if IsActive(b, p, r) then 1 else 0
  {
    hide SumRows, FeatureSum, KingFrameSq, Only;
    SumCounts(list, r);
    if IsActive(b, p, r) {
      ActiveOnce(b, p, r);
    } else {
      hide IsActive;
      InactiveNever(b, p, r);
      RangeBounds(list, KingFrameSq(b, p) * NUM_SLOTS, r);
    }
  }

  lemma RangeBounds(list: seq<nat>, base: nat, r: nat)
    requires InRange(list, base)
    ensures multiset(list)[r] > 0 ==> base <= r < base + NUM_SLOTS
  {
    if multiset(list)[r] > 0 {
      assert r in multiset(list);
      assert r in list;
    }
  }

  lemma InactiveNever(b: FeatureBoard, p: Color, r: nat)
    requires b.Valid() && b.WithinSet() && !IsActive(b, p, r)
    ensures KingFrameSq(b, p) * NUM_SLOTS <= r < KingFrameSq(b, p) * NUM_SLOTS + NUM_SLOTS ==> FeatureSum(Only(r), b, p) == 0
  {
    hide FeatureSum, KingFrameSq, IsRowOf, IsRowOfHand, IsPieceRow, IsHandRow, Only;
    var base := KingFrameSq(b, p) * NUM_SLOTS;
    if base <= r < base + HAND_SLOTS {
      var j, k := HandOfRow(base, r);
      HandRowOnce(b, p, r, j, k);
    } else if base + HAND_SLOTS <= r < base + NUM_SLOTS {
      var i, s := SquareOfRow(p, base, r);
      BoardRowOnce(b, p, r, i, s);
    }
  }

  /** Every slot of the board part belongs to a piece set and a square. */
  lemma SquareOfRow(p: Color, base: nat, r: nat) returns (i: nat, s: nat)
    requires base + HAND_SLOTS <= r < base + NUM_SLOTS
    ensures IsRowOf(p, base, r, i, s)
  {
    var q := r - base - HAND_SLOTS;
    i := q / 81;
    s := FrameSq(p, q % 81);
    assert q == i * 81 + q % 81;
  }

  /** Every slot of the hand part belongs to a count. */
  lemma HandOfRow(base: nat, r: nat) returns (j: nat, k: nat)
    requires base <= r < base + HAND_SLOTS
    ensures IsRowOfHand(base, r, j, k)
  {
    var q := r - base;
    j := 0;
    while j + 1 < 2 * HAND_KINDS && q >= HAND_START[j + 1]
      invariant j < 2 * HAND_KINDS && HAND_START[j] <= q
    {
      j := j + 1;
    }
    assert q < HAND_START[j + 1];
    k := q - HAND_START[j] + 1;
    HandRowIs(base, j, k);
  }
}
