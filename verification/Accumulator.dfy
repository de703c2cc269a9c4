/** The value network's first-layer accumulators: the king-relative input rows of a
    position, their difference to a cached state, and the cache that applies it. */
module Accumulator {
  import opened Shogi

  // ----- slots -----

  const TYPE_IDS: nat := 14
  const HAND_KINDS: nat := 7
  /** The most of a kind that the packed hand can count, and that the slots are laid out for. */
  const HAND_FIELD: seq<nat> := [31, 7, 7, 7, 3, 3, 7]
  const HAND_MAX: seq<nat> := [18, 4, 4, 4, 2, 2, 4]
  const HAND_OFF: seq<nat> := [0, 18, 22, 26, 30, 32, 34]
  const HAND_SLOTS_PER_OWNER: nat := 38
  const HAND_SLOTS: nat := 76
  const NUM_SLOTS: nat := 2344

  /** Kings come first, then the unpromoted kinds, then the promoted ones. */
  function TypeFromId(tid: nat): PieceType
    requires tid < TYPE_IDS
  {
    if tid == 0 then KING else if tid < 8 then tid else tid + 1
  }

  function TypeId(t: PieceType): nat
    requires 1 <= t <= 14
  {
    if t == KING then 0 else if t < 8 then t else t - 1
  }

  function BoardSlot(owner: nat, tid: nat, frameSq: nat): nat {
    HAND_SLOTS + (owner * TYPE_IDS + tid) * 81 + frameSq
  }

  function HandSlot(owner: nat, kind: nat, countIndex: nat): int
    requires kind < HAND_KINDS
  {
    owner * HAND_SLOTS_PER_OWNER + HAND_OFF[kind] + countIndex - 1
  }

  /** A square as the given side sees it. */
  function FrameSq(p: Color, sq: nat): nat
    requires sq < SQUARE_NB
  {
    if p.Black? then sq else 80 - sq
  }

  // ----- positions and cached states -----

  /** Pieces by square, hand counts by kind, and king squares, 81 when there is none. */
  datatype FeatureBoard = FeatureBoard(board: seq<Piece>, blackHand: seq<nat>, whiteHand: seq<nat>, blackKing: nat, whiteKing: nat)
  {
    predicate Valid() {
      && |board| == SQUARE_NB && |blackHand| == HAND_KINDS && |whiteHand| == HAND_KINDS
      && forall h: nat | h < HAND_KINDS :: blackHand[h] <= HAND_FIELD[h] && whiteHand[h] <= HAND_FIELD[h]
    }

    /** No hand holds more than a set has. */
    predicate WithinSet()
      requires Valid()
    {
      forall h: nat | h < HAND_KINDS :: blackHand[h] <= HAND_MAX[h] && whiteHand[h] <= HAND_MAX[h]
    }

    function Hand(c: Color): seq<nat> { if c.Black? then blackHand else whiteHand }

    function KingSquare(c: Color): nat { if c.Black? then blackKing else whiteKing }
  }

  function PiecesOf(b: FeatureBoard, c: Color, t: PieceType): set<nat>
    requires b.Valid()
  {
    set s: nat | s < SQUARE_NB && b.board[s] == Piece(c, t)
  }

  function KingFrameSq(b: FeatureBoard, p: Color): (k: nat)
    ensures k < 81
  {
    if b.KingSquare(p) < SQUARE_NB then FrameSq(p, b.KingSquare(p)) else 0
  }

  /** What a cached accumulator has summed: piece sets by owner and type, hand counts by
      owner and kind, each as one list with the own side first. */
  datatype FrameState = FrameState(pieces: seq<set<nat>>, hand: seq<nat>, initialized: bool)
  {
    predicate Sized() { |pieces| == 2 * TYPE_IDS && |hand| == 2 * HAND_KINDS }
  }

  function NoPieces(): (n: seq<set<nat>>)
    ensures |n| == 2 * TYPE_IDS && forall i: nat | i < 2 * TYPE_IDS :: n[i] == {}
  {
    seq(2 * TYPE_IDS, _ => {})
  }

  function NoHands(): (n: seq<nat>)
    ensures |n| == 2 * HAND_KINDS && forall j: nat | j < 2 * HAND_KINDS :: n[j] == 0
  {
    seq(2 * HAND_KINDS, _ => 0)
  }

  /** A state that has summed nothing. */
  function EmptyState(): FrameState { FrameState(NoPieces(), NoHands(), false) }

  /** Squares on the board and hands within their fields. */
  ghost predicate ValidState(st: FrameState) {
    && st.Sized()
    && (forall i: nat | i < 2 * TYPE_IDS :: OnBoard(st.pieces[i]))
    && (forall j: nat | j < 2 * HAND_KINDS :: st.hand[j] <= HAND_FIELD[j % HAND_KINDS])
  }

  function Owner(p: Color, c: Color): nat { if c == p then 0 else 1 }

  function OwnerColor(p: Color, owner: nat): Color { if owner == 0 then p else p.Other() }

  /** The places of an owner's piece sets, without the king's, and of its hand counts. */
  predicate InPieces(owner: nat, i: nat) { owner < 2 && owner * TYPE_IDS < i < (owner + 1) * TYPE_IDS }

  predicate InHand(owner: nat, j: nat) { owner < 2 && owner * HAND_KINDS <= j < (owner + 1) * HAND_KINDS }

  /** The entries of one colour describe the position. */
  ghost predicate DescribesSide(st: FrameState, b: FeatureBoard, p: Color, c: Color)
    requires b.Valid() && st.Sized()
  {
    var owner := Owner(p, c);
    && (forall i: nat | InPieces(owner, i) :: st.pieces[i] == PiecesOf(b, c, TypeFromId(i - owner * TYPE_IDS)))
    && (forall j: nat | InHand(owner, j) :: st.hand[j] == b.Hand(c)[j - owner * HAND_KINDS])
  }

  /** The state that describes a position in the frame of `p`. */
  ghost predicate Describes(st: FrameState, b: FeatureBoard, p: Color)
    requires b.Valid() && st.Sized()
  {
    DescribesSide(st, b, p, Black) && DescribesSide(st, b, p, White)
  }

  function StateOf(b: FeatureBoard, p: Color): (st: FrameState)
    requires b.Valid()
    ensures st.Sized()
  {
    FrameState(
      seq(2 * TYPE_IDS, (i: nat) requires i < 2 * TYPE_IDS => PiecesOf(b, OwnerColor(p, i / TYPE_IDS), TypeFromId(i % TYPE_IDS))),
      seq(2 * HAND_KINDS, (j: nat) requires j < 2 * HAND_KINDS => b.Hand(OwnerColor(p, j / HAND_KINDS))[j % HAND_KINDS]),
      true)
  }

  // ----- sums of rows -----

  /** What a row contributes: one lane of its weights, or a count of it. */
  type Weight = nat -> int

  ghost function SumRows(list: seq<nat>, w: Weight): int {
    if list == [] then 0 else SumRows(list[..|list| - 1], w) + w(list[|list| - 1])
  }

  lemma SumPush(list: seq<nat>, row: nat, w: Weight)
    ensures SumRows(list + [row], w) == SumRows(list, w) + w(row)
  {
    assert (list + [row])[..|list|] == list;
  }

  /** The row of the piece on square `s`, for owner and type joined in `i`. */
  function PieceRow(p: Color, base: nat, i: nat, s: nat): nat
    requires s < SQUARE_NB
  {
    base + HAND_SLOTS + i * 81 + FrameSq(p, s)
  }

  /** The row of the `k`-th piece in hand, for owner and kind joined in `j`. */
  function HandRow(base: nat, j: nat, k: nat): nat
    requires j < 2 * HAND_KINDS && k >= 1
  {
    base + HandSlot(j / HAND_KINDS, j % HAND_KINDS, k)
  }

  ghost function PieceSum(w: Weight, p: Color, base: nat, i: nat, squares: set<nat>, s: nat): int
    requires s <= SQUARE_NB
    decreases SQUARE_NB - s
  {
    if s == SQUARE_NB then 0
    else (if s in squares then w(PieceRow(p, base, i, s)) else 0) + PieceSum(w, p, base, i, squares, s + 1)
  }

  /** The pieces in hand above `low` up to `high`. */
  ghost function HandSum(w: Weight, base: nat, j: nat, low: nat, high: nat): int
    requires j < 2 * HAND_KINDS
    decreases high
  {
    if high <= low then 0 else HandSum(w, base, j, low, high - 1) + w(HandRow(base, j, high))
  }

  /** Kings have no row: the list of types starts after them. */
  predicate IsKingIndex(i: nat) { i == 0 || i == TYPE_IDS }

  ghost function PiecesDiff(w: Weight, p: Color, base: nat, a: seq<set<nat>>, b: seq<set<nat>>, i: nat): int
    requires |a| == 2 * TYPE_IDS == |b| && i <= 2 * TYPE_IDS
    decreases 2 * TYPE_IDS - i
  {
    if i == 2 * TYPE_IDS then 0
    else (if IsKingIndex(i) then 0 else PieceSum(w, p, base, i, a[i] - b[i], 0)) + PiecesDiff(w, p, base, a, b, i + 1)
  }

  ghost function HandsDiff(w: Weight, base: nat, a: seq<nat>, b: seq<nat>, j: nat): int
    requires |a| == 2 * HAND_KINDS == |b| && j <= 2 * HAND_KINDS
    decreases 2 * HAND_KINDS - j
  {
    if j == 2 * HAND_KINDS then 0 else HandSum(w, base, j, b[j], a[j]) + HandsDiff(w, base, a, b, j + 1)
  }

  /** The rows of `a` that `b` does not have. */
  ghost function DiffRows(w: Weight, p: Color, base: nat, a: FrameState, b: FrameState): int
    requires a.Sized() && b.Sized()
  {
    PiecesDiff(w, p, base, a.pieces, b.pieces, 0) + HandsDiff(w, base, a.hand, b.hand, 0)
  }

  /** All rows of a state. */
  ghost function Rows(w: Weight, p: Color, base: nat, st: FrameState): int
    requires st.Sized()
  {
    DiffRows(w, p, base, st, EmptyState())
  }

  // ----- the algebra of differences -----

  lemma {:induction false} PieceSumDiff(w: Weight, p: Color, base: nat, i: nat, a: set<nat>, b: set<nat>, s: nat)
    requires s <= SQUARE_NB
    ensures PieceSum(w, p, base, i, a - b, s) - PieceSum(w, p, base, i, b - a, s) ==
            PieceSum(w, p, base, i, a, s) - PieceSum(w, p, base, i, b, s)
    decreases SQUARE_NB - s
  {
    if s < SQUARE_NB {
      PieceSumDiff(w, p, base, i, a, b, s + 1);
    }
  }

  lemma {:induction false} HandSumDiff(w: Weight, base: nat, j: nat, a: nat, b: nat)
    requires j < 2 * HAND_KINDS
    ensures HandSum(w, base, j, b, a) - HandSum(w, base, j, a, b) == HandSum(w, base, j, 0, a) - HandSum(w, base, j, 0, b)
    decreases a + b
  {
    if a > b {
      HandSumDiff(w, base, j, a - 1, b);
    } else if b > a {
      HandSumDiff(w, base, j, a, b - 1);
    }
  }

  lemma {:induction false} PiecesDiffDiff(w: Weight, p: Color, base: nat, a: seq<set<nat>>, b: seq<set<nat>>, i: nat)
    requires |a| == 2 * TYPE_IDS == |b| && i <= 2 * TYPE_IDS
    ensures PiecesDiff(w, p, base, a, b, i) - PiecesDiff(w, p, base, b, a, i) ==
            PiecesDiff(w, p, base, a, NoPieces(), i) - PiecesDiff(w, p, base, b, NoPieces(), i)
    decreases 2 * TYPE_IDS - i
  {
    hide PieceSum;
    if i < 2 * TYPE_IDS {
      PieceSumDiff(w, p, base, i, a[i], b[i], 0);
      assert a[i] - NoPieces()[i] == a[i] && b[i] - NoPieces()[i] == b[i];
      PiecesDiffDiff(w, p, base, a, b, i + 1);
    }
  }

  lemma {:induction false} HandsDiffDiff(w: Weight, base: nat, a: seq<nat>, b: seq<nat>, j: nat)
    requires |a| == 2 * HAND_KINDS == |b| && j <= 2 * HAND_KINDS
    ensures HandsDiff(w, base, a, b, j) - HandsDiff(w, base, b, a, j) ==
            HandsDiff(w, base, a, NoHands(), j) - HandsDiff(w, base, b, NoHands(), j)
    decreases 2 * HAND_KINDS - j
  {
    hide HandSum;
    if j < 2 * HAND_KINDS {
      HandSumDiff(w, base, j, a[j], b[j]);
      HandsDiffDiff(w, base, a, b, j + 1);
    }
  }

  /** Adding what is new and subtracting what is gone turns one total into the other. */
  lemma {:induction false} DiffIsDifference(w: Weight, p: Color, base: nat, a: FrameState, b: FrameState)
    requires a.Sized() && b.Sized()
    ensures DiffRows(w, p, base, a, b) - DiffRows(w, p, base, b, a) == Rows(w, p, base, a) - Rows(w, p, base, b)
  {
    PiecesDiffDiff(w, p, base, a.pieces, b.pieces, 0);
    HandsDiffDiff(w, base, a.hand, b.hand, 0);
    hide PiecesDiff, HandsDiff;
  }

  lemma {:induction false} PiecesDiffUpdate(w: Weight, p: Color, base: nat, a: seq<set<nat>>, b: seq<set<nat>>, k: nat, squares: set<nat>, i: nat)
    requires |a| == 2 * TYPE_IDS == |b| && i <= 2 * TYPE_IDS && k < 2 * TYPE_IDS && !IsKingIndex(k) && a[k] == b[k]
    ensures PiecesDiff(w, p, base, a[k := squares], b, i) ==
            PiecesDiff(w, p, base, a, b, i) + if i <= k then PieceSum(w, p, base, k, squares - b[k], 0) else 0
    ensures PiecesDiff(w, p, base, b, a[k := squares], i) ==
            PiecesDiff(w, p, base, b, a, i) + if i <= k then PieceSum(w, p, base, k, b[k] - squares, 0) else 0
    decreases 2 * TYPE_IDS - i
  {
    hide PieceSum;
    if i < 2 * TYPE_IDS {
      PiecesDiffUpdate(w, p, base, a, b, k, squares, i + 1);
      assert a[k] - b[k] == {} && b[k] - a[k] == {};
      NoSquares(w, p, base, k, 0);
    }
  }

  lemma {:induction false} NoSquares(w: Weight, p: Color, base: nat, i: nat, s: nat)
    requires s <= SQUARE_NB
    ensures PieceSum(w, p, base, i, {}, s) == 0
    decreases SQUARE_NB - s
  {
    if s < SQUARE_NB {
      NoSquares(w, p, base, i, s + 1);
    }
  }

  lemma {:induction false} HandsDiffUpdate(w: Weight, base: nat, a: seq<nat>, b: seq<nat>, k: nat, n: nat, j: nat)
    requires |a| == 2 * HAND_KINDS == |b| && j <= 2 * HAND_KINDS && k < 2 * HAND_KINDS && a[k] == b[k]
    ensures HandsDiff(w, base, a[k := n], b, j) == HandsDiff(w, base, a, b, j) + if j <= k then HandSum(w, base, k, b[k], n) else 0
    ensures HandsDiff(w, base, b, a[k := n], j) == HandsDiff(w, base, b, a, j) + if j <= k then HandSum(w, base, k, n, b[k]) else 0
    decreases 2 * HAND_KINDS - j
  {
    if j < 2 * HAND_KINDS {
      HandsDiffUpdate(w, base, a, b, k, n, j + 1);
    }
  }

  lemma {:induction false} PieceSumTake(w: Weight, p: Color, base: nat, i: nat, squares: set<nat>, x: nat, s: nat)
    requires s <= SQUARE_NB && x in squares && x < SQUARE_NB
    ensures PieceSum(w, p, base, i, squares, s) ==
            PieceSum(w, p, base, i, squares - {x}, s) + if s <= x then w(PieceRow(p, base, i, x)) else 0
    decreases SQUARE_NB - s
  {
    if s < SQUARE_NB {
      PieceSumTake(w, p, base, i, squares, x, s + 1);
    }
  }

  // ----- listing rows -----

  /** Every row listed belongs to the king square of `base`. */
  ghost predicate InRange(list: seq<nat>, base: nat) {
    forall x | x in list :: base <= x < base + NUM_SLOTS
  }

  lemma RangePush(list: seq<nat>, base: nat, row: nat)
    requires InRange(list, base) && base <= row < base + NUM_SLOTS
    ensures InRange(list + [row], base)
  {
  }

  lemma PieceRowInRange(p: Color, base: nat, i: nat, s: nat)
    requires i < 2 * TYPE_IDS && s < SQUARE_NB
    ensures base + HAND_SLOTS <= PieceRow(p, base, i, s) < base + NUM_SLOTS
  {
  }

  lemma HandRowInRange(base: nat, j: nat, k: nat)
    requires j < 2 * HAND_KINDS && 1 <= k <= HAND_FIELD[j % HAND_KINDS]
    ensures base <= HandRow(base, j, k) < base + NUM_SLOTS
  {
  }

  ghost predicate OnBoard(squares: set<nat>) {
    forall s | s in squares :: s < SQUARE_NB
  }

  /** Pops a bitboard square by square onto a feature list. */
  method PushSquares(list: seq<nat>, squares: set<nat>, p: Color, base: nat, i: nat) returns (out: seq<nat>)
    requires OnBoard(squares) && InRange(list, base) && i < 2 * TYPE_IDS
    ensures InRange(out, base)
    ensures forall w: Weight :: SumRows(out, w) == SumRows(list, w) + PieceSum(w, p, base, i, squares, 0)
  {
    hide PieceRow, SumRows, PieceSum, InRange;
    out := list;
    var bb := squares;
    while bb != {}
      invariant bb <= squares && InRange(out, base)
      invariant forall w: Weight :: SumRows(out, w) + PieceSum(w, p, base, i, bb, 0) == SumRows(list, w) + PieceSum(w, p, base, i, squares, 0)
      decreases |bb|
    {
      var sq := Peek(bb);
      ghost var before, rest := out, bb;
      bb := bb - {sq};
      PieceRowInRange(p, base, i, sq);
      RangePush(out, base, PieceRow(p, base, i, sq));
      out := out + [PieceRow(p, base, i, sq)];
      forall w: Weight
        ensures SumRows(out, w) + PieceSum(w, p, base, i, bb, 0) == SumRows(list, w) + PieceSum(w, p, base, i, squares, 0)
      {
        SumPush(before, PieceRow(p, base, i, sq), w);
        PieceSumTake(w, p, base, i, rest, sq, 0);
        assert SumRows(before, w) + PieceSum(w, p, base, i, rest, 0) == SumRows(list, w) + PieceSum(w, p, base, i, squares, 0);
      }
    }
    forall w: Weight
      ensures SumRows(out, w) == SumRows(list, w) + PieceSum(w, p, base, i, squares, 0)
    {
      NoSquares(w, p, base, i, 0);
      assert SumRows(out, w) + PieceSum(w, p, base, i, bb, 0) == SumRows(list, w) + PieceSum(w, p, base, i, squares, 0);
    }
  }

  ghost predicate HandPushed(list: seq<nat>, out: seq<nat>, base: nat, j: nat, low: nat, high: nat)
    requires j < 2 * HAND_KINDS
  {
    forall w: Weight :: SumRows(out, w) == SumRows(list, w) + HandSum(w, base, j, low, high)
  }

  lemma NothingPushed(list: seq<nat>, base: nat, j: nat, low: nat, high: nat)
    requires j < 2 * HAND_KINDS && high <= low
    ensures HandPushed(list, list, base, j, low, high)
  {
  }

  lemma OnePushed(list: seq<nat>, out: seq<nat>, base: nat, j: nat, low: nat, k: nat)
    requires j < 2 * HAND_KINDS && k > low && HandPushed(list, out, base, j, low, k - 1)
    ensures HandPushed(list, out + [HandRow(base, j, k)], base, j, low, k)
  {
    forall w: Weight
      ensures SumRows(out + [HandRow(base, j, k)], w) == SumRows(list, w) + HandSum(w, base, j, low, k)
    {
      SumPush(out, HandRow(base, j, k), w);
    }
  }

  /** Pushes the hand rows above `low` up to `high`. */
  method PushHand(list: seq<nat>, base: nat, j: nat, low: nat, high: nat) returns (out: seq<nat>)
    requires j < 2 * HAND_KINDS && InRange(list, base) && high <= HAND_FIELD[j % HAND_KINDS]
    ensures HandPushed(list, out, base, j, low, high) && InRange(out, base)
  {
    hide HandRow, HandPushed, InRange;
    out := list;
    NothingPushed(list, base, j, low, low);
    if high <= low {
      NothingPushed(list, base, j, low, high);
    }
    var k: nat := low + 1;
    while k <= high
      invariant low + 1 <= k && (k <= high + 1 || k == low + 1)
      invariant HandPushed(list, out, base, j, low, k - 1) && (high <= low ==> out == list)
      invariant InRange(out, base)
    {
      OnePushed(list, out, base, j, low, k);
      HandRowInRange(base, j, k);
      RangePush(out, base, HandRow(base, j, k));
      out := out + [HandRow(base, j, k)];
      k := k + 1;
    }
  }

  /** The lists hold exactly what leads from `was` to `now`. */
  ghost predicate Leads(p: Color, base: nat, was: FrameState, now: FrameState, adds: seq<nat>, subs: seq<nat>) {
    && was.Sized() && now.Sized() && InRange(adds, base) && InRange(subs, base)
    && (forall w: Weight :: SumRows(adds, w) == DiffRows(w, p, base, now, was))
    && (forall w: Weight :: SumRows(subs, w) == DiffRows(w, p, base, was, now))
  }

  lemma LeadsNowhere(p: Color, base: nat, st: FrameState)
    requires st.Sized()
    ensures Leads(p, base, st, st, [], [])
  {
    forall w: Weight
      ensures DiffRows(w, p, base, st, st) == 0
    {
      NoPiecesDiff(w, p, base, st.pieces, 0);
      NoHandsDiff(w, base, st.hand, 0);
    }
  }

  lemma {:induction false} NoPiecesDiff(w: Weight, p: Color, base: nat, a: seq<set<nat>>, i: nat)
    requires |a| == 2 * TYPE_IDS && i <= 2 * TYPE_IDS
    ensures PiecesDiff(w, p, base, a, a, i) == 0
    decreases 2 * TYPE_IDS - i
  {
    hide PieceSum;
    if i < 2 * TYPE_IDS {
      assert a[i] - a[i] == {};
      NoSquares(w, p, base, i, 0);
      NoPiecesDiff(w, p, base, a, i + 1);
    }
  }

  lemma {:induction false} NoHandsDiff(w: Weight, base: nat, a: seq<nat>, j: nat)
    requires |a| == 2 * HAND_KINDS && j <= 2 * HAND_KINDS
    ensures HandsDiff(w, base, a, a, j) == 0
    decreases 2 * HAND_KINDS - j
  {
    if j < 2 * HAND_KINDS {
      NoHandsDiff(w, base, a, j + 1);
    }
  }

  /** Bringing one piece set up to date. */
  method DiffPieces(p: Color, base: nat, i: nat, cur: set<nat>, ghost was: FrameState, st: FrameState, adds: seq<nat>, subs: seq<nat>)
    returns (st': FrameState, adds': seq<nat>, subs': seq<nat>)
    requires i < 2 * TYPE_IDS && !IsKingIndex(i) && Leads(p, base, was, st, adds, subs) && st.pieces[i] == was.pieces[i]
    requires OnBoard(cur) && OnBoard(st.pieces[i])
    ensures st' == st.(pieces := st.pieces[i := cur]) && Leads(p, base, was, st', adds', subs')
  {
    hide PieceSum, PiecesDiff, HandsDiff, SumRows;
    var before := st.pieces[i];
    adds', subs' := adds, subs;
    if cur == before {
      assert st.pieces[i := cur] == st.pieces;
      return st, adds, subs;
    }
    subs' := PushSquares(subs, before - cur, p, base, i);
    adds' := PushSquares(adds, cur - before, p, base, i);
    st' := st.(pieces := st.pieces[i := cur]);
    forall w: Weight
      ensures SumRows(adds', w) == DiffRows(w, p, base, st', was)
      ensures SumRows(subs', w) == DiffRows(w, p, base, was, st')
    {
      PiecesDiffUpdate(w, p, base, st.pieces, was.pieces, i, cur, 0);
      assert SumRows(adds, w) == DiffRows(w, p, base, st, was);
      assert SumRows(subs, w) == DiffRows(w, p, base, was, st);
    }
  }

  /** Bringing one hand count up to date. */
  method DiffHand(p: Color, base: nat, j: nat, nc: nat, ghost was: FrameState, st: FrameState, adds: seq<nat>, subs: seq<nat>)
    returns (st': FrameState, adds': seq<nat>, subs': seq<nat>)
    requires j < 2 * HAND_KINDS && Leads(p, base, was, st, adds, subs) && st.hand[j] == was.hand[j]
    requires nc <= HAND_FIELD[j % HAND_KINDS] && st.hand[j] <= HAND_FIELD[j % HAND_KINDS]
    ensures st' == st.(hand := st.hand[j := nc]) && Leads(p, base, was, st', adds', subs')
  {
    hide HandSum, PiecesDiff, HandsDiff, SumRows;
    var oc := st.hand[j];
    adds' := PushHand(adds, base, j, oc, nc);
    subs' := PushHand(subs, base, j, nc, oc);
    st' := st.(hand := st.hand[j := nc]);
    forall w: Weight
      ensures SumRows(adds', w) == DiffRows(w, p, base, st', was)
      ensures SumRows(subs', w) == DiffRows(w, p, base, was, st')
    {
      HandsDiffUpdate(w, base, st.hand, was.hand, j, nc, 0);
      assert SumRows(adds, w) == DiffRows(w, p, base, st, was);
      assert SumRows(subs, w) == DiffRows(w, p, base, was, st);
    }
  }

  // ----- the difference to a position -----

  /** The entries of one colour are still the ones they were. */
  ghost predicate SameSide(st: FrameState, was: FrameState, owner: nat)
    requires st.Sized() && was.Sized() && owner < 2
  {
    && (forall i: nat | InPieces(owner, i) :: st.pieces[i] == was.pieces[i])
    && (forall j: nat | InHand(owner, j) :: st.hand[j] == was.hand[j])
  }

  lemma PiecesAreOnBoard(b: FeatureBoard, c: Color, t: PieceType)
    requires b.Valid()
    ensures OnBoard(PiecesOf(b, c, t))
  {
  }

  lemma UpdatedIsValid(st: FrameState, i: nat, squares: set<nat>, j: nat, n: nat)
    requires ValidState(st) && i < 2 * TYPE_IDS && j < 2 * HAND_KINDS && OnBoard(squares) && n <= HAND_FIELD[j % HAND_KINDS]
    ensures ValidState(st.(pieces := st.pieces[i := squares])) && ValidState(st.(hand := st.hand[j := n]))
  {
  }

  lemma EntryIsValid(st: FrameState, i: nat, j: nat)
    requires ValidState(st) && i < 2 * TYPE_IDS && j < 2 * HAND_KINDS
    ensures OnBoard(st.pieces[i]) && st.hand[j] <= HAND_FIELD[j % HAND_KINDS]
  {
  }

  /** One colour's piece sets. */
  method DiffSidePieces(b: FeatureBoard, p: Color, base: nat, c: Color, ghost was: FrameState, st: FrameState, adds: seq<nat>, subs: seq<nat>)
    returns (st': FrameState, adds': seq<nat>, subs': seq<nat>)
    requires b.Valid() && ValidState(st) && Leads(p, base, was, st, adds, subs) && was.Sized() && SameSide(st, was, Owner(p, c))
    ensures ValidState(st') && Leads(p, base, was, st', adds', subs') && st'.hand == st.hand
    ensures forall i: nat | InPieces(Owner(p, c), i) :: st'.pieces[i] == PiecesOf(b, c, TypeFromId(i - Owner(p, c) * TYPE_IDS))
    ensures forall i: nat | i < 2 * TYPE_IDS && !InPieces(Owner(p, c), i) :: st'.pieces[i] == st.pieces[i]
  {
    hide Leads, PiecesOf, TypeFromId, OnBoard, ValidState;
    StateIsSized(st);
    st', adds', subs' := st, adds, subs;
    var owner := Owner(p, c);
    var tid: nat := 1;
    while tid < TYPE_IDS
      invariant 1 <= tid <= TYPE_IDS && st'.Sized()
      invariant ValidState(st') && Leads(p, base, was, st', adds', subs') && st'.hand == st.hand
      invariant forall i: nat | InPieces(owner, i) && i < owner * TYPE_IDS + tid ::
                  st'.pieces[i] == PiecesOf(b, c, TypeFromId(i - owner * TYPE_IDS))
      invariant forall i: nat | InPieces(owner, i) && i >= owner * TYPE_IDS + tid :: st'.pieces[i] == was.pieces[i]
      invariant forall i: nat | i < 2 * TYPE_IDS && !InPieces(owner, i) :: st'.pieces[i] == st.pieces[i]
    {
      var i := owner * TYPE_IDS + tid;
      var cur := PiecesOf(b, c, TypeFromId(tid));
      assert InPieces(owner, i);
      PiecesAreOnBoard(b, c, TypeFromId(tid));
      EntryIsValid(st', i, 0);
      UpdatedIsValid(st', i, cur, 0, 0);
      st', adds', subs' := DiffPieces(p, base, i, cur, was, st', adds', subs');
      tid := tid + 1;
    }
  }

  lemma StateIsSized(st: FrameState)
    requires ValidState(st)
    ensures st.Sized()
  {
  }

  lemma HandIsSmall(b: FeatureBoard, c: Color, h: nat)
    requires b.Valid() && h < HAND_KINDS
    ensures b.Hand(c)[h] <= HAND_FIELD[h]
  {
  }

  /** One kind of piece in hand. */
  method DiffHandEntry(b: FeatureBoard, p: Color, base: nat, c: Color, h: nat, ghost was: FrameState, st: FrameState, adds: seq<nat>, subs: seq<nat>)
    returns (st': FrameState, adds': seq<nat>, subs': seq<nat>)
    requires b.Valid() && ValidState(st) && st.Sized() && was.Sized() && Leads(p, base, was, st, adds, subs) && h < HAND_KINDS
    requires st.hand[Owner(p, c) * HAND_KINDS + h] == was.hand[Owner(p, c) * HAND_KINDS + h]
    ensures ValidState(st') && st'.Sized() && Leads(p, base, was, st', adds', subs')
    ensures st' == st.(hand := st.hand[Owner(p, c) * HAND_KINDS + h := b.Hand(c)[h]])
  {
    hide Leads, ValidState;
    var j, nc := Owner(p, c) * HAND_KINDS + h, b.Hand(c)[h];
    assert j % HAND_KINDS == h;
    HandIsSmall(b, c, h);
    EntryIsValid(st, 0, j);
    UpdatedIsValid(st, 0, {}, j, nc);
    st', adds', subs' := DiffHand(p, base, j, nc, was, st, adds, subs);
  }

  /** One colour's hand. */
  method DiffSideHand(b: FeatureBoard, p: Color, base: nat, c: Color, ghost was: FrameState, st: FrameState, adds: seq<nat>, subs: seq<nat>)
    returns (st': FrameState, adds': seq<nat>, subs': seq<nat>)
    requires b.Valid() && ValidState(st) && Leads(p, base, was, st, adds, subs) && was.Sized()
    requires forall j: nat | InHand(Owner(p, c), j) :: st.hand[j] == was.hand[j]
    ensures ValidState(st') && Leads(p, base, was, st', adds', subs') && st'.pieces == st.pieces
    ensures forall j: nat | InHand(Owner(p, c), j) :: st'.hand[j] == b.Hand(c)[j - Owner(p, c) * HAND_KINDS]
    ensures forall j: nat | j < 2 * HAND_KINDS && !InHand(Owner(p, c), j) :: st'.hand[j] == st.hand[j]
  {
    hide Leads, ValidState;
    StateIsSized(st);
    st', adds', subs' := st, adds, subs;
    var owner := Owner(p, c);
    var h: nat := 0;
    while h < HAND_KINDS
      invariant h <= HAND_KINDS && st'.Sized()
      invariant ValidState(st') && Leads(p, base, was, st', adds', subs') && st'.pieces == st.pieces
      invariant forall j: nat | InHand(owner, j) && j < owner * HAND_KINDS + h :: st'.hand[j] == b.Hand(c)[j - owner * HAND_KINDS]
      invariant forall j: nat | InHand(owner, j) && j >= owner * HAND_KINDS + h :: st'.hand[j] == was.hand[j]
      invariant forall j: nat | j < 2 * HAND_KINDS && !InHand(owner, j) :: st'.hand[j] == st.hand[j]
    {
      st', adds', subs' := DiffHandEntry(b, p, base, c, h, was, st', adds', subs');
      h := h + 1;
    }
  }

  method DiffSide(b: FeatureBoard, p: Color, base: nat, c: Color, ghost was: FrameState, st: FrameState, adds: seq<nat>, subs: seq<nat>)
    returns (st': FrameState, adds': seq<nat>, subs': seq<nat>)
    requires b.Valid() && ValidState(st) && Leads(p, base, was, st, adds, subs) && was.Sized() && SameSide(st, was, Owner(p, c))
    ensures ValidState(st') && Leads(p, base, was, st', adds', subs') && DescribesSide(st', b, p, c)
    ensures SameSide(st', st, 1 - Owner(p, c))
  {
    hide Leads, ValidState, PiecesOf, TypeFromId;
    StateIsSized(st);
    st', adds', subs' := DiffSidePieces(b, p, base, c, was, st, adds, subs);
    StateIsSized(st');
    st', adds', subs' := DiffSideHand(b, p, base, c, was, st', adds', subs');
    StateIsSized(st');
  }

  /** Group A of a position as a difference to a cached state: the state ends up describing
      the position, and the two lists hold the rows to add and to subtract. */
  method GroupADiff(b: FeatureBoard, p: Color, st: FrameState) returns (st': FrameState, adds: seq<nat>, subs: seq<nat>)
    requires b.Valid() && ValidState(st)
    ensures ValidState(st') && st'.initialized && Describes(st', b, p)
    ensures Leads(p, KingFrameSq(b, p) * NUM_SLOTS, st, st', adds, subs)
  {
    hide Leads, ValidState, DescribesSide, SameSide, KingFrameSq;
    var base := KingFrameSq(b, p) * NUM_SLOTS;
    StateIsSized(st);
    LeadsNowhere(p, base, st);
    SameAsItself(st);
    st', adds, subs := DiffSide(b, p, base, Black, st, st, [], []);
    ghost var mid := st';
    StateIsSized(mid);
    st', adds, subs := DiffSide(b, p, base, White, st, st', adds, subs);
    StateIsSized(st');
    StillDescribes(st', mid, b, p, Black);
    InitializedToo(st, st', b, p, base, adds, subs);
    st' := st'.(initialized := true);
  }

  lemma SameAsItself(st: FrameState)
    requires st.Sized()
    ensures SameSide(st, st, 0) && SameSide(st, st, 1)
  {
  }

  lemma StillDescribes(st: FrameState, mid: FrameState, b: FeatureBoard, p: Color, c: Color)
    requires b.Valid() && st.Sized() && mid.Sized() && DescribesSide(mid, b, p, c) && SameSide(st, mid, Owner(p, c))
    ensures DescribesSide(st, b, p, c)
  {
    hide PiecesOf, TypeFromId;
  }

  lemma InitializedToo(was: FrameState, st: FrameState, b: FeatureBoard, p: Color, base: nat, adds: seq<nat>, subs: seq<nat>)
    requires b.Valid() && ValidState(st) && Describes(st, b, p) && Leads(p, base, was, st, adds, subs)
    ensures ValidState(st.(initialized := true)) && Describes(st.(initialized := true), b, p)
    ensures Leads(p, base, was, st.(initialized := true), adds, subs)
  {
    hide PiecesDiff, HandsDiff, SumRows, PiecesOf, OnBoard, InPieces, InHand, TypeFromId;
    var st' := st.(initialized := true);
    forall w: Weight
      ensures SumRows(adds, w) == DiffRows(w, p, base, st', was)
      ensures SumRows(subs, w) == DiffRows(w, p, base, was, st')
    {
      assert DiffRows(w, p, base, st', was) == DiffRows(w, p, base, st, was);
      assert DiffRows(w, p, base, was, st') == DiffRows(w, p, base, was, st);
    }
  }

  // ----- from scratch -----

  /** The sum over all rows of a position. */
  ghost function FeatureSum(w: Weight, b: FeatureBoard, p: Color): int
    requires b.Valid()
  {
    Rows(w, p, KingFrameSq(b, p) * NUM_SLOTS, StateOf(b, p))
  }

  // ----- the two sides -----

  /** The square on the other side of the board: files and ranks counted from the other end. */
  function TurnedSq(sq: nat): (r: nat)
    requires sq < SQUARE_NB
    ensures r < SQUARE_NB
  {
    (8 - sq / 9) * 9 + (8 - sq % 9)
  }

  function TurnedKing(k: nat): nat { if k < SQUARE_NB then TurnedSq(k) else k }

  function Recoloured(p: Piece): Piece { if p.NoPiece? then p else Piece(p.color.Other(), p.kind) }

  /** The position with the board turned round and the colours exchanged. */
  function Turned(b: FeatureBoard): (t: FeatureBoard)
    requires b.Valid()
    ensures t.Valid()
  {
    FeatureBoard(seq(SQUARE_NB, (s: nat) requires s < SQUARE_NB => Recoloured(b.board[TurnedSq(s)])),
                 b.whiteHand, b.blackHand, TurnedKing(b.whiteKing), TurnedKing(b.blackKing))
  }

  lemma TurnedBack(sq: nat)
    requires sq < SQUARE_NB
    ensures TurnedSq(TurnedSq(sq)) == sq && FrameSq(Black, sq) == sq && FrameSq(White, sq) == TurnedSq(sq)
  {
  }

  function TurnedSet(squares: set<nat>): set<nat> { set s: nat | s < SQUARE_NB && TurnedSq(s) in squares }

  lemma TurnedPieces(b: FeatureBoard, c: Color, t: PieceType)
    requires b.Valid()
    ensures PiecesOf(Turned(b), c.Other(), t) == TurnedSet(PiecesOf(b, c, t))
  {
  }

  lemma {:induction false} TurnedPieceSum(w: Weight, base: nat, i: nat, squares: set<nat>)
    requires OnBoard(squares)
    ensures PieceSum(w, White, base, i, squares, 0) == PieceSum(w, Black, base, i, TurnedSet(squares), 0)
    decreases |squares|
  {
    hide PieceSum, TurnedSq, FrameSq;
    if squares == {} {
      assert TurnedSet(squares) == {};
      NoSquares(w, White, base, i, 0);
      NoSquares(w, Black, base, i, 0);
    } else {
      var x :| x in squares;
      var y := TurnedSq(x);
      TurnedBack(x);
      TurnedBack(y);
      PieceSumTake(w, White, base, i, squares, x, 0);
      PieceSumTake(w, Black, base, i, TurnedSet(squares), y, 0);
      TurnedWithout(squares, x);
      TurnedPieceSum(w, base, i, squares - {x});
    }
  }

  lemma TurnedWithout(squares: set<nat>, x: nat)
    requires x < SQUARE_NB
    ensures TurnedSet(squares - {x}) == TurnedSet(squares) - {TurnedSq(x)}
  {
    forall s: nat | s < SQUARE_NB
      ensures TurnedSq(s) == x <==> s == TurnedSq(x)
    {
      TurnedBack(s);
      TurnedBack(x);
    }
  }

  lemma {:induction false} TurnedPiecesDiff(w: Weight, base: nat, a: seq<set<nat>>, b: seq<set<nat>>, i: nat)
    requires |a| == 2 * TYPE_IDS == |b| && i <= 2 * TYPE_IDS
    requires forall k: nat | k < 2 * TYPE_IDS :: OnBoard(a[k]) && b[k] == TurnedSet(a[k])
    ensures PiecesDiff(w, White, base, a, NoPieces(), i) == PiecesDiff(w, Black, base, b, NoPieces(), i)
    decreases 2 * TYPE_IDS - i
  {
    hide PieceSum, TurnedSet;
    if i < 2 * TYPE_IDS {
      TurnedPieceSum(w, base, i, a[i]);
      assert a[i] - NoPieces()[i] == a[i] && b[i] - NoPieces()[i] == b[i];
      TurnedPiecesDiff(w, base, a, b, i + 1);
    }
  }

  lemma TurnedState(b: FeatureBoard)
    requires b.Valid()
    ensures StateOf(Turned(b), Black).hand == StateOf(b, White).hand
    ensures forall k: nat | k < 2 * TYPE_IDS ::
              OnBoard(StateOf(b, White).pieces[k]) && StateOf(Turned(b), Black).pieces[k] == TurnedSet(StateOf(b, White).pieces[k])
    ensures KingFrameSq(Turned(b), Black) == KingFrameSq(b, White)
  {
    hide PiecesOf, TurnedSet, TypeFromId;
    forall k: nat | k < 2 * TYPE_IDS
      ensures OnBoard(StateOf(b, White).pieces[k]) && StateOf(Turned(b), Black).pieces[k] == TurnedSet(StateOf(b, White).pieces[k])
    {
      TurnedPieces(b, OwnerColor(White, k / TYPE_IDS), TypeFromId(k % TYPE_IDS));
      PiecesOnBoard(b, OwnerColor(White, k / TYPE_IDS), TypeFromId(k % TYPE_IDS));
    }
    if b.whiteKing < SQUARE_NB {
      TurnedBack(b.whiteKing);
      TurnedBack(TurnedSq(b.whiteKing));
    }
  }

  lemma PiecesOnBoard(b: FeatureBoard, c: Color, t: PieceType)
    requires b.Valid()
    ensures OnBoard(PiecesOf(b, c, t))
  {
  }

  /** White sees what Black would see of the turned position, whatever the rows weigh. */
  lemma {:induction false} SidesAreAlike(w: Weight, b: FeatureBoard)
    requires b.Valid()
    ensures FeatureSum(w, b, White) == FeatureSum(w, Turned(b), Black)
  {
    hide PiecesDiff, HandsDiff, StateOf, Turned, KingFrameSq;
    TurnedState(b);
    TurnedPiecesDiff(w, KingFrameSq(b, White) * NUM_SLOTS, StateOf(b, White).pieces, StateOf(Turned(b), Black).pieces, 0);
  }

  /** And Black sees the board as it is. */
  lemma BlackSeesItPlain(b: FeatureBoard, base: nat, i: nat, s: nat)
    requires s < SQUARE_NB
    ensures PieceRow(Black, base, i, s) == base + HAND_SLOTS + i * 81 + s
    ensures KingFrameSq(b, Black) == if b.blackKing < SQUARE_NB then b.blackKing else 0
  {
  }

  lemma {:induction false} SamePieceRows(w: Weight, p: Color, base: nat, a: seq<set<nat>>, b: seq<set<nat>>, i: nat)
    requires |a| == 2 * TYPE_IDS == |b| && i <= 2 * TYPE_IDS
    requires forall k: nat | k < 2 * TYPE_IDS && !IsKingIndex(k) :: a[k] == b[k]
    ensures PiecesDiff(w, p, base, a, NoPieces(), i) == PiecesDiff(w, p, base, b, NoPieces(), i)
    decreases 2 * TYPE_IDS - i
  {
    hide PieceSum;
    if i < 2 * TYPE_IDS {
      SamePieceRows(w, p, base, a, b, i + 1);
    }
  }

  /** A state that describes the position has exactly its rows. */
  lemma DescribedRows(w: Weight, st: FrameState, b: FeatureBoard, p: Color)
    requires b.Valid() && st.Sized() && Describes(st, b, p)
    ensures Rows(w, p, KingFrameSq(b, p) * NUM_SLOTS, st) == FeatureSum(w, b, p)
  {
    hide PiecesDiff, HandsDiff, PiecesOf, TypeFromId, KingFrameSq;
    var of := StateOf(b, p);
    forall k: nat | k < 2 * TYPE_IDS && !IsKingIndex(k)
      ensures st.pieces[k] == of.pieces[k]
    {
      PieceEntry(st, b, p, k);
    }
    forall j: nat | j < 2 * HAND_KINDS
      ensures st.hand[j] == of.hand[j]
    {
      HandEntry(st, b, p, j);
    }
    assert st.hand == of.hand;
    SamePieceRows(w, p, KingFrameSq(b, p) * NUM_SLOTS, st.pieces, of.pieces, 0);
  }

  lemma PieceEntry(st: FrameState, b: FeatureBoard, p: Color, k: nat)
    requires b.Valid() && st.Sized() && Describes(st, b, p) && k < 2 * TYPE_IDS && !IsKingIndex(k)
    ensures st.pieces[k] == StateOf(b, p).pieces[k]
  {
    hide PiecesOf, TypeFromId;
    var owner, tid := k / TYPE_IDS, k % TYPE_IDS;
    assert k == owner * TYPE_IDS + tid && owner < 2 && 1 <= tid < TYPE_IDS;
    var c := OwnerColor(p, owner);
    assert Owner(p, c) == owner && DescribesSide(st, b, p, c) && InPieces(owner, k);
  }

  lemma HandEntry(st: FrameState, b: FeatureBoard, p: Color, j: nat)
    requires b.Valid() && st.Sized() && Describes(st, b, p) && j < 2 * HAND_KINDS
    ensures st.hand[j] == StateOf(b, p).hand[j]
  {
    hide PiecesOf, TypeFromId;
    var owner, h := j / HAND_KINDS, j % HAND_KINDS;
    assert j == owner * HAND_KINDS + h && owner < 2 && h < HAND_KINDS;
    var c := OwnerColor(p, owner);
    assert Owner(p, c) == owner && DescribesSide(st, b, p, c) && InHand(owner, j);
  }

  lemma ListedPieces(p: Color, base: nat, st: FrameState, out: seq<nat>, out': seq<nat>, i: nat, cur: set<nat>)
    requires Leads(p, base, EmptyState(), st, out, []) && i < 2 * TYPE_IDS && !IsKingIndex(i) && st.pieces[i] == {}
    requires InRange(out', base) && forall w: Weight :: SumRows(out', w) == SumRows(out, w) + PieceSum(w, p, base, i, cur, 0)
    ensures Leads(p, base, EmptyState(), st.(pieces := st.pieces[i := cur]), out', [])
  {
    hide PieceSum, PiecesDiff, HandsDiff, SumRows, InRange;
    var st' := st.(pieces := st.pieces[i := cur]);
    forall w: Weight
      ensures SumRows(out', w) == DiffRows(w, p, base, st', EmptyState())
      ensures SumRows([], w) == DiffRows(w, p, base, EmptyState(), st')
    {
      PiecesDiffUpdate(w, p, base, st.pieces, NoPieces(), i, cur, 0);
      assert cur - NoPieces()[i] == cur && NoPieces()[i] - cur == {};
      NoSquares(w, p, base, i, 0);
      assert SumRows(out, w) == DiffRows(w, p, base, st, EmptyState());
      assert SumRows([], w) == DiffRows(w, p, base, EmptyState(), st);
    }
  }

  lemma ListedHand(p: Color, base: nat, st: FrameState, out: seq<nat>, out': seq<nat>, j: nat, n: nat)
    requires Leads(p, base, EmptyState(), st, out, []) && j < 2 * HAND_KINDS && st.hand[j] == 0
    requires InRange(out', base) && HandPushed(out, out', base, j, 0, n)
    ensures Leads(p, base, EmptyState(), st.(hand := st.hand[j := n]), out', [])
  {
    hide PiecesDiff, HandsDiff, SumRows, InRange;
    var st' := st.(hand := st.hand[j := n]);
    forall w: Weight
      ensures SumRows(out', w) == DiffRows(w, p, base, st', EmptyState())
      ensures SumRows([], w) == DiffRows(w, p, base, EmptyState(), st')
    {
      HandsDiffUpdate(w, base, st.hand, NoHands(), j, n, 0);
      assert HandSum(w, base, j, n, 0) == 0;
      assert SumRows(out', w) == SumRows(out, w) + HandSum(w, base, j, 0, n);
      assert SumRows(out, w) == DiffRows(w, p, base, st, EmptyState());
      assert SumRows([], w) == DiffRows(w, p, base, EmptyState(), st);
    }
  }

  /** One colour's pieces on the board. */
  method ListSidePieces(b: FeatureBoard, p: Color, base: nat, c: Color, list: seq<nat>, ghost st: FrameState) returns (out: seq<nat>, ghost st': FrameState)
    requires b.Valid() && Leads(p, base, EmptyState(), st, list, []) && st.Sized() && SameSide(st, EmptyState(), Owner(p, c))
    ensures Leads(p, base, EmptyState(), st', out, []) && st'.Sized() && st'.hand == st.hand
    ensures forall i: nat | InPieces(Owner(p, c), i) :: st'.pieces[i] == PiecesOf(b, c, TypeFromId(i - Owner(p, c) * TYPE_IDS))
    ensures forall i: nat | i < 2 * TYPE_IDS && !InPieces(Owner(p, c), i) :: st'.pieces[i] == st.pieces[i]
  {
    hide Leads, PiecesOf, TypeFromId, OnBoard, HandPushed, SumRows, PieceSum, InRange;
    out, st' := list, st;
    LeadsInRange(p, base, st, out);
    var owner := Owner(p, c);
    var tid: nat := 1;
    while tid < TYPE_IDS
      invariant 1 <= tid <= TYPE_IDS && st'.Sized() && InRange(out, base)
      invariant Leads(p, base, EmptyState(), st', out, []) && st'.hand == st.hand
      invariant forall i: nat | InPieces(owner, i) ::
                  st'.pieces[i] == if i < owner * TYPE_IDS + tid then PiecesOf(b, c, TypeFromId(i - owner * TYPE_IDS)) else {}
      invariant forall i: nat | i < 2 * TYPE_IDS && !InPieces(owner, i) :: st'.pieces[i] == st.pieces[i]
    {
      var i, cur := owner * TYPE_IDS + tid, PiecesOf(b, c, TypeFromId(tid));
      assert InPieces(owner, i);
      PiecesAreOnBoard(b, c, TypeFromId(tid));
      ghost var before := out;
      out := PushSquares(out, cur, p, base, i);
      ListedPieces(p, base, st', before, out, i, cur);
      st' := st'.(pieces := st'.pieces[i := cur]);
      tid := tid + 1;
    }
  }

  /** One colour's pieces in hand. */
  method ListSideHand(b: FeatureBoard, p: Color, base: nat, c: Color, list: seq<nat>, ghost st: FrameState) returns (out: seq<nat>, ghost st': FrameState)
    requires b.Valid() && Leads(p, base, EmptyState(), st, list, []) && st.Sized()
    requires forall j: nat | InHand(Owner(p, c), j) :: st.hand[j] == 0
    ensures Leads(p, base, EmptyState(), st', out, []) && st'.Sized() && st'.pieces == st.pieces
    ensures forall j: nat | InHand(Owner(p, c), j) :: st'.hand[j] == b.Hand(c)[j - Owner(p, c) * HAND_KINDS]
    ensures forall j: nat | j < 2 * HAND_KINDS && !InHand(Owner(p, c), j) :: st'.hand[j] == st.hand[j]
  {
    hide Leads, OnBoard, HandPushed, SumRows, InRange;
    out, st' := list, st;
    LeadsInRange(p, base, st, out);
    var owner := Owner(p, c);
    var h: nat := 0;
    while h < HAND_KINDS
      invariant h <= HAND_KINDS && st'.Sized() && InRange(out, base)
      invariant Leads(p, base, EmptyState(), st', out, []) && st'.pieces == st.pieces
      invariant forall j: nat | InHand(owner, j) ::
                  st'.hand[j] == if j < owner * HAND_KINDS + h then b.Hand(c)[j - owner * HAND_KINDS] else 0
      invariant forall j: nat | j < 2 * HAND_KINDS && !InHand(owner, j) :: st'.hand[j] == st.hand[j]
    {
      var j, cnt := owner * HAND_KINDS + h, b.Hand(c)[h];
      assert InHand(owner, j) && j % HAND_KINDS == h;
      HandIsSmall(b, c, h);
      ghost var before := out;
      out := PushHand(out, base, j, 0, cnt);
      ListedHand(p, base, st', before, out, j, cnt);
      st' := st'.(hand := st'.hand[j := cnt]);
      h := h + 1;
    }
  }

  /** One colour's rows. */
  method ListSide(b: FeatureBoard, p: Color, base: nat, c: Color, list: seq<nat>, ghost st: FrameState) returns (out: seq<nat>, ghost st': FrameState)
    requires b.Valid() && Leads(p, base, EmptyState(), st, list, []) && st.Sized() && SameSide(st, EmptyState(), Owner(p, c))
    ensures Leads(p, base, EmptyState(), st', out, []) && st'.Sized()
    ensures DescribesSide(st', b, p, c) && SameSide(st', st, 1 - Owner(p, c))
  {
    hide Leads, PiecesOf, TypeFromId;
    out, st' := ListSidePieces(b, p, base, c, list, st);
    out, st' := ListSideHand(b, p, base, c, out, st');
  }

  lemma LeadsInRange(p: Color, base: nat, st: FrameState, out: seq<nat>)
    requires Leads(p, base, EmptyState(), st, out, [])
    ensures InRange(out, base)
  {
  }

  /** Group A from scratch: the list sums to the position's rows, whatever each row weighs. */
  method GroupAFeatures(b: FeatureBoard, p: Color) returns (out: seq<nat>)
    requires b.Valid()
    ensures forall w: Weight :: SumRows(out, w) == FeatureSum(w, b, p) == FeatureSum(w, if p.White? then Turned(b) else b, Black)
    ensures InRange(out, KingFrameSq(b, p) * NUM_SLOTS)
  {
    hide FeatureSum, Turned, Leads, DescribesSide, SameSide, KingFrameSq, SumRows, Rows;
    var base := KingFrameSq(b, p) * NUM_SLOTS;
    ghost var st := EmptyState();
    LeadsNowhere(p, base, st);
    SameAsItself(st);
    out, st := ListSide(b, p, base, Black, [], st);
    ghost var mid := st;
    out, st := ListSide(b, p, base, White, out, mid);
    StillDescribes(st, mid, b, p, Black);
    LeadsInRange(p, base, st, out);
    forall w: Weight
      ensures SumRows(out, w) == FeatureSum(w, b, p) == FeatureSum(w, if p.White? then Turned(b) else b, Black)
    {
      SidesAreAlike(w, b);
      LeadsSum(w, p, base, st, out);
      DescribedRows(w, st, b, p);
    }
  }

  lemma LeadsSum(w: Weight, p: Color, base: nat, st: FrameState, out: seq<nat>)
    requires Leads(p, base, EmptyState(), st, out, []) && st.Sized()
    ensures SumRows(out, w) == Rows(w, p, base, st)
  {
  }

  // ----- the lists stay within their capacity -----

  function One(): Weight { (row: nat) => 1 }

  lemma {:induction false} SumOfOnes(list: seq<nat>)
    ensures SumRows(list, One()) == |list|
  {
    if list != [] {
      SumOfOnes(list[..|list| - 1]);
    }
  }

  lemma {:induction false} FewerSquares(p: Color, base: nat, i: nat, a: set<nat>, b: set<nat>, s: nat)
    requires s <= SQUARE_NB
    ensures 0 <= PieceSum(One(), p, base, i, a - b, s) <= PieceSum(One(), p, base, i, a, s)
    decreases SQUARE_NB - s
  {
    if s < SQUARE_NB {
      FewerSquares(p, base, i, a, b, s + 1);
    }
  }

  lemma {:induction false} FewerInHand(base: nat, j: nat, low: nat, high: nat)
    requires j < 2 * HAND_KINDS
    ensures 0 <= HandSum(One(), base, j, low, high) <= HandSum(One(), base, j, 0, high)
    decreases high
  {
    if high > 0 {
      FewerInHand(base, j, low, high - 1);
    }
  }

  lemma {:induction false} FewerPieces(p: Color, base: nat, a: seq<set<nat>>, b: seq<set<nat>>, i: nat)
    requires |a| == 2 * TYPE_IDS == |b| && i <= 2 * TYPE_IDS
    ensures PiecesDiff(One(), p, base, a, b, i) <= PiecesDiff(One(), p, base, a, NoPieces(), i)
    decreases 2 * TYPE_IDS - i
  {
    hide PieceSum, One;
    if i < 2 * TYPE_IDS {
      FewerSquares(p, base, i, a[i], b[i], 0);
      assert a[i] - NoPieces()[i] == a[i];
      FewerPieces(p, base, a, b, i + 1);
    }
  }

  lemma {:induction false} FewerHands(base: nat, a: seq<nat>, b: seq<nat>, j: nat)
    requires |a| == 2 * HAND_KINDS == |b| && j <= 2 * HAND_KINDS
    ensures HandsDiff(One(), base, a, b, j) <= HandsDiff(One(), base, a, NoHands(), j)
    decreases 2 * HAND_KINDS - j
  {
    hide HandSum, One;
    if j < 2 * HAND_KINDS {
      FewerInHand(base, j, b[j], a[j]);
      FewerHands(base, a, b, j + 1);
    }
  }

  /** Neither list is longer than the list of the state it leads from or to. */
  lemma {:induction false} DifferencesAreShort(p: Color, base: nat, was: FrameState, now: FrameState, adds: seq<nat>, subs: seq<nat>)
    requires Leads(p, base, was, now, adds, subs) && was.Sized() && now.Sized()
    ensures |adds| <= Rows(One(), p, base, now) && |subs| <= Rows(One(), p, base, was)
  {
    SumOfOnes(adds);
    SumOfOnes(subs);
    FewerPieces(p, base, now.pieces, was.pieces, 0);
    FewerHands(base, now.hand, was.hand, 0);
    FewerPieces(p, base, was.pieces, now.pieces, 0);
    FewerHands(base, was.hand, now.hand, 0);
    hide PiecesDiff, HandsDiff, SumRows, One;
  }
}
