/** Static exchange evaluation: the null-window swap loop against the recursive value of
    the exchange. */
module See {
  import opened Shogi

  function SeeValue(t: PieceType): nat {
    [0, 90, 315, 405, 495, 855, 990, 540, 15000, 540, 540, 540, 540, 945, 1395, 0][t]
  }

  /** Attackers are tried from the least valuable on. */
  const ATTACKER_ORDER: seq<PieceType> := [
    PAWN, LANCE, KNIGHT, SILVER, GOLD, PRO_PAWN, PRO_LANCE, PRO_KNIGHT, PRO_SILVER, BISHOP, ROOK, HORSE, DRAGON, KING]

  /** Which squares attack a square depends on the occupancy in a way left open here. */
  datatype SeeBoard = SeeBoard(board: seq<Piece>, sideToMove: Color, attackersTo: (nat, set<nat>, Color) -> set<nat>)

  predicate Valid(p: SeeBoard) { |p.board| == SQUARE_NB }

  function Occupied(p: SeeBoard): set<nat>
    requires Valid(p)
  {
    set s: nat | s < SQUARE_NB && p.board[s] != NoPiece
  }

  function Attackers(p: SeeBoard, to: nat, occ: set<nat>, c: Color): set<nat> {
    p.attackersTo(to, occ, c) * occ
  }

  function OfType(p: SeeBoard, squares: set<nat>, c: Color, t: PieceType): set<nat> {
    set s | s in squares && s < |p.board| && p.board[s] == Piece(c, t)
  }

  /** The first kind in the order, from position `i` on, with an attacker; the king when
      there is none. */
  function LeastValuable(p: SeeBoard, attackers: set<nat>, c: Color, i: nat): (t: PieceType)
    requires i <= |ATTACKER_ORDER|
    ensures t != KING ==> OfType(p, attackers, c, t) != {}
    decreases |ATTACKER_ORDER| - i
  {
    if i == |ATTACKER_ORDER| then KING
    else if OfType(p, attackers, c, ATTACKER_ORDER[i]) != {} then ATTACKER_ORDER[i]
    else LeastValuable(p, attackers, c, i + 1)
  }

  /** Where the search for a kind stops: at the first one present. */
  lemma {:induction false} FirstPresent(p: SeeBoard, attackers: set<nat>, c: Color, i: nat, j: nat) returns (k: nat)
    requires i <= j < |ATTACKER_ORDER| && OfType(p, attackers, c, ATTACKER_ORDER[j]) != {}
    ensures i <= k <= j && LeastValuable(p, attackers, c, i) == ATTACKER_ORDER[k] && OfType(p, attackers, c, ATTACKER_ORDER[k]) != {}
    decreases j - i
  {
    hide OfType;
    if OfType(p, attackers, c, ATTACKER_ORDER[i]) != {} {
      k := i;
    } else {
      k := FirstPresent(p, attackers, c, i + 1, j);
    }
  }

  /** Every kind has its place in the order, and values never fall along it but from the rook to
      the horse. */
  lemma PlaceOf(t: PieceType) returns (j: nat)
    requires 1 <= t <= 14
    ensures j < |ATTACKER_ORDER| && ATTACKER_ORDER[j] == t
    ensures t == HORSE ==> j == 11
  {
    j := [0, 0, 1, 2, 3, 9, 10, 4, 13, 5, 6, 7, 8, 11, 12][t];
  }

  lemma OrderAscends(k: nat, j: nat)
    requires k <= j < |ATTACKER_ORDER|
    ensures SeeValue(ATTACKER_ORDER[k]) <= SeeValue(ATTACKER_ORDER[j]) <==> !(ATTACKER_ORDER[k] == ROOK && ATTACKER_ORDER[j] == HORSE)
  {
  }

  /** The kind chosen attacks, and no attacker is worth less, with one exception: a rook is
      preferred to a horse. */
  lemma {:induction false} ChosenIsCheapest(p: SeeBoard, attackers: set<nat>, c: Color, s: nat)
    requires s in attackers && s < |p.board| && p.board[s].Piece? && p.board[s].color == c && 1 <= p.board[s].kind <= 14
    ensures var t := LeastValuable(p, attackers, c, 0);
            && OfType(p, attackers, c, t) != {}
            && (SeeValue(t) <= SeeValue(p.board[s].kind) <==> !(t == ROOK && p.board[s].kind == HORSE))
  {
    var j := PlaceOf(p.board[s].kind);
    assert s in OfType(p, attackers, c, ATTACKER_ORDER[j]);
    hide *;
    var k := FirstPresent(p, attackers, c, 0, j);
    OrderAscends(k, j);
  }

  /** What `side` can still win on the square when a piece worth `risk` stands there: it
      may stop, or capture with its least valuable attacker and put that at risk. The king
      captures only what nothing can recapture. */
  ghost function ExchangeValue(p: SeeBoard, to: nat, occ: set<nat>, side: Color, risk: nat): (v: nat)
    ensures v <= risk
    decreases |occ|
  {
    var attackers := Attackers(p, to, occ, side);
    if attackers == {} then 0
    else
      var kind := LeastValuable(p, attackers, side, 0);
      if kind == KING then
        if Attackers(p, to, occ, side.Other()) == {} then risk else 0
      else
        var from := Peek(OfType(p, attackers, side, kind));
        SmallerWithout(occ, from);
        var reply := ExchangeValue(p, to, occ - {from}, side.Other(), SeeValue(kind));
        if risk > reply then risk - reply else 0
  }

  lemma SmallerWithout(occ: set<nat>, x: nat)
    requires x in occ
    ensures |occ - {x}| < |occ|
  {
  }

  // ----- the whole move -----

  /** The piece the move leaves on its target square. */
  function Landing(p: SeeBoard, m: Move): PieceType
    requires Valid(p) && m.OnBoard()
  {
    if m.Drop? then m.kind
    else if m.promotion then Promote(p.board[m.from].Type()) else p.board[m.from].Type()
  }

  /** What the move wins at once: the captured piece and the gain of promoting. */
  function ImmediateGain(p: SeeBoard, m: Move): int
    requires Valid(p) && m.OnBoard()
  {
    if m.Drop? then 0
    else SeeValue(p.board[m.to].Type()) + SeeValue(Landing(p, m)) - SeeValue(p.board[m.from].Type())
  }

  /** The material balance of the exchange the move starts. */
  ghost function ExchangeScore(p: SeeBoard, m: Move): int
    requires Valid(p) && m.OnBoard()
  {
    var occ := Occupied(p) - (if m.Drop? then {} else {m.from}) - {m.to};
    ImmediateGain(p, m) - ExchangeValue(p, m.to, occ, p.sideToMove.Other(), SeeValue(Landing(p, m)))
  }

  /** The window of the loop: the exchange value is compared with `risk - swap`, less one
      when the verdict currently stands at false. */
  ghost predicate Window(v: nat, risk: int, swap: int, res: bool) {
    v <= if res then risk - swap else risk - swap - 1
  }

  /** One capture turns the question about the opponent's value into the question about the
      capturer's, with the verdict reversed. */
  lemma {:induction false} WindowTurns(v: nat, reply: nat, risk: int, value: int, swap: int, res: bool)
    requires v == (if risk > reply then risk - reply else 0)
    requires risk - swap >= (if res then 0 else 1)
    ensures Window(v, risk, swap, res) <==> !Window(reply, value, value - swap, !res)
  {
  }

  /** The first attacking kind by trying them in order. */
  method FindLeastValuable(p: SeeBoard, attackers: set<nat>, c: Color) returns (chosen: PieceType)
    ensures chosen == LeastValuable(p, attackers, c, 0)
  {
    chosen := KING;
    var i: nat := 0;
    while i < |ATTACKER_ORDER|
      invariant i <= |ATTACKER_ORDER|
      invariant LeastValuable(p, attackers, c, 0) == LeastValuable(p, attackers, c, i)
    {
      if OfType(p, attackers, c, ATTACKER_ORDER[i]) != {} {
        return ATTACKER_ORDER[i];
      }
      i := i + 1;
    }
  }

  /** Whether the exchange started by `m` comes out at `threshold` or better. */
  method SeeGe(p: SeeBoard, m: Move, threshold: int) returns (ok: bool)
    requires Valid(p) && m.OnBoard()
    ensures ok <==> ExchangeScore(p, m) >= threshold
  {
    var occ := Occupied(p);
    var swap: int;
    var landing: PieceType := KING;
    if m.Drop? {
      swap := -threshold;
      landing := m.kind;
    } else {
      var moved := p.board[m.from].Type();
      swap := SeeValue(p.board[m.to].Type()) - threshold;
      landing := moved;
      if m.promotion {
        landing := Promote(moved);
        swap := swap + SeeValue(landing) - SeeValue(moved);
      }
      occ := occ - {m.from};
    }
    assert swap == ImmediateGain(p, m) - threshold;
    if swap < 0 {
      return false;
    }
    swap := SeeValue(landing) - swap;
    if swap <= 0 {
      return true;
    }
    occ := occ - {m.to};
    assert occ == Occupied(p) - (if m.Drop? then {} else {m.from}) - {m.to};
    ok := Exchange(p, m.to, occ, SeeValue(landing), swap);
  }

  /** The swap loop, asking whether the opponent's exchange value stays within
      `risk - swap`. */
  method Exchange(p: SeeBoard, to: nat, occupied: set<nat>, ghost risk0: nat, swap0: int) returns (ok: bool)
    requires 1 <= swap0 <= risk0
    ensures ok <==> ExchangeValue(p, to, occupied, p.sideToMove.Other(), risk0) <= risk0 - swap0
  {
    var occ, swap, stm, res := occupied, swap0, p.sideToMove, true;
    ghost var risk: int := risk0;
    while true
      invariant risk >= 0 && swap >= (if res then 1 else 0) && risk - swap >= (if res then 0 else 1)
      invariant Window(ExchangeValue(p, to, occupied, p.sideToMove.Other(), risk0), risk0, swap0, true) <==>
                (res <==> Window(ExchangeValue(p, to, occ, stm.Other(), risk), risk, swap, res))
      decreases |occ|
    {
      stm := stm.Other();
      var attackers := Attackers(p, to, occ, stm);
      if attackers == {} {
        return res;
      }
      res := !res;
      var chosen := FindLeastValuable(p, attackers, stm);
      if chosen == KING {
        var opp := Attackers(p, to, occ, stm.Other());
        return if opp != {} then !res else res;
      }
      var from := Peek(OfType(p, attackers, stm, chosen));
      SmallerWithout(occ, from);
      ghost var reply := ExchangeValue(p, to, occ - {from}, stm.Other(), SeeValue(chosen));
      WindowTurns(ExchangeValue(p, to, occ, stm, risk), reply, risk, SeeValue(chosen), swap, !res);
      swap := SeeValue(chosen) - swap;
      if swap < (if res then 1 else 0) {
        return res;
      }
      risk := SeeValue(chosen);
      occ := occ - {from};
    }
  }
}
