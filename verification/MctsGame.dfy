/** The game a playout sees, its minimax value, and the bounded mate probe the tree search
    consults: when a reported mate is a win of that game. */
module MctsGame {
  import opened Wrappers
  import opened Repetitions

  /** A node is named by the child indices that lead to it from the root. */
  type Path = seq<nat>

  /** For the side to move at a node. On the edge into the node the same value is its flag:
      a win for whoever moves next is what makes the move into it bad. */
  datatype Outcome = Win | Loss | Draw

  /** Positions by path. `repetition` looks through the whole history, `nearRepetition` only
      through the last 16 plies; `mateInOne` is the one-move mate routine, `leafDepth` and
      `rootDepth` are the plies the mate probe may look at fresh leaves and behind root moves. */
  datatype Game = Game(
    childNum: Path -> nat, inCheck: Path -> bool, declares: Path -> bool, repetition: Path -> RepetitionResult,
    nearRepetition: Path -> RepetitionResult, mateInOne: Path -> bool, rootPly: nat, maxMovesToDraw: nat,
    leafDepth: nat, rootDepth: nat, drawValue: Path -> real)

  /** What the rules promise: a one-move mate is a check without reply, a mated position is new,
      nobody declares in check, and the short look back finds what the long one finds or nothing. */
  ghost predicate WellFormed(g: Game) {
    && (forall p: Path | g.mateInOne(p) :: exists i: nat :: i < g.childNum(p) && IsMated(g, p + [i]))
    && (forall p: Path | IsMated(g, p) :: g.repetition(p).NoRepetition? && g.nearRepetition(p).NoRepetition?)
    && (forall p: Path | g.declares(p) :: !g.inCheck(p))
    && (forall p: Path :: g.nearRepetition(p).NoRepetition? || g.nearRepetition(p) == g.repetition(p))
  }

  predicate IsMated(g: Game, p: Path) { g.inCheck(p) && g.childNum(p) == 0 }

  // ----- the value of a node -----

  predicate OverLimit(g: Game, p: Path) { g.rootPly + |p| > g.maxMovesToDraw }

  /** The root is the position of the game itself and is not asked about repetition. */
  function SearchRepetition(g: Game, p: Path): RepetitionResult { if p == [] then NoRepetition else g.repetition(p) }

  /** The verdicts that end a line: declaration, repetition, then the move limit. */
  function Adjudicated(g: Game, p: Path): Option<Outcome> {
    if g.declares(p) then Some(Win)
    else if SearchRepetition(g, p).RepetitionLoss? then Some(Loss)
    else if SearchRepetition(g, p).RepetitionWin? then Some(Win)
    else if SearchRepetition(g, p).RepetitionDraw? then Some(Draw)
    else if OverLimit(g, p) then Some(if g.childNum(p) == 0 then Loss else Draw)
    else None
  }

  /** Minimax under these verdicts. */
  ghost function Value(g: Game, p: Path): Outcome
    decreases g.maxMovesToDraw + 1 - g.rootPly - |p|
  {
    if Adjudicated(g, p).Some? then Adjudicated(g, p).value
    else if exists i: nat :: i < g.childNum(p) && Value(g, p + [i]) == Loss then Win
    else if exists i: nat :: i < g.childNum(p) && Value(g, p + [i]) == Draw then Draw
    else Loss
  }

  // ----- the mate probe -----

  /** The side to move mates by checks within `d` plies, an odd number. */
  ghost predicate OddMate(g: Game, p: Path, d: nat)
    decreases d
  {
    if d <= 1 then d == 1 && g.mateInOne(p)
    else exists i: nat :: i < g.childNum(p) && CheckMates(g, p + [i], d)
  }

  /** The check that has led here mates: a repetition the defender loses, or no way out. */
  ghost predicate CheckMates(g: Game, q: Path, d: nat)
    requires d > 1
    decreases d, 0
  {
    g.inCheck(q) && (g.nearRepetition(q).RepetitionLoss? || (g.nearRepetition(q).NoRepetition? && EvenMate(g, q, d - 1)))
  }

  /** Every evasion fails. */
  ghost predicate EvenMate(g: Game, q: Path, d: nat)
    requires d > 0
    decreases d
  {
    forall j: nat | j < g.childNum(q) :: EvasionFails(g, q + [j], d)
  }

  /** An evasion fails if it repeats to the attacker's win or leaves a mate; in the hand-written
      three-ply routine one that gives check counts as an escape. */
  ghost predicate EvasionFails(g: Game, r: Path, d: nat)
    requires d > 0
    decreases d, 0
  {
    && (d == 2 ==> !g.inCheck(r))
    && (g.nearRepetition(r).RepetitionWin? || (g.nearRepetition(r).NoRepetition? && OddMate(g, r, d - 1)))
  }

  /** The probe knows the depths 1, 3, 5 and 7 only. */
  ghost predicate HasMateWithin(g: Game, p: Path, depth: nat) {
    depth in {1, 3, 5, 7} && OddMate(g, p, depth)
  }

  /** A deeper probe finds every mate a shallower one does. */
  lemma {:induction false} MateDeepens(g: Game, p: Path, d: nat)
    requires WellFormed(g) && OddMate(g, p, d)
    ensures OddMate(g, p, d + 2)
    decreases d
  {
    if d == 1 {
      var i: nat :| i < g.childNum(p) && IsMated(g, p + [i]);
      assert CheckMates(g, p + [i], d + 2);
    } else {
      var i: nat :| i < g.childNum(p) && CheckMates(g, p + [i], d);
      var q := p + [i];
      if EvenMate(g, q, d - 1) {
        forall j: nat | j < g.childNum(q)
          ensures EvasionFails(g, q + [j], d + 1)
        {
          assert EvasionFails(g, q + [j], d - 1);
          if OddMate(g, q + [j], d - 2) {
            MateDeepens(g, q + [j], d - 2);
          }
        }
      }
      assert CheckMates(g, q, d + 2);
    }
  }

  /** One line: a check, an evasion that gives check itself, and a mate. */
  function CounterCheck(): Game {
    Game((p: Path) => if |p| < 3 then 1 else 0, (p: Path) => 1 <= |p| <= 3, (p: Path) => false, (p: Path) => NoRepetition,
         (p: Path) => NoRepetition, (p: Path) => |p| == 2, 0, 0, 0, 0, (p: Path) => 0.5)
  }

  lemma CounterCheckIsWellFormed()
    ensures WellFormed(CounterCheck())
  {
    var g := CounterCheck();
    forall p: Path | g.mateInOne(p)
      ensures exists i: nat :: i < g.childNum(p) && IsMated(g, p + [i])
    {
      assert IsMated(g, p + [0]);
    }
  }

  lemma NotInThree()
    ensures !OddMate(CounterCheck(), [], 3)
  {
    var g := CounterCheck();
    var q := [] + [0];
    assert !EvasionFails(g, q + [0], 2);
    assert !EvenMate(g, q, 2);
    hide EvenMate;
    assert !CheckMates(g, q, 3);
    hide CheckMates;
    assert g.childNum([]) == 1;
  }

  lemma InFive()
    ensures OddMate(CounterCheck(), [], 5)
  {
    var g := CounterCheck();
    var q := [] + [0];
    var r := q + [0];
    CounterCheckIsWellFormed();
    hide WellFormed;
    MateDeepens(g, r, 1);
    hide OddMate;
    assert EvasionFails(g, r, 4);
    hide EvasionFails;
    assert forall j: nat | j < g.childNum(q) :: q + [j] == r;
    assert EvenMate(g, q, 4);
    hide EvenMate;
    assert CheckMates(g, q, 5);
    CheckedMate(g, [], 0, 5);
  }

  lemma CheckedMate(g: Game, p: Path, i: nat, d: nat)
    requires d > 1 && i < g.childNum(p) && CheckMates(g, p + [i], d)
    ensures OddMate(g, p, d)
  {
  }

  /** The three-ply routine misses a mate in three when the evasion gives check; the deeper probe
      finds it. */
  lemma {:induction false} CounterCheckIsMissed()
    ensures WellFormed(CounterCheck()) && !OddMate(CounterCheck(), [], 3) && OddMate(CounterCheck(), [], 5)
  {
    CounterCheckIsWellFormed();
    NotInThree();
    InFive();
    hide WellFormed, OddMate;
  }

  /** Whatever has been repeated before it, a search within the move limit goes on from its root
      unless the side to move can declare a win. */
  lemma RootIsOpen(g: Game)
    ensures Adjudicated(g, []).None? <==> !g.declares([]) && g.rootPly <= g.maxMovesToDraw
  {
  }

  // ----- when a reported mate is a win -----

  /** Within `d` plies below p no repetition is older than the probe looks. */
  ghost predicate NoFarReturn(g: Game, p: Path, d: nat) {
    forall q: Path | p <= q && |p| < |q| < |p| + d :: g.repetition(q) == g.nearRepetition(q)
  }

  /** A mate of this length comes before the move limit. */
  predicate WithinLimit(g: Game, p: Path, d: nat) { g.rootPly + |p| + d <= g.maxMovesToDraw + 1 }

  /** Some mate the probe sees fits. */
  ghost predicate MateFits(g: Game, p: Path) {
    exists d: nat :: OddMate(g, p, d) && NoFarReturn(g, p, d) && WithinLimit(g, p, d)
  }

  lemma {:induction false} MateWins(g: Game, p: Path, d: nat)
    requires WellFormed(g) && OddMate(g, p, d) && NoFarReturn(g, p, d) && WithinLimit(g, p, d) && Adjudicated(g, p).None?
    ensures Value(g, p) == Win
    decreases d
  {
    if d == 1 {
      var i: nat :| i < g.childNum(p) && IsMated(g, p + [i]);
      MatedIsLost(g, p + [i]);
      OneLosingReplyWins(g, p, i);
    } else {
      var i: nat :| i < g.childNum(p) && CheckMates(g, p + [i], d);
      CheckWins(g, p, p + [i], d);
      OneLosingReplyWins(g, p, i);
    }
  }

  lemma {:induction false} CheckWins(g: Game, p: Path, q: Path, d: nat)
    requires WellFormed(g) && d > 1 && CheckMates(g, q, d) && NoFarReturn(g, p, d) && WithinLimit(g, p, d) && p <= q && |q| == |p| + 1
    ensures Value(g, q) == Loss
    decreases d, 0
  {
    assert g.repetition(q) == g.nearRepetition(q);
    if g.nearRepetition(q).NoRepetition? {
      forall j: nat | j < g.childNum(q)
        ensures Value(g, q + [j]) == Win
      {
        assert EvasionFails(g, q + [j], d - 1);
        EvasionLoses(g, p, q + [j], d);
      }
      AllRepliesWin(g, q);
    }
  }

  lemma {:induction false} EvasionLoses(g: Game, p: Path, r: Path, d: nat)
    requires WellFormed(g) && d > 1 && EvasionFails(g, r, d - 1) && NoFarReturn(g, p, d) && WithinLimit(g, p, d) && p <= r && |r| == |p| + 2
    ensures Value(g, r) == Win
    decreases d - 1
  {
    if d > 2 {
      assert g.repetition(r) == g.nearRepetition(r);
    }
    if g.nearRepetition(r).NoRepetition? {
      OddIsPositive(g, r, d - 2);
      if Adjudicated(g, r).None? {
        BelowIsFar(g, p, r, d);
        MateWins(g, r, d - 2);
      }
    }
  }

  lemma OddIsPositive(g: Game, p: Path, d: nat)
    requires OddMate(g, p, d)
    ensures d > 0
  {
  }

  lemma BelowIsFar(g: Game, p: Path, r: Path, d: nat)
    requires NoFarReturn(g, p, d) && p <= r && |r| == |p| + 2 && d >= 2
    ensures NoFarReturn(g, r, d - 2)
  {
    forall q: Path | r <= q && |r| < |q| < |r| + (d - 2)
      ensures g.repetition(q) == g.nearRepetition(q)
    {
      assert p <= q;
    }
  }

  lemma MatedIsLost(g: Game, q: Path)
    requires WellFormed(g) && IsMated(g, q)
    ensures Value(g, q) == Loss
  {
  }

  /** A reply that loses wins the node. */
  lemma OneLosingReplyWins(g: Game, p: Path, i: nat)
    requires Adjudicated(g, p).None? && i < g.childNum(p) && Value(g, p + [i]) == Loss
    ensures Value(g, p) == Win
  {
  }

  lemma AllRepliesWin(g: Game, q: Path)
    requires g.childNum(q) == 0 || Adjudicated(g, q).None?
    requires Adjudicated(g, q).Some? ==> Adjudicated(g, q).value == Loss
    requires forall j: nat | j < g.childNum(q) :: Value(g, q + [j]) == Win
    ensures Value(g, q) == Loss
  {
  }

  /** A mate that fits is a win unless the node is already adjudicated. */
  lemma FittingMateWins(g: Game, p: Path)
    requires WellFormed(g) && MateFits(g, p) && Adjudicated(g, p).None?
    ensures Value(g, p) == Win
  {
    hide Value, Adjudicated, OddMate, NoFarReturn, WithinLimit, WellFormed;
    var d: nat :| OddMate(g, p, d) && NoFarReturn(g, p, d) && WithinLimit(g, p, d);
    MateWins(g, p, d);
  }

  // ----- the value the search works with -----

  /** A fresh leaf is probed for a mate before anything else. */
  ghost predicate MateReported(g: Game, p: Path) { HasMateWithin(g, p, g.leafDepth) }

  /** A node the search goes on from: no verdict, and no mate reported at the first visit,
      which would have ended every later one as well. */
  ghost predicate GoesOn(g: Game, p: Path) { Adjudicated(g, p).None? && !MateReported(g, p) }

  /** A node the search can get to: it exists, and the search goes on from every node above it. */
  ghost predicate Reached(g: Game, p: Path) {
    forall k: nat | k < |p| :: GoesOn(g, p[..k]) && p[k] < g.childNum(p[..k])
  }

  /** Minimax where a mate reported at a node ends the line as well. */
  ghost function SearchValue(g: Game, p: Path): Outcome
    decreases g.maxMovesToDraw + 1 - g.rootPly - |p|
  {
    if Adjudicated(g, p).Some? then Adjudicated(g, p).value
    else if MateReported(g, p) then Win
    else if exists i: nat :: i < g.childNum(p) && SearchValue(g, p + [i]) == Loss then Win
    else if exists i: nat :: i < g.childNum(p) && SearchValue(g, p + [i]) == Draw then Draw
    else Loss
  }

  /** Every mate reported at a leaf that is not adjudicated fits. */
  ghost predicate LeafMatesFit(g: Game) {
    forall p: Path | MateReported(g, p) && Adjudicated(g, p).None? :: MateFits(g, p)
  }

  ghost predicate LeafMatesWin(g: Game) {
    forall p: Path | MateReported(g, p) && Adjudicated(g, p).None? :: Value(g, p) == Win
  }

  lemma {:induction false} SearchValueAt(g: Game, p: Path)
    requires LeafMatesWin(g)
    ensures SearchValue(g, p) == Value(g, p)
    decreases g.maxMovesToDraw + 1 - g.rootPly - |p|
  {
    if Adjudicated(g, p).None? && !MateReported(g, p) {
      forall i: nat | i < g.childNum(p)
        ensures SearchValue(g, p + [i]) == Value(g, p + [i])
      {
        SearchValueAt(g, p + [i]);
      }
    }
  }

  /** The value the search works with is minimax at every node exactly when every mate it is
      told of at a leaf is a win. */
  lemma {:induction false} SearchValueIsMinimax(g: Game)
    ensures (forall p: Path :: SearchValue(g, p) == Value(g, p)) <==> LeafMatesWin(g)
  {
    if LeafMatesWin(g) {
      forall p: Path
        ensures SearchValue(g, p) == Value(g, p)
      {
        SearchValueAt(g, p);
      }
    } else {
      var p: Path :| MateReported(g, p) && Adjudicated(g, p).None? && Value(g, p) != Win;
      LeafMateIsValued(g, p);
    }
  }

  lemma LeafMateIsValued(g: Game, p: Path)
    requires MateReported(g, p) && Adjudicated(g, p).None?
    ensures SearchValue(g, p) == Win
  {
  }

  lemma FittingLeavesWin(g: Game)
    requires WellFormed(g) && LeafMatesFit(g)
    ensures LeafMatesWin(g)
  {
    hide Value, Adjudicated, HasMateWithin, WellFormed, MateFits, MateReported;
    forall p: Path | MateReported(g, p) && Adjudicated(g, p).None?
      ensures Value(g, p) == Win
    {
      FittingMateWins(g, p);
    }
  }
}
