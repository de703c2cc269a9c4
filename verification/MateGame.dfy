/** The checkmate game the solvers search, with its repetition adjudication. A position
    is named by its exact key and a move by its raw value; zero is the null move. */
module MateGame {
  import opened Repetitions

  type Pos = nat
  type Move = nat

  const NULL_MOVE: Move := 0

  datatype Rules = Rules(legal: Pos -> seq<Move>, play: (Pos, Move) -> Pos, inCheck: Pos -> bool, mateInOne: Pos -> Move)

  /** A run is every position since the history was last cleared; the last one is on
      the board. */
  type Run = seq<Pos>

  ghost predicate IsLegalStep(rules: Rules, p: Pos, q: Pos) {
    exists m: Move :: m in rules.legal(p) && rules.play(p, m) == q
  }

  ghost predicate IsLegalRun(rules: Rules, run: Run) {
    && |run| > 0
    && forall i: nat | i + 1 < |run| :: IsLegalStep(rules, run[i], run[i + 1])
  }

  function Last(run: Run): Pos
    requires |run| > 0
  {
    run[|run| - 1]
  }

  // ----- repetition -----

  /** The number of consecutive checking moves that end with the move into run[i], all
      by the side that made it. */
  function TrailingChecks(rules: Rules, run: Run, i: int): nat
    requires i < |run|
    decreases if i < 0 then 0 else i + 1
  {
    if i >= 1 && rules.inCheck(run[i]) then 1 + TrailingChecks(rules, run, i - 2) else 0
  }

  /** `dist` plies back the same position was on the board. */
  predicate Returns(run: Run, dist: nat) {
    dist < |run| && run[|run| - 1 - dist] == run[|run| - 1]
  }

  /** The search-time adjudication of the nearest return at distance `dist` or more,
      from the point of view of the side to move. */
  function RepetitionFrom(rules: Rules, run: Run, dist: nat, limit: nat): RepetitionResult
    requires limit < |run|
    decreases limit + 2 - dist
  {
    if dist > limit then NoRepetition
    else if Returns(run, dist) then
      if 2 * TrailingChecks(rules, run, |run| - 2) >= dist then RepetitionLoss
      else if 2 * TrailingChecks(rules, run, |run| - 1) >= dist then RepetitionWin
      else RepetitionDraw
    else RepetitionFrom(rules, run, dist + 2, limit)
  }

  function CheckRepetition(rules: Rules, run: Run, maxBackPlies: nat): RepetitionResult
    requires |run| > 0
  {
    var historySize := |run| - 1;
    RepetitionFrom(rules, run, 4, if 0 < maxBackPlies < historySize then maxBackPlies else historySize)
  }

  // ----- the game -----

  const REPETITION_LOOKBACK: nat := 16

  function Checks(rules: Rules, p: Pos): seq<Move> {
    Filter(rules, p, rules.legal(p))
  }

  function Filter(rules: Rules, p: Pos, moves: seq<Move>): seq<Move> {
    if moves == [] then []
    else
      var rest := Filter(rules, p, moves[..|moves| - 1]);
      var m := moves[|moves| - 1];
      if rules.inCheck(rules.play(p, m)) then rest + [m] else rest
  }

  /** At most `cap` moves of a list are ever turned into children. */
  function Capped(cap: nat, moves: seq<Move>): seq<Move> {
    if |moves| <= cap then moves else moves[..cap]
  }

  /** The moves considered for the side to move: the attacker's checks (and the move of
      the mate-in-one routine), or all moves of the defender. */
  function Options(rules: Rules, cap: nat, p: Pos, attacker: bool): seq<Move> {
    if !attacker then Capped(cap, rules.legal(p))
    else Capped(cap, Checks(rules, p)) + if rules.mateInOne(p) != NULL_MOVE then [rules.mateInOne(p)] else []
  }

  predicate AttackerWins(r: RepetitionResult, attackerToMove: bool) {
    r == if attackerToMove then RepetitionWin else RepetitionLoss
  }

  /** Below the search root (the position run[root]) a repetition, or a return to any
      position of the search path, ends the line. */
  predicate Adjudicated(rules: Rules, root: nat, run: Run)
    requires |run| > 0
  {
    |run| > root + 1 && (CheckRepetition(rules, run, REPETITION_LOOKBACK) != NoRepetition || OnPath(root, run))
  }

  predicate OnPath(root: nat, run: Run)
    requires |run| > root + 1
  {
    Last(run) in run[root..|run| - 1]
  }

  /** The line is over and won: by adjudication, or because the defender has no move. */
  predicate LineEnds(rules: Rules, root: nat, run: Run, attacker: bool)
    requires |run| > 0
  {
    if Adjudicated(rules, root, run) then AttackerWins(CheckRepetition(rules, run, REPETITION_LOOKBACK), attacker)
    else !attacker && rules.legal(Last(run)) == []
  }

  /** The attacker forces a win within `k` plies. */
  ghost predicate Wins(rules: Rules, cap: nat, root: nat, run: Run, attacker: bool, k: nat)
    requires |run| > 0
    decreases k
  {
    if Adjudicated(rules, root, run) then
      AttackerWins(CheckRepetition(rules, run, REPETITION_LOOKBACK), attacker)
    else if attacker then
      k > 0 && exists m :: m in Options(rules, cap, Last(run), true) && WinsAfter(rules, cap, root, run, m, false, k - 1)
    else
      || Options(rules, cap, Last(run), false) == []
      || (k > 0 && forall m | m in Options(rules, cap, Last(run), false) :: WinsAfter(rules, cap, root, run, m, true, k - 1))
  }

  ghost predicate WinsAfter(rules: Rules, cap: nat, root: nat, run: Run, m: Move, attacker: bool, k: nat)
    requires |run| > 0
    decreases k + 1, 0
  {
    Wins(rules, cap, root, run + [rules.play(Last(run), m)], attacker, k)
  }

  ghost predicate ForcedWin(rules: Rules, cap: nat, root: nat, run: Run, attacker: bool)
    requires |run| > 0
  {
    exists k: nat :: Wins(rules, cap, root, run, attacker, k)
  }

  lemma {:induction false} WinsMonotone(rules: Rules, cap: nat, root: nat, run: Run, attacker: bool, k: nat, k': nat)
    requires |run| > 0 && k <= k' && Wins(rules, cap, root, run, attacker, k)
    ensures Wins(rules, cap, root, run, attacker, k')
    decreases k
  {
    if !Adjudicated(rules, root, run) && k > 0 {
      forall m | m in Options(rules, cap, Last(run), attacker) && WinsAfter(rules, cap, root, run, m, !attacker, k - 1)
        ensures WinsAfter(rules, cap, root, run, m, !attacker, k' - 1)
      {
        WinsMonotone(rules, cap, root, run + [rules.play(Last(run), m)], !attacker, k - 1, k' - 1);
      }
    }
  }

  ghost predicate ForcedAfter(rules: Rules, cap: nat, root: nat, run: Run, m: Move, attacker: bool)
    requires |run| > 0
  {
    ForcedWin(rules, cap, root, run + [rules.play(Last(run), m)], attacker)
  }

  /** An attacker's position is won iff some considered move leads to a won one. */
  lemma {:induction false} AttackerForces(rules: Rules, cap: nat, root: nat, run: Run)
    requires |run| > 0 && !Adjudicated(rules, root, run)
    ensures ForcedWin(rules, cap, root, run, true) <==>
              exists m :: m in Options(rules, cap, Last(run), true) && ForcedAfter(rules, cap, root, run, m, false)
  {
    if m :| m in Options(rules, cap, Last(run), true) && ForcedAfter(rules, cap, root, run, m, false) {
      var k: nat :| Wins(rules, cap, root, run + [rules.play(Last(run), m)], false, k);
      assert WinsAfter(rules, cap, root, run, m, false, k);
      assert Wins(rules, cap, root, run, true, k + 1);
    }
    if k: nat :| Wins(rules, cap, root, run, true, k) {
      var m :| m in Options(rules, cap, Last(run), true) && WinsAfter(rules, cap, root, run, m, false, k - 1);
      assert Wins(rules, cap, root, run + [rules.play(Last(run), m)], false, k - 1);
      assert ForcedAfter(rules, cap, root, run, m, false);
    }
  }

  /** One bound serves finitely many won continuations. */
  lemma {:induction false} CommonBound(rules: Rules, cap: nat, root: nat, run: Run, moves: seq<Move>) returns (k: nat)
    requires |run| > 0 && forall m | m in moves :: ForcedAfter(rules, cap, root, run, m, true)
    ensures forall m | m in moves :: WinsAfter(rules, cap, root, run, m, true, k)
  {
    if moves == [] {
      k := 0;
    } else {
      var m0 := moves[|moves| - 1];
      assert m0 in moves;
      assert moves == moves[..|moves| - 1] + [m0];
      var k1 := CommonBound(rules, cap, root, run, moves[..|moves| - 1]);
      var k0: nat :| Wins(rules, cap, root, run + [rules.play(Last(run), m0)], true, k0);
      k := if k0 < k1 then k1 else k0;
      forall m | m in moves
        ensures WinsAfter(rules, cap, root, run, m, true, k)
      {
        WinsMonotone(rules, cap, root, run + [rules.play(Last(run), m)], true, if m == m0 then k0 else k1, k);
      }
    }
  }

  /** A defender's position is lost iff every considered move leads to a lost one. */
  lemma {:induction false} DefenderForces(rules: Rules, cap: nat, root: nat, run: Run)
    requires |run| > 0 && !Adjudicated(rules, root, run)
    ensures ForcedWin(rules, cap, root, run, false) <==>
              forall m | m in Options(rules, cap, Last(run), false) :: ForcedAfter(rules, cap, root, run, m, true)
  {
    var moves := Options(rules, cap, Last(run), false);
    if forall m | m in moves :: ForcedAfter(rules, cap, root, run, m, true) {
      var k := CommonBound(rules, cap, root, run, moves);
      assert Wins(rules, cap, root, run, false, k + 1);
    }
    if k: nat :| Wins(rules, cap, root, run, false, k) {
      forall m | m in moves
        ensures ForcedAfter(rules, cap, root, run, m, true)
      {
        assert WinsAfter(rules, cap, root, run, m, true, k - 1);
        assert Wins(rules, cap, root, run + [rules.play(Last(run), m)], true, k - 1);
      }
    }
  }

  /** An adjudicated line has its verdict at once. */
  lemma AdjudicatedVerdict(rules: Rules, cap: nat, root: nat, run: Run, attacker: bool)
    requires |run| > 0 && Adjudicated(rules, root, run)
    ensures ForcedWin(rules, cap, root, run, attacker) <==> AttackerWins(CheckRepetition(rules, run, REPETITION_LOOKBACK), attacker)
  {
    assert Wins(rules, cap, root, run, attacker, 0) <==> AttackerWins(CheckRepetition(rules, run, REPETITION_LOOKBACK), attacker);
  }

  // ----- the mate-in-one routine -----

  /** The routine only reports legal checkmates. */
  ghost predicate SoundMateInOne(rules: Rules) {
    forall p: Pos | rules.mateInOne(p) != NULL_MOVE ::
      var m := rules.mateInOne(p);
      m in rules.legal(p) && rules.inCheck(rules.play(p, m)) && rules.legal(rules.play(p, m)) == []
  }

  lemma {:induction false} NoReturnNoRepetition(rules: Rules, run: Run, dist: nat, limit: nat)
    requires limit < |run| && dist > 0 && forall i: nat | i + 1 < |run| :: run[i] != Last(run)
    ensures RepetitionFrom(rules, run, dist, limit) == NoRepetition
    decreases limit + 2 - dist
  {
    if dist <= limit {
      NoReturnNoRepetition(rules, run, dist + 2, limit);
    }
  }

  /** A checkmated position ends a legal run, so it is new: no repetition hides a mate. */
  lemma {:induction false} CheckmateIsNew(rules: Rules, root: nat, run: Run, q: Pos)
    requires IsLegalRun(rules, run) && rules.legal(q) == [] && |rules.legal(Last(run))| > 0
    ensures !Adjudicated(rules, root, run + [q])
  {
    forall i: nat | i < |run|
      ensures run[i] != q
    {
      if i + 1 < |run| {
        assert IsLegalStep(rules, run[i], run[i + 1]);
      }
    }
    var limit := if 0 < REPETITION_LOOKBACK < |run| then REPETITION_LOOKBACK else |run|;
    NoReturnNoRepetition(rules, run + [q], 4, limit);
  }

  lemma CheckmateIsForced(rules: Rules, cap: nat, root: nat, run: Run, m: Move)
    requires IsLegalRun(rules, run) && m in rules.legal(Last(run)) && rules.legal(rules.play(Last(run), m)) == []
    ensures ForcedAfter(rules, cap, root, run, m, false)
    ensures !Adjudicated(rules, root, run + [rules.play(Last(run), m)]) && LineEnds(rules, root, run + [rules.play(Last(run), m)], false)
  {
    var q := rules.play(Last(run), m);
    CheckmateIsNew(rules, root, run, q);
    assert Wins(rules, cap, root, run + [q], false, 0);
  }

  /** Playing a legal move extends a legal run. */
  lemma ExtendRun(rules: Rules, run: Run, m: Move)
    requires IsLegalRun(rules, run) && m in rules.legal(Last(run))
    ensures IsLegalRun(rules, run + [rules.play(Last(run), m)])
  {
    var run' := run + [rules.play(Last(run), m)];
    forall i: nat | i + 1 < |run'|
      ensures IsLegalStep(rules, run'[i], run'[i + 1])
    {
      if i + 1 < |run| {
        assert IsLegalStep(rules, run[i], run[i + 1]);
      }
    }
  }

  // ----- the cap on move lists -----

  /** No list of checks, and no list of evasions, is longer than the cap. */
  ghost predicate FitsCap(rules: Rules, cap: nat) {
    forall p: Pos :: |Checks(rules, p)| <= cap && (rules.inCheck(p) ==> |rules.legal(p)| <= cap)
  }

  lemma {:induction false} FilterGivesChecks(rules: Rules, p: Pos, moves: seq<Move>)
    ensures forall m :: m in Filter(rules, p, moves) <==> m in moves && rules.inCheck(rules.play(p, m))
  {
    if moves != [] {
      FilterGivesChecks(rules, p, moves[..|moves| - 1]);
      assert moves == moves[..|moves| - 1] + [moves[|moves| - 1]];
    }
  }

  /** When no move list is longer than either cap, both capped games agree. */
  lemma {:induction false} CapIsHarmless(rules: Rules, cap: nat, cap': nat, root: nat, run: Run, attacker: bool, k: nat)
    requires |run| > 0 && FitsCap(rules, cap) && FitsCap(rules, cap') && SoundMateInOne(rules)
    requires attacker || rules.inCheck(Last(run))
    requires Wins(rules, cap, root, run, attacker, k)
    ensures Wins(rules, cap', root, run, attacker, k)
    decreases k
  {
    assert |Checks(rules, Last(run))| <= cap;
    FilterGivesChecks(rules, Last(run), rules.legal(Last(run)));
    var options := Options(rules, cap, Last(run), attacker);
    assert options == Options(rules, cap', Last(run), attacker);
    if k > 0 {
      forall m | m in options && WinsAfter(rules, cap, root, run, m, !attacker, k - 1)
        ensures WinsAfter(rules, cap', root, run, m, !attacker, k - 1)
      {
        CapIsHarmless(rules, cap, cap', root, run + [rules.play(Last(run), m)], !attacker, k - 1);
      }
    }
  }

  /** One check, 255 evasions; every evasion but the last allows mate in one. */
  function ManyEvasions(): Rules {
    Rules(
      (p: Pos) => if p == 0 then [1] else if p == 1 then seq(255, (i: nat) => i + 1) else if p == 2 then [7] else [],
      (p: Pos, m: Move) => if p == 0 then 1 else if p == 1 then (if m == 255 then 3 else 2) else 4,
      (p: Pos) => p == 1 || p == 4,
      (p: Pos) => if p == 2 then 7 else NULL_MOVE)
  }

  lemma ManyEvasionsChecks()
    ensures Checks(ManyEvasions(), 0) == [1] && Checks(ManyEvasions(), 3) == []
    ensures SoundMateInOne(ManyEvasions())
  {
    var r := ManyEvasions();
    assert [1][..0] == [];
    assert Filter(r, 0, []) == [];
  }

  lemma ManyEvasionsMates()
    ensures Wins(ManyEvasions(), 254, 0, [0, 1, 2], true, 1)
    ensures !Adjudicated(ManyEvasions(), 0, [0]) && !Adjudicated(ManyEvasions(), 0, [0, 1])
    ensures forall k: nat :: !Wins(ManyEvasions(), 255, 0, [0, 1, 3], true, k)
  {
    var r := ManyEvasions();
    ManyEvasionsChecks();
    NoReturnNoRepetition(r, [0, 1, 2, 4], 4, 3);
    assert [0, 1, 2] + [4] == [0, 1, 2, 4];
    assert Wins(r, 254, 0, [0, 1, 2, 4], false, 0);
    assert 7 in Options(r, 254, 2, true);
    assert WinsAfter(r, 254, 0, [0, 1, 2], 7, false, 0);
    assert Options(r, 255, 3, true) == [];
  }

  lemma EscapeMissed()
    ensures Wins(ManyEvasions(), 254, 0, [0, 1], false, 2)
  {
    var r := ManyEvasions();
    ManyEvasionsMates();
    assert [0, 1] + [2] == [0, 1, 2];
    forall m | m in Options(r, 254, 1, false)
      ensures WinsAfter(r, 254, 0, [0, 1], m, true, 1)
    {
      assert m != 255;
    }
  }

  lemma EscapeFound(k: nat)
    ensures !Wins(ManyEvasions(), 255, 0, [0, 1], false, k)
  {
    var r := ManyEvasions();
    ManyEvasionsMates();
    assert [0, 1] + [3] == [0, 1, 3];
    assert r.legal(1)[254] == 255;
    assert 255 in Options(r, 255, 1, false);
    assert k > 0 ==> !WinsAfter(r, 255, 0, [0, 1], 255, true, k - 1);
  }

  /** The cap matters: with 255 evasions the search's game is won although the real one
      is not, because the one escaping evasion is never looked at. */
  lemma {:induction false} CapHidesAnEscape()
    ensures ForcedWin(ManyEvasions(), 254, 0, [0], true)
    ensures !ForcedWin(ManyEvasions(), 255, 0, [0], true)
  {
    var r := ManyEvasions();
    hide Wins;
    ManyEvasionsChecks();
    ManyEvasionsMates();
    assert [0] + [1] == [0, 1];
    EscapeMissed();
    assert Last([0]) == 0;
    assert ForcedAfter(r, 254, 0, [0], 1, false);
    assert Options(r, 254, 0, true) == [1];
    AttackerForces(r, 254, 0, [0]);
    forall k: nat
      ensures !Wins(r, 255, 0, [0, 1], false, k)
    {
      EscapeFound(k);
    }
    assert Options(r, 255, 0, true) == [1];
    AttackerForces(r, 255, 0, [0]);
  }
}
