/** Flags after the workers have joined: exactly when the root guard, which probes the best root
    moves for a mate, leaves every edge with one flag and every flag true. */
module MctsGuard {
  import opened Wrappers
  import opened Repetitions
  import opened MctsGame
  import opened MctsFlags
  import opened MctsRuns

  ghost predicate Single(flags: Path -> set<Outcome>) {
    forall p: Path, a: Outcome, b: Outcome | a in flags(p) && b in flags(p) :: a == b
  }

  ghost predicate TellTruth(g: Game, flags: Path -> set<Outcome>) {
    forall p: Path, o: Outcome | o in flags(p) :: o == Value(g, p)
  }

  // ----- one rejection -----

  /** A rejection leaves an edge with two flags exactly when the edge was flagged drawn, the one
      flag the guard does not ask about. */
  lemma {:induction false} RejectConflicts(g: Game, s: State, c: nat)
    requires Enabled(g, s, RejectRootMove(c))
    ensures var flags := Next(g, s, RejectRootMove(c)).flags;
            && Win in flags([c]) && ((exists a: Outcome :: a in flags([c]) && a != Win) <==> Draw in s.flags([c]))
            && forall p: Path | p != [c] :: flags(p) == s.flags(p)
  {
    hide RootMate;
    var flags := Next(g, s, RejectRootMove(c)).flags;
    if Draw in s.flags([c]) {
      assert Draw in flags([c]);
    }
    forall a: Outcome | a in flags([c]) && a != Win
      ensures a == Draw
    {
    }
  }

  // ----- what the guard finds -----

  /** Once the guard has started no root move is flagged lost for the other side. */
  ghost predicate Guarded(g: Game, s: State) {
    s.joined ==> AllIdle(s) && forall c: nat | c < g.childNum([]) :: Loss !in s.flags([c])
  }

  lemma LeadsGuarded(g: Game, s0: State, a: Action, s: State)
    requires Guarded(g, s0) && Leads(g, s0, a, s)
    ensures Guarded(g, s)
  {
    hide Adjudicated, MateReported, RootMate, SearchValue;
    if a.RejectRootMove? {
      assert forall p: Path | p != [a.child] :: s.flags(p) == s0.flags(p);
    }
  }

  lemma {:induction false} RunsAreGuarded(g: Game, start: State, actions: seq<Action>, s: State)
    requires Begins(g, start) && IsRun(g, start, actions, s)
    ensures Guarded(g, s)
    decreases |actions|
  {
    hide Leads;
    if actions != [] {
      var before, last := actions[..|actions| - 1], actions[|actions| - 1];
      var s0: State :| IsRun(g, start, before, s0) && Leads(g, s0, last, s);
      RunsAreGuarded(g, start, before, s0);
      LeadsGuarded(g, s0, last, s);
    }
  }

  // ----- one flag on every edge -----

  /** No root move the search may flag drawn is reported as a mate. */
  ghost predicate NoDrawnMate(g: Game) {
    || !HasChoice(g) || !GoesOn(g, [])
    || forall c: nat | c < g.childNum([]) && RootMate(g, c) :: SearchValue(g, [c]) != Draw
  }

  lemma {:induction false} RunIsSingle(g: Game, start: State, actions: seq<Action>, s: State, p: Path, a: Outcome, b: Outcome)
    requires NoDrawnMate(g) && Begins(g, start) && IsRun(g, start, actions, s) && a in s.flags(p) && b in s.flags(p)
    ensures a == b
  {
    hide IsRun, Adjudicated, SearchValue, RootMate, TrueWorker, AllIdle, MateReported;
    RunsKeepInvariant(g, start, actions, s);
    RunsAreGuarded(g, start, actions, s);
    if |p| == 1 {
      assert p == [p[0]];
      assert Reached(g, p) ==> GoesOn(g, p[..0]);
    }
  }

  lemma FreshIsClear(p: Path)
    ensures Clear(Fresh(), p) && Untouched(Fresh(), p)
  {
  }

  lemma DrawnChildIsReached(g: Game, c: nat)
    requires GoesOn(g, []) && c < g.childNum([])
    ensures Reached(g, [c])
  {
    RootReached(g);
    ChildReached(g, [], c);
    assert [] + [c] == [c];
  }

  /** From a tree without flags one worker flags the root move drawn, and the guard rejects it. */
  lemma DrawnAndRejected(g: Game, c: nat) returns (s: State)
    requires HasChoice(g) && GoesOn(g, []) && c < g.childNum([]) && RootMate(g, c) && SearchValue(g, [c]) == Draw
    ensures Leadable(g, Fresh(), s) && Draw in s.flags([c]) && Win in s.flags([c])
  {
    hide Adjudicated, SearchValue, RootMate, Leadable, Invariant;
    FreshBegins(g);
    DrawnChildIsReached(g, c);
    FreshIsClear([c]);
    var s1 := Settle(g, Fresh(), Fresh(), [c]);
    OnlyItsValue(g, s1, [c]);
    forall i: nat
      ensures Loss !in s1.flags([i])
    {
      assert [c] <= [i] ==> [i] == [c];
    }
    Extend(g, Fresh(), s1, RejectRootMove(c));
    s := Next(g, s1, RejectRootMove(c));
  }

  /** Whatever the interleaving and whatever the mate probes report: all runs leave at most one
      flag on every edge if, and already those from a tree without flags only if, no root move
      the search values as a draw is reported as a mate (or no playout leaves the root). */
  lemma {:induction false} FlagsStaySingle(g: Game)
    ensures NoDrawnMate(g) ==>
              forall start: State, actions: seq<Action>, s: State | Begins(g, start) && IsRun(g, start, actions, s) :: Single(s.flags)
    ensures (forall actions: seq<Action>, s: State | IsRun(g, Fresh(), actions, s) :: Single(s.flags)) ==> NoDrawnMate(g)
  {
    hide IsRun, Adjudicated, SearchValue, RootMate, Begins;
    if NoDrawnMate(g) {
      forall start: State, actions: seq<Action>, s: State, p: Path, a: Outcome, b: Outcome |
        Begins(g, start) && IsRun(g, start, actions, s) && a in s.flags(p) && b in s.flags(p)
        ensures a == b
      {
        RunIsSingle(g, start, actions, s, p, a, b);
      }
    } else {
      var c: nat :| c < g.childNum([]) && RootMate(g, c) && SearchValue(g, [c]) == Draw;
      var s := DrawnAndRejected(g, c);
      var actions: seq<Action> :| IsRun(g, Fresh(), actions, s);
      assert !Single(s.flags);
    }
  }

  // ----- true flags -----

  /** Every mate the search is told of, at a leaf it gets to or behind a root move, is a win. */
  ghost predicate ProbesTellTruth(g: Game) {
    && (forall p: Path | p != [] && Reached(g, p) && MateReported(g, p) && Adjudicated(g, p).None? :: Value(g, p) == Win)
    && (forall c: nat | c < g.childNum([]) && RootMate(g, c) :: Value(g, [c]) == Win)
  }

  /** Below the root the search's value of every node it gets to is minimax. */
  lemma {:induction false} ReachedValue(g: Game, p: Path)
    requires ProbesTellTruth(g) && p != [] && Reached(g, p)
    ensures SearchValue(g, p) == Value(g, p)
    decreases g.maxMovesToDraw + 1 - g.rootPly - |p|
  {
    hide Reached, RootMate, MateReported;
    if GoesOn(g, p) {
      forall i: nat | i < g.childNum(p)
        ensures SearchValue(g, p + [i]) == Value(g, p + [i])
      {
        ChildReached(g, p, i);
        ReachedValue(g, p + [i]);
      }
    }
  }

  lemma {:induction false} RunIsTrue(g: Game, start: State, actions: seq<Action>, s: State, p: Path, o: Outcome)
    requires ProbesTellTruth(g) && Begins(g, start) && IsRun(g, start, actions, s) && o in s.flags(p)
    ensures o == Value(g, p)
  {
    hide IsRun, Adjudicated, SearchValue, Value, RootMate, TrueWorker, AllIdle, MateReported, Reached;
    RunsKeepInvariant(g, start, actions, s);
    if p != [] && Reached(g, p) {
      ReachedValue(g, p);
    }
    if o != SearchValue(g, p) || p == [] || !Reached(g, p) {
      assert p == [p[0]];
    }
  }

  lemma LeafIsFlagged(g: Game, p: Path) returns (s: State)
    requires HasChoice(g) && p != [] && Reached(g, p) && MateReported(g, p) && Adjudicated(g, p).None?
    ensures Leadable(g, Fresh(), s) && Win in s.flags(p)
  {
    LeafMateIsValued(g, p);
    FreshBegins(g);
    FreshIsClear(p);
    hide *;
    s := Settle(g, Fresh(), Fresh(), p);
  }

  lemma RootMateIsFlagged(g: Game, c: nat) returns (s: State)
    requires HasChoice(g) && c < g.childNum([]) && RootMate(g, c)
    ensures Leadable(g, Fresh(), s) && Win in s.flags([c])
  {
    hide Leadable, RootMate, Invariant;
    FreshBegins(g);
    Extend(g, Fresh(), Fresh(), RejectRootMove(c));
    s := Next(g, Fresh(), RejectRootMove(c));
  }

  /** Every flag of every run is the minimax value if, and (where there is a choice of root moves)
      already from a tree without flags only if, every mate reported at a leaf the search gets
      to or behind a root move is a win. */
  lemma {:induction false} FlagsStayTrue(g: Game)
    ensures ProbesTellTruth(g) ==>
              forall start: State, actions: seq<Action>, s: State | Begins(g, start) && IsRun(g, start, actions, s) :: TellTruth(g, s.flags)
    ensures HasChoice(g) ==>
              (forall actions: seq<Action>, s: State | IsRun(g, Fresh(), actions, s) :: TellTruth(g, s.flags)) ==> ProbesTellTruth(g)
  {
    hide IsRun, Adjudicated, RootMate, Begins, Value, MateReported, Reached, HasChoice;
    if ProbesTellTruth(g) {
      forall start: State, actions: seq<Action>, s: State, p: Path, o: Outcome |
        Begins(g, start) && IsRun(g, start, actions, s) && o in s.flags(p)
        ensures o == Value(g, p)
      {
        RunIsTrue(g, start, actions, s, p, o);
      }
    } else if !HasChoice(g) {
    } else if p: Path :| p != [] && Reached(g, p) && MateReported(g, p) && Adjudicated(g, p).None? && Value(g, p) != Win {
      var s := LeafIsFlagged(g, p);
      var actions: seq<Action> :| IsRun(g, Fresh(), actions, s);
      assert !TellTruth(g, s.flags);
    } else {
      var c: nat :| c < g.childNum([]) && RootMate(g, c) && Value(g, [c]) != Win;
      var s := RootMateIsFlagged(g, c);
      var actions: seq<Action> :| IsRun(g, Fresh(), actions, s);
      assert !TellTruth(g, s.flags);
    }
  }

  // ----- mates that fit -----

  /** Every mate reported behind a root move that is not adjudicated fits. */
  ghost predicate RootMatesFit(g: Game) {
    forall c: nat | c < g.childNum([]) && RootMate(g, c) && Adjudicated(g, [c]).None? :: MateFits(g, [c])
  }

  /** A root move whose adjudicated verdict the probe contradicts. */
  ghost predicate Misjudged(g: Game, c: nat) {
    c < g.childNum([]) && RootMate(g, c) && Adjudicated(g, [c]).Some? && Adjudicated(g, [c]).value != Win
  }

  lemma VerdictIs(g: Game, p: Path)
    ensures Adjudicated(g, p).Some? ==> Value(g, p) == Adjudicated(g, p).value == SearchValue(g, p)
  {
  }

  lemma FittingRootMate(g: Game, c: nat)
    requires WellFormed(g) && LeafMatesFit(g) && RootMatesFit(g) && c < g.childNum([]) && RootMate(g, c)
    ensures Value(g, [c]) == SearchValue(g, [c])
    ensures Adjudicated(g, [c]).None? ==> Value(g, [c]) == Win
  {
    hide Value, SearchValue, MateFits, WellFormed, LeafMatesFit, LeafMatesWin, Adjudicated, RootMate;
    FittingLeavesWin(g);
    SearchValueAt(g, [c]);
    if Adjudicated(g, [c]).None? {
      FittingMateWins(g, [c]);
    }
  }

  /** Where the reported mates fit, both conditions come down to the verdicts on root moves: the
      flags stay single exactly when no root move adjudicated a draw is reported as a mate, and
      true exactly when no root move reported as a mate is adjudicated otherwise. */
  lemma {:induction false} FittingMatesLeaveVerdicts(g: Game)
    requires WellFormed(g) && LeafMatesFit(g) && RootMatesFit(g)
    ensures NoDrawnMate(g) <==>
            || !HasChoice(g) || !GoesOn(g, [])
            || forall c: nat | c < g.childNum([]) && RootMate(g, c) :: Adjudicated(g, [c]) != Some(Draw)
    ensures ProbesTellTruth(g) <==> forall c: nat :: !Misjudged(g, c)
  {
    hide Value, SearchValue, RootMate, MateReported, Adjudicated, WellFormed, LeafMatesFit, RootMatesFit;
    forall c: nat | c < g.childNum([]) && RootMate(g, c)
      ensures Value(g, [c]) == SearchValue(g, [c])
      ensures if Adjudicated(g, [c]).None? then Value(g, [c]) == Win else Value(g, [c]) == Adjudicated(g, [c]).value
    {
      FittingRootMate(g, c);
      VerdictIs(g, [c]);
    }
    FittingLeavesWin(g);
    assert forall c: nat :: Misjudged(g, c) ==> Value(g, [c]) != Win;
  }

  // ----- games that go wrong -----

  /** Two root moves, a draw by repetition behind the first, where a one-move mate was missed. */
  function MissedMate(): Game {
    Game((p: Path) => if p == [] then 2 else if p == [0, 0] then 0 else 1, (p: Path) => p == [0, 0], (p: Path) => false,
         (p: Path) => if p == [0] then RepetitionDraw else NoRepetition, (p: Path) => if p == [0] then RepetitionDraw else NoRepetition,
         (p: Path) => p == [0], 20, 320, 5, 7, (p: Path) => 0.5)
  }

  lemma MissedMateReports(p: Path, d: nat)
    requires OddMate(MissedMate(), p, d)
    ensures p == [0]
  {
    var g := MissedMate();
    if d > 1 {
      var i: nat :| i < g.childNum(p) && CheckMates(g, p + [i], d);
      assert p + [i] == [0, 0];
      assert p == (p + [i])[..1];
    }
  }

  /** All mates fit, and yet a run leaves two flags on an edge. */
  lemma {:induction false} MissedMateConflicts() returns (g: Game, s: State)
    ensures WellFormed(g) && LeafMatesFit(g) && RootMatesFit(g)
    ensures Leadable(g, Fresh(), s) && Draw in s.flags([0]) && Win in s.flags([0])
  {
    g := MissedMate();
    assert [0] + [0] == [0, 0];
    assert IsMated(g, [0] + [0]);
    assert CheckMates(g, [0] + [0], 7);
    assert OddMate(g, [0], 7);
    forall p: Path, d: nat | OddMate(g, p, d)
      ensures p == [0]
    {
      MissedMateReports(p, d);
    }
    assert WellFormed(g) && GoesOn(g, []);
    VerdictIs(g, [0]);
    hide *;
    s := DrawnAndRejected(g, 0);
  }

  /** Two root moves, and behind either a check, the only evasion, and a mate. */
  function OneLine(maxMovesToDraw: nat, farDraw: bool): Game {
    Game((p: Path) => if p == [] then 2 else if |p| < 4 then 1 else 0, (p: Path) => |p| == 2 || |p| == 4, (p: Path) => false,
         (p: Path) => if farDraw && |p| == 2 then RepetitionDraw else NoRepetition, (p: Path) => NoRepetition,
         (p: Path) => |p| == 3, 20, maxMovesToDraw, 3, 0, (p: Path) => 0.5)
  }

  lemma OneLineIsWellFormed(maxMovesToDraw: nat, farDraw: bool)
    ensures WellFormed(OneLine(maxMovesToDraw, farDraw))
  {
    var g := OneLine(maxMovesToDraw, farDraw);
    forall p: Path | g.mateInOne(p)
      ensures exists i: nat :: i < g.childNum(p) && IsMated(g, p + [i])
    {
      assert IsMated(g, p + [0]);
    }
  }

  /** The probe sees the mate behind a root move and none at the root. */
  lemma OneLineReports(maxMovesToDraw: nat, farDraw: bool)
    ensures var g := OneLine(maxMovesToDraw, farDraw); MateReported(g, [0]) && !MateReported(g, [])
  {
    var g := OneLine(maxMovesToDraw, farDraw);
    forall i: nat
      ensures !CheckMates(g, [] + [i], 3)
    {
      assert |[] + [i]| == 1;
    }
    assert OddMate(g, [0] + [0] + [0], 1);
    forall j: nat | j < g.childNum([0] + [0])
      ensures EvasionFails(g, [0] + [0] + [j], 2)
    {
      assert j == 0;
    }
    assert EvenMate(g, [0] + [0], 2);
    assert CheckMates(g, [0] + [0], 3);
    assert 0 < g.childNum([0]);
  }

  lemma OneLineMates(maxMovesToDraw: nat, farDraw: bool)
    requires maxMovesToDraw >= 21
    ensures var g := OneLine(maxMovesToDraw, farDraw);
            WellFormed(g) && HasChoice(g) && GoesOn(g, []) && Adjudicated(g, [0]).None? && MateReported(g, [0])
  {
    hide MateReported, WellFormed;
    OneLineIsWellFormed(maxMovesToDraw, farDraw);
    OneLineReports(maxMovesToDraw, farDraw);
  }

  lemma OnlyReplyDraws(g: Game, p: Path)
    requires Adjudicated(g, p).None? && g.childNum(p) == 1 && Value(g, p + [0]) == Draw
    ensures Value(g, p) == Draw
  {
    hide Adjudicated;
  }

  lemma OneLineDraws(maxMovesToDraw: nat, farDraw: bool)
    requires maxMovesToDraw == 21 || (maxMovesToDraw > 21 && farDraw)
    ensures var g := OneLine(maxMovesToDraw, farDraw); Reached(g, [0]) && Value(g, [0]) == Draw
  {
    var g := OneLine(maxMovesToDraw, farDraw);
    OneLineMates(maxMovesToDraw, farDraw);
    VerdictIs(g, [0] + [0]);
    OnlyReplyDraws(g, [0]);
    hide Value, MateReported, Reached;
    DrawnChildIsReached(g, 0);
  }

  /** A mate longer than the plies left: the flag says win, the move limit makes it a draw. */
  lemma {:induction false} LongMateMisleads() returns (g: Game, s: State)
    ensures WellFormed(g) && Leadable(g, Fresh(), s) && Win in s.flags([0]) && Value(g, [0]) == Draw && NoFarReturn(g, [0], 3)
  {
    g := OneLine(21, false);
    assert NoFarReturn(g, [0], 3);
    hide *;
    OneLineMates(21, false);
    OneLineDraws(21, false);
    s := LeafIsFlagged(g, [0]);
  }

  /** A repetition older than the probe looks: the flag says win, the search adjudicates a draw. */
  lemma {:induction false} FarReturnMisleads() returns (g: Game, s: State)
    ensures WellFormed(g) && Leadable(g, Fresh(), s) && Win in s.flags([0]) && Value(g, [0]) == Draw && WithinLimit(g, [0], 3)
  {
    g := OneLine(29, true);
    assert WithinLimit(g, [0], 3);
    hide *;
    OneLineMates(29, true);
    OneLineDraws(29, true);
    s := LeafIsFlagged(g, [0]);
  }
}
