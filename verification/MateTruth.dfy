/** What a forced win of the mate solver's game is worth in the game of the tree search, whose
    verdicts are its own: minimax with a move limit. */
module MateTruth {
  import opened Wrappers
  import opened Repetitions
  import opened MateGame
  import M = MctsGame

  /** A board whose side to move attacks, and the moves each side may choose from. */
  datatype Start = Start(rules: Rules, board: Run, cap: nat, all: bool)
  {
    predicate Valid() { |board| > 0 }

    function Root(): nat { if board == [] then 0 else |board| - 1 }

    function Moves(p: Pos, attacker: bool): seq<Move> { if all then rules.legal(p) else Options(rules, cap, p, attacker) }

    /** The run after the listed choices. */
    function RunAt(p: M.Path): (r: Run)
      requires Valid()
      ensures |r| == |board| + |p|
    {
      if p == [] then board else Extended(RunAt(p[..|p| - 1]), Attacks(|p| - 1), p[|p| - 1])
    }

    function Extended(run: Run, attacker: bool, i: nat): (r: Run)
      requires |run| > 0
      ensures |r| == |run| + 1
    {
      var moves := Moves(Last(run), attacker);
      run + [if i < |moves| then rules.play(Last(run), moves[i]) else Last(run)]
    }

    function MovesAt(p: M.Path): seq<Move>
      requires Valid()
    {
      Moves(Last(RunAt(p)), Attacks(|p|))
    }

    /** The tree search's game over these choices, with `plies` to go before the move limit. */
    function Game(verdict: Run -> RepetitionResult, plies: nat): M.Game
      requires Valid()
    {
      M.Game(p => if Valid() then |MovesAt(p)| else 0, p => Valid() && rules.inCheck(Last(RunAt(p))), p => false,
             p => if Valid() then verdict(RunAt(p)) else NoRepetition, p => NoRepetition, p => false, 0, plies, 0, 0, p => 0.5)
    }
  }

  predicate Attacks(ply: nat) { ply % 2 == 0 }

  lemma Turns(ply: nat)
    ensures Attacks(ply + 1) == !Attacks(ply)
  {
  }

  lemma RunAtChild(s: Start, p: M.Path, i: nat)
    requires s.Valid() && i < |s.MovesAt(p)|
    ensures |s.RunAt(p)| > 0 && s.RunAt(p + [i]) == s.RunAt(p) + [s.rules.play(Last(s.RunAt(p)), s.MovesAt(p)[i])]
  {
    assert (p + [i])[..|p|] == p;
  }

  /** What a won node is worth to the side to move. */
  function Worth(attacker: bool): M.Outcome { if attacker then M.Win else M.Loss }

  // ----- the solver's own moves: an equivalence -----

  /** The rule looks back this many plies. */
  const WINDOW: nat := 16

  /** The board's rule within the window, and a draw for a return to a position since the root. */
  function PathVerdict(rules: Rules, root: nat): Run -> RepetitionResult {
    (run: Run) =>
      if |run| <= root + 1 then NoRepetition
      else if CheckRepetition(rules, run, WINDOW) != NoRepetition then CheckRepetition(rules, run, WINDOW)
      else if exists i: nat :: root <= i < |run| - 1 && run[i] == run[|run| - 1] then RepetitionDraw
      else NoRepetition
  }

  lemma OnPathIs(root: nat, run: Run)
    requires |run| > root + 1
    ensures OnPath(root, run) <==> exists i: nat :: root <= i < |run| - 1 && run[i] == run[|run| - 1]
  {
    var path := run[root..|run| - 1];
    if OnPath(root, run) {
      var j: nat :| j < |path| && path[j] == Last(run);
      assert run[root + j] == run[|run| - 1];
    }
    if i: nat :| root <= i < |run| - 1 && run[i] == run[|run| - 1] {
      assert path[i - root] == Last(run);
    }
  }

  lemma PathVerdictIs(rules: Rules, root: nat, run: Run)
    requires |run| > 0
    ensures |run| <= root + 1 ==> !Adjudicated(rules, root, run)
    ensures PathVerdict(rules, root)(run) ==
            if !Adjudicated(rules, root, run) then NoRepetition
            else if CheckRepetition(rules, run, REPETITION_LOOKBACK) == NoRepetition then RepetitionDraw
            else CheckRepetition(rules, run, REPETITION_LOOKBACK)
  {
    hide CheckRepetition;
    if |run| > root + 1 {
      OnPathIs(root, run);
      hide OnPath;
    }
  }

  /** What a verdict is worth to the side to move; a return without one is a draw. */
  function Told(r: RepetitionResult): M.Outcome { if r.RepetitionWin? then M.Win else if r.RepetitionLoss? then M.Loss else M.Draw }

  /** The solver counts as the attacker's exactly the verdicts that are worth that to it. */
  lemma TellsWhoWins(r: RepetitionResult, attacker: bool)
    ensures Told(r) == Worth(attacker) <==> AttackerWins(r, attacker)
  {
  }

  lemma PathDraws()
    ensures Told(NoRepetition) == Told(RepetitionDraw) == M.Draw
  {
  }

  /** How the tree search's game ends at a node. */
  lemma VerdictOf(g: M.Game, p: M.Path)
    requires !g.declares(p)
    ensures var r := M.SearchRepetition(g, p);
            M.Adjudicated(g, p) ==
            if r != NoRepetition then Some(Told(r))
            else if g.rootPly + |p| > g.maxMovesToDraw then Some(if g.childNum(p) == 0 then M.Loss else M.Draw)
            else None
  {
  }

  /** At an adjudicated node, and at the move limit, both games give their verdicts. */
  lemma VerdictsAgree(s: Start, p: M.Path, plies: nat)
    requires s.Valid() && !s.all && |p| <= plies + 1
    ensures var g := s.Game(PathVerdict(s.rules, s.Root()), plies); var run := s.RunAt(p);
            && (|p| <= plies ==> (M.Adjudicated(g, p).None? <==> !Adjudicated(s.rules, s.Root(), run)))
            && (Adjudicated(s.rules, s.Root(), run) ==>
                  M.Adjudicated(g, p).Some?
                  && (M.Adjudicated(g, p).value == Worth(Attacks(|p|)) <==> AttackerWins(CheckRepetition(s.rules, run, REPETITION_LOOKBACK), Attacks(|p|))))
            && (|p| == plies + 1 && !Adjudicated(s.rules, s.Root(), run) ==>
                  M.Adjudicated(g, p) == Some(if s.MovesAt(p) == [] then M.Loss else M.Draw))
  {
    hide CheckRepetition, Options, Adjudicated, PathVerdict, AttackerWins, Worth, Told, M.Adjudicated;
    VerdictOf(s.Game(PathVerdict(s.rules, s.Root()), plies), p);
    PathDraws();
    var run := s.RunAt(p);
    PathVerdictIs(s.rules, s.Root(), run);
    TellsWhoWins(CheckRepetition(s.rules, run, REPETITION_LOOKBACK), Attacks(|p|));
    if p == [] {
      assert |run| <= s.Root() + 1;
    }
  }

  /** Minimax at a node where the line goes on. */
  lemma ValueAt(g: M.Game, p: M.Path)
    requires M.Adjudicated(g, p).None?
    ensures M.Value(g, p) == M.Win <==> exists i: nat :: i < g.childNum(p) && M.Value(g, p + [i]) == M.Loss
    ensures M.Value(g, p) == M.Loss <==> forall i: nat | i < g.childNum(p) :: M.Value(g, p + [i]) == M.Win
  {
    hide M.Adjudicated;
    if M.Value(g, p) == M.Loss {
      forall i: nat | i < g.childNum(p)
        ensures M.Value(g, p + [i]) == M.Win
      {
        assert M.Value(g, p + [i]) != M.Loss && M.Value(g, p + [i]) != M.Draw;
      }
    }
  }

  /** The solver's game at such a node. */
  lemma WinsAt(rules: Rules, cap: nat, root: nat, run: Run, attacker: bool, k: nat)
    requires |run| > 0 && !Adjudicated(rules, root, run) && k > 0
    ensures var options := Options(rules, cap, Last(run), attacker);
            Wins(rules, cap, root, run, attacker, k) <==>
            if attacker then exists i: nat :: i < |options| && WinsAfter(rules, cap, root, run, options[i], false, k - 1)
            else forall i: nat | i < |options| :: WinsAfter(rules, cap, root, run, options[i], true, k - 1)
  {
    hide Adjudicated, WinsAfter, Options;
    var options := Options(rules, cap, Last(run), attacker);
    assert forall i: nat | i < |options| :: options[i] in options;
    if attacker && Wins(rules, cap, root, run, attacker, k) {
      var m :| m in options && WinsAfter(rules, cap, root, run, m, false, k - 1);
      var i: nat :| i < |options| && options[i] == m;
    }
    if !attacker && forall i: nat | i < |options| :: WinsAfter(rules, cap, root, run, options[i], true, k - 1) {
      forall m | m in options
        ensures WinsAfter(rules, cap, root, run, m, true, k - 1)
      {
        var i: nat :| i < |options| && options[i] == m;
      }
    }
  }

  lemma WinsAtTheEnd(rules: Rules, cap: nat, root: nat, run: Run, attacker: bool)
    requires |run| > 0
    ensures Adjudicated(rules, root, run) ==>
              forall k: nat :: Wins(rules, cap, root, run, attacker, k) <==> AttackerWins(CheckRepetition(rules, run, REPETITION_LOOKBACK), attacker)
    ensures !Adjudicated(rules, root, run) ==>
              (Wins(rules, cap, root, run, attacker, 0) <==> !attacker && Options(rules, cap, Last(run), false) == [])
  {
    hide Adjudicated, CheckRepetition, Options, AttackerWins;
  }

  lemma SolverMovesAre(s: Start, p: M.Path)
    requires s.Valid() && !s.all
    ensures s.MovesAt(p) == Options(s.rules, s.cap, Last(s.RunAt(p)), Attacks(|p|))
  {
  }

  lemma VerdictIsValue(g: M.Game, p: M.Path)
    ensures M.Adjudicated(g, p).Some? ==> M.Value(g, p) == M.Adjudicated(g, p).value
  {
  }

  ghost predicate Agree(s: Start, plies: nat, p: M.Path)
    requires s.Valid() && |p| <= plies + 1
  {
    Wins(s.rules, s.cap, s.Root(), s.RunAt(p), Attacks(|p|), plies + 1 - |p|) <==>
    M.Value(s.Game(PathVerdict(s.rules, s.Root()), plies), p) == Worth(Attacks(|p|))
  }

  lemma AgreeBelow(s: Start, plies: nat, p: M.Path, i: nat)
    requires s.Valid() && !s.all && |p| <= plies && i < |s.MovesAt(p)| && Agree(s, plies, p + [i])
    ensures WinsAfter(s.rules, s.cap, s.Root(), s.RunAt(p), s.MovesAt(p)[i], !Attacks(|p|), plies - |p|) <==>
            M.Value(s.Game(PathVerdict(s.rules, s.Root()), plies), p + [i]) == Worth(!Attacks(|p|))
  {
    hide *;
    Turns(|p|);
    RunAtChild(s, p, i);
    AgreeIs(s, plies, p + [i], s.RunAt(p + [i]), !Attacks(|p|));
    WinsAfterIs(s.rules, s.cap, s.Root(), s.RunAt(p), s.MovesAt(p)[i], !Attacks(|p|), plies - |p|);
  }

  lemma WinsAfterIs(rules: Rules, cap: nat, root: nat, run: Run, m: Move, attacker: bool, k: nat)
    requires |run| > 0
    ensures WinsAfter(rules, cap, root, run, m, attacker, k) <==> Wins(rules, cap, root, run + [rules.play(Last(run), m)], attacker, k)
  {
    hide Wins;
  }

  lemma AgreeIs(s: Start, plies: nat, q: M.Path, run: Run, attacker: bool)
    requires s.Valid() && 0 < |q| <= plies + 1 && Agree(s, plies, q) && run == s.RunAt(q) && attacker == Attacks(|q|)
    ensures Wins(s.rules, s.cap, s.Root(), run, attacker, plies + 1 - |q|) <==>
            M.Value(s.Game(PathVerdict(s.rules, s.Root()), plies), q) == Worth(attacker)
  {
    hide Wins, M.Value, PathVerdict, Attacks, Worth;
  }

  lemma GoesOnInBoth(s: Start, plies: nat, p: M.Path)
    requires s.Valid() && !s.all && |p| <= plies && !Adjudicated(s.rules, s.Root(), s.RunAt(p))
    ensures var g := s.Game(PathVerdict(s.rules, s.Root()), plies);
            && |s.RunAt(p)| > 0 && M.Adjudicated(g, p).None? && g.childNum(p) == |s.MovesAt(p)|
            && s.MovesAt(p) == Options(s.rules, s.cap, Last(s.RunAt(p)), Attacks(|p|))
  {
    VerdictsAgree(s, p, plies);
  }

  lemma Combine(s: Start, plies: nat, p: M.Path, g: M.Game)
    requires s.Valid() && |p| <= plies && g == s.Game(PathVerdict(s.rules, s.Root()), plies) && g.childNum(p) == |s.MovesAt(p)|
    requires forall i: nat | i < |s.MovesAt(p)| ::
               WinsAfter(s.rules, s.cap, s.Root(), s.RunAt(p), s.MovesAt(p)[i], !Attacks(|p|), plies - |p|) <==> M.Value(g, p + [i]) == Worth(!Attacks(|p|))
    requires Wins(s.rules, s.cap, s.Root(), s.RunAt(p), Attacks(|p|), plies + 1 - |p|) <==>
             if Attacks(|p|) then exists i: nat :: i < |s.MovesAt(p)| && WinsAfter(s.rules, s.cap, s.Root(), s.RunAt(p), s.MovesAt(p)[i], false, plies - |p|)
             else forall i: nat | i < |s.MovesAt(p)| :: WinsAfter(s.rules, s.cap, s.Root(), s.RunAt(p), s.MovesAt(p)[i], true, plies - |p|)
    requires M.Value(g, p) == M.Win <==> exists i: nat :: i < g.childNum(p) && M.Value(g, p + [i]) == M.Loss
    requires M.Value(g, p) == M.Loss <==> forall i: nat | i < g.childNum(p) :: M.Value(g, p + [i]) == M.Win
    ensures Agree(s, plies, p)
  {
    hide Wins, WinsAfter, M.Value, PathVerdict, Attacks;
  }

  /** A node where the line goes on agrees when its children do. */
  lemma NodeAgrees(s: Start, plies: nat, p: M.Path)
    requires s.Valid() && !s.all && |p| <= plies && !Adjudicated(s.rules, s.Root(), s.RunAt(p))
    requires forall i: nat | i < |s.MovesAt(p)| :: Agree(s, plies, p + [i])
    ensures Agree(s, plies, p)
  {
    hide *;
    var g := s.Game(PathVerdict(s.rules, s.Root()), plies);
    GoesOnInBoth(s, plies, p);
    WinsAt(s.rules, s.cap, s.Root(), s.RunAt(p), Attacks(|p|), plies + 1 - |p|);
    ValueAt(g, p);
    forall i: nat | i < |s.MovesAt(p)|
      ensures WinsAfter(s.rules, s.cap, s.Root(), s.RunAt(p), s.MovesAt(p)[i], !Attacks(|p|), plies - |p|) <==> M.Value(g, p + [i]) == Worth(!Attacks(|p|))
    {
      AgreeBelow(s, plies, p, i);
    }
    Combine(s, plies, p, g);
  }

  /** The solver's game within `k` plies is minimax with that many plies to go: repetitions are
      worth what they are worth to the side to move, and an unfinished line is a draw. */
  lemma {:induction false} WinsIsMinimax(s: Start, plies: nat, p: M.Path)
    requires s.Valid() && !s.all && |p| <= plies + 1
    ensures Agree(s, plies, p)
    decreases plies + 1 - |p|
  {
    hide Wins, Options, Adjudicated, AttackerWins, CheckRepetition, M.Adjudicated, M.Value, PathVerdict, Attacks;
    if |p| <= plies && !Adjudicated(s.rules, s.Root(), s.RunAt(p)) {
      hide *;
      forall i: nat | i < |s.MovesAt(p)|
        ensures Agree(s, plies, p + [i])
      {
        WinsIsMinimax(s, plies, p + [i]);
      }
      NodeAgrees(s, plies, p);
    } else {
      VerdictsAgree(s, p, plies);
      VerdictIsValue(s.Game(PathVerdict(s.rules, s.Root()), plies), p);
      SolverMovesAre(s, p);
      WinsAtTheEnd(s.rules, s.cap, s.Root(), s.RunAt(p), Attacks(|p|));
    }
  }

  /** The attacker forces a win in the solver's game exactly when minimax finds it with enough
      plies to go. */
  lemma {:induction false} ForcedWinIsMinimax(s: Start)
    requires s.Valid() && !s.all
    ensures ForcedWin(s.rules, s.cap, s.Root(), s.board, true) <==>
            exists plies: nat :: M.Value(s.Game(PathVerdict(s.rules, s.Root()), plies), []) == M.Win
  {
    hide Wins, M.Value, PathVerdict;
    if k: nat :| Wins(s.rules, s.cap, s.Root(), s.board, true, k) {
      WinsMonotone(s.rules, s.cap, s.Root(), s.board, true, k, k + 1);
      WinsIsMinimax(s, k, []);
    }
    if plies: nat :| M.Value(s.Game(PathVerdict(s.rules, s.Root()), plies), []) == M.Win {
      WinsIsMinimax(s, plies, []);
      assert Wins(s.rules, s.cap, s.Root(), s.board, true, plies + 1);
    }
  }

  // ----- all moves, the board's rule: what is proved is won -----

  /** The board's repetition rule, which looks back `back` plies, or through the whole history. */
  function BoardVerdict(rules: Rules, root: nat, back: nat): Run -> RepetitionResult {
    (run: Run) => if |run| <= root + 1 then NoRepetition else CheckRepetition(rules, run, back)
  }

  lemma {:induction false} LongerLook(rules: Rules, run: Run, dist: nat, limit: nat, longer: nat)
    requires limit <= longer < |run| && RepetitionFrom(rules, run, dist, limit) != NoRepetition
    ensures RepetitionFrom(rules, run, dist, longer) == RepetitionFrom(rules, run, dist, limit)
    decreases limit + 2 - dist
  {
    hide TrailingChecks;
    if dist <= limit && !Returns(run, dist) {
      LongerLook(rules, run, dist + 2, limit, longer);
    }
  }

  /** Where the whole history lies on the search path, what the solver lets pass is no repetition
      at all, and what it does not is judged the same. */
  lemma SameVerdict(rules: Rules, root: nat, run: Run, back: nat)
    requires |run| > root + 1 && (back == WINDOW || (back == 0 && root == 0))
    ensures CheckRepetition(rules, run, WINDOW) != NoRepetition ==>
              CheckRepetition(rules, run, back) == CheckRepetition(rules, run, WINDOW)
    ensures !Adjudicated(rules, root, run) ==> CheckRepetition(rules, run, back) == NoRepetition
  {
    var all := |run| - 1;
    var limit := if 0 < WINDOW < all then WINDOW else all;
    hide RepetitionFrom;
    if CheckRepetition(rules, run, WINDOW) != NoRepetition {
      LongerLook(rules, run, 4, limit, all);
    }
    if !Adjudicated(rules, root, run) && root == 0 {
      assert run[0..|run| - 1] == run[..|run| - 1];
      assert forall i: nat | i + 1 < |run| :: run[i] in run[..|run| - 1];
      NoReturnNoRepetition(rules, run, 4, all);
    }
  }

  ghost predicate Covered(s: Start, back: nat) {
    && s.Valid() && s.all && SoundMateInOne(s.rules) && FitsCap(s.rules, s.cap)
    && (back == WINDOW || (back == 0 && s.Root() == 0))
  }

  /** A considered move is a legal one, and the attacker's checks. */
  lemma OptionIsLegal(s: Start, p: Pos, attacker: bool, m: Move) returns (i: nat)
    requires SoundMateInOne(s.rules) && m in Options(s.rules, s.cap, p, attacker)
    ensures i < |s.rules.legal(p)| && s.rules.legal(p)[i] == m && (attacker ==> s.rules.inCheck(s.rules.play(p, m)))
  {
    FilterGivesChecks(s.rules, p, s.rules.legal(p));
    hide Filter;
    assert m in s.rules.legal(p);
    i :| i < |s.rules.legal(p)| && s.rules.legal(p)[i] == m;
  }

  /** In check, all evasions are considered. */
  lemma AllEvasions(s: Start, p: Pos)
    requires FitsCap(s.rules, s.cap) && s.rules.inCheck(p)
    ensures Options(s.rules, s.cap, p, false) == s.rules.legal(p)
  {
    assert |Checks(s.rules, p)| <= s.cap;
  }

  lemma AllMovesAre(s: Start, p: M.Path, verdict: Run -> RepetitionResult, plies: nat)
    requires s.Valid() && s.all
    ensures s.MovesAt(p) == s.rules.legal(Last(s.RunAt(p))) && s.Game(verdict, plies).childNum(p) == |s.MovesAt(p)|
  {
  }

  /** At an adjudicated node the board's verdict is the solver's; elsewhere it has none. */
  lemma BoardAgrees(s: Start, p: M.Path, plies: nat, back: nat)
    requires Covered(s, back) && |p| <= plies + 1
    ensures var g := s.Game(BoardVerdict(s.rules, s.Root(), back), plies); var run := s.RunAt(p);
            && (Adjudicated(s.rules, s.Root(), run) && AttackerWins(CheckRepetition(s.rules, run, REPETITION_LOOKBACK), Attacks(|p|)) ==>
                  M.Adjudicated(g, p) == Some(Worth(Attacks(|p|))))
            && (!Adjudicated(s.rules, s.Root(), run) && |p| <= plies ==> M.Adjudicated(g, p).None?)
            && (!Adjudicated(s.rules, s.Root(), run) && |p| == plies + 1 && s.MovesAt(p) == [] ==> M.Adjudicated(g, p) == Some(M.Loss))
  {
    hide CheckRepetition, Adjudicated, FitsCap, SoundMateInOne, AttackerWins, Worth, Told, BoardVerdict, M.Adjudicated;
    var g := s.Game(BoardVerdict(s.rules, s.Root(), back), plies);
    TellsWhoWins(CheckRepetition(s.rules, s.RunAt(p), REPETITION_LOOKBACK), Attacks(|p|));
    BoardVerdictIs(s.rules, s.Root(), s.RunAt(p), back);
    NothingIsNotWon(Attacks(|p|));
    VerdictOf(g, p);
  }

  lemma NothingIsNotWon(attacker: bool)
    ensures !AttackerWins(NoRepetition, attacker)
  {
  }

  lemma BoardVerdictIs(rules: Rules, root: nat, run: Run, back: nat)
    requires |run| > 0 && (back == WINDOW || (back == 0 && root == 0))
    ensures |run| <= root + 1 ==> !Adjudicated(rules, root, run)
    ensures var r := CheckRepetition(rules, run, REPETITION_LOOKBACK);
            && (Adjudicated(rules, root, run) && r != NoRepetition ==> BoardVerdict(rules, root, back)(run) == r)
            && (!Adjudicated(rules, root, run) ==> BoardVerdict(rules, root, back)(run) == NoRepetition)
  {
    hide CheckRepetition, OnPath;
    if |run| > root + 1 {
      SameVerdict(rules, root, run, back);
    }
  }

  /** A win of the solver's game within `k` plies is a win of the game with all moves of both
      sides under the board's own repetition rule, as long as the move limit leaves `k` plies. */
  lemma {:induction false} WinIsReal(s: Start, plies: nat, back: nat, p: M.Path, k: nat)
    requires Covered(s, back) && |p| + k <= plies + 1 && (Attacks(|p|) || s.rules.inCheck(Last(s.RunAt(p))))
    requires Wins(s.rules, s.cap, s.Root(), s.RunAt(p), Attacks(|p|), k)
    ensures M.Value(s.Game(BoardVerdict(s.rules, s.Root(), back), plies), p) == Worth(Attacks(|p|))
    decreases k, 1
  {
    hide CheckRepetition, OnPath, FitsCap, SoundMateInOne, Options, Adjudicated, AttackerWins;
    hide M.Adjudicated, M.Value, BoardVerdict, Wins, WinsAfter, Attacks;
    var g := s.Game(BoardVerdict(s.rules, s.Root(), back), plies);
    BoardAgrees(s, p, plies, back);
    VerdictIsValue(g, p);
    AllMovesAre(s, p, BoardVerdict(s.rules, s.Root(), back), plies);
    WinsAtTheEnd(s.rules, s.cap, s.Root(), s.RunAt(p), Attacks(|p|));
    if !Adjudicated(s.rules, s.Root(), s.RunAt(p)) {
      if Attacks(|p|) {
        AttackerIsReal(s, plies, back, p, k, g);
      } else {
        DefenderIsReal(s, plies, back, p, k, g);
      }
    }
  }

  /** The child a considered move leads to is real as well. */
  lemma ChildIsReal(s: Start, plies: nat, back: nat, p: M.Path, k: nat, i: nat)
    requires Covered(s, back) && k > 0 && |p| + k <= plies + 1 && i < |s.MovesAt(p)|
    requires Attacks(|p|) ==> s.rules.inCheck(s.rules.play(Last(s.RunAt(p)), s.MovesAt(p)[i]))
    requires WinsAfter(s.rules, s.cap, s.Root(), s.RunAt(p), s.MovesAt(p)[i], !Attacks(|p|), k - 1)
    ensures M.Value(s.Game(BoardVerdict(s.rules, s.Root(), back), plies), p + [i]) == Worth(!Attacks(|p|))
    decreases k - 1, 2
  {
    hide CheckRepetition, OnPath, FitsCap, SoundMateInOne, Options, Adjudicated, AttackerWins;
    hide M.Adjudicated, M.Value, BoardVerdict, Wins, Attacks, Covered;
    Turns(|p|);
    CoveredIsValid(s, back);
    RunAtChild(s, p, i);
    WinIsReal(s, plies, back, p + [i], k - 1);
  }

  lemma CoveredIsValid(s: Start, back: nat)
    requires Covered(s, back)
    ensures s.Valid() && s.all && SoundMateInOne(s.rules) && FitsCap(s.rules, s.cap)
  {
  }

  lemma AttackerIsReal(s: Start, plies: nat, back: nat, p: M.Path, k: nat, g: M.Game)
    requires Covered(s, back) && |p| + k <= plies + 1 && Attacks(|p|) && !Adjudicated(s.rules, s.Root(), s.RunAt(p))
    requires Wins(s.rules, s.cap, s.Root(), s.RunAt(p), true, k) && g == s.Game(BoardVerdict(s.rules, s.Root(), back), plies)
    ensures M.Value(g, p) == M.Win
    decreases k, 0
  {
    hide CheckRepetition, OnPath, FitsCap, SoundMateInOne, Options, Adjudicated, AttackerWins;
    hide M.Adjudicated, M.Value, BoardVerdict, Wins, WinsAfter, Attacks, Covered;
    CoveredIsValid(s, back);
    var run := s.RunAt(p);
    WinsAtTheEnd(s.rules, s.cap, s.Root(), run, true);
    WinsAt(s.rules, s.cap, s.Root(), run, true, k);
    var options := Options(s.rules, s.cap, Last(run), true);
    var i: nat :| i < |options| && WinsAfter(s.rules, s.cap, s.Root(), run, options[i], false, k - 1);
    var j := OptionIsLegal(s, Last(run), true, options[i]);
    AllMovesAre(s, p, BoardVerdict(s.rules, s.Root(), back), plies);
    BoardAgrees(s, p, plies, back);
    ChildIsReal(s, plies, back, p, k, j);
    ValueAt(g, p);
  }

  lemma DefenderIsReal(s: Start, plies: nat, back: nat, p: M.Path, k: nat, g: M.Game)
    requires Covered(s, back) && |p| + k <= plies + 1 && !Attacks(|p|) && s.rules.inCheck(Last(s.RunAt(p)))
    requires !Adjudicated(s.rules, s.Root(), s.RunAt(p))
    requires Wins(s.rules, s.cap, s.Root(), s.RunAt(p), false, k) && g == s.Game(BoardVerdict(s.rules, s.Root(), back), plies)
    ensures M.Value(g, p) == M.Loss
    decreases k, 0
  {
    hide CheckRepetition, OnPath, FitsCap, SoundMateInOne, Options, Adjudicated, AttackerWins;
    hide M.Adjudicated, M.Value, BoardVerdict, Wins, WinsAfter, Attacks, Covered;
    CoveredIsValid(s, back);
    var run := s.RunAt(p);
    AllEvasions(s, Last(run));
    AllMovesAre(s, p, BoardVerdict(s.rules, s.Root(), back), plies);
    BoardAgrees(s, p, plies, back);
    WinsAtTheEnd(s.rules, s.cap, s.Root(), run, false);
    VerdictIsValue(g, p);
    if k > 0 && |p| <= plies {
      WinsAt(s.rules, s.cap, s.Root(), run, false, k);
      forall i: nat | i < |s.MovesAt(p)|
        ensures M.Value(g, p + [i]) == M.Win
      {
        ChildIsReal(s, plies, back, p, k, i);
      }
    }
    if |p| <= plies {
      ValueAt(g, p);
    }
  }

  /** A mate the solver reports is won in the game with all moves of both sides: under the rule
      within the search window, and under the rule for the whole history when the history
      starts at the root; with any move limit that leaves enough plies. */
  lemma {:induction false} ForcedWinIsReal(s: Start, back: nat) returns (k: nat)
    requires Covered(s, back) && ForcedWin(s.rules, s.cap, s.Root(), s.board, true)
    ensures forall plies: nat | plies >= k :: M.Value(s.Game(BoardVerdict(s.rules, s.Root(), back), plies), []) == M.Win
  {
    k :| Wins(s.rules, s.cap, s.Root(), s.board, true, k);
    hide Wins, M.Value, BoardVerdict, Covered;
    CoveredIsValid(s, back);
    forall plies: nat | plies >= k
      ensures M.Value(s.Game(BoardVerdict(s.rules, s.Root(), back), plies), []) == M.Win
    {
      WinIsReal(s, plies, back, [], k);
    }
  }

  /** So is the check it names: it loses for the defender. */
  lemma {:induction false} NamedCheckIsReal(s: Start, back: nat, m: Move) returns (i: nat, k: nat)
    requires Covered(s, back) && ForcedAfter(s.rules, s.cap, s.Root(), s.board, m, false)
    requires m in s.rules.legal(Last(s.board)) && s.rules.inCheck(s.rules.play(Last(s.board), m))
    ensures i < |s.rules.legal(Last(s.board))| && s.rules.legal(Last(s.board))[i] == m
    ensures forall plies: nat | plies >= k :: M.Value(s.Game(BoardVerdict(s.rules, s.Root(), back), plies), [i]) == M.Loss
  {
    CoveredIsValid(s, back);
    k :| Wins(s.rules, s.cap, s.Root(), s.board + [s.rules.play(Last(s.board), m)], false, k);
    i :| i < |s.rules.legal(Last(s.board))| && s.rules.legal(Last(s.board))[i] == m;
    AllMovesAre(s, [], BoardVerdict(s.rules, s.Root(), back), 0);
    RunAtChild(s, [], i);
    assert [] + [i] == [i] && Last(s.RunAt([i])) == s.rules.play(Last(s.board), m);
    hide *;
    forall plies: nat | plies >= k
      ensures M.Value(s.Game(BoardVerdict(s.rules, s.Root(), back), plies), [i]) == M.Loss
    {
      AtDefender(s, plies, back, i, k, m);
    }
  }

  lemma AtDefender(s: Start, plies: nat, back: nat, i: nat, k: nat, m: Move)
    requires Covered(s, back) && plies >= k && s.RunAt([i]) == s.board + [s.rules.play(Last(s.board), m)]
    requires s.rules.inCheck(Last(s.RunAt([i]))) && Wins(s.rules, s.cap, s.Root(), s.RunAt([i]), false, k)
    ensures M.Value(s.Game(BoardVerdict(s.rules, s.Root(), back), plies), [i]) == M.Loss
  {
    hide Wins, M.Value, Covered, BoardVerdict;
    WinIsReal(s, plies, back, [i], k);
  }
}
