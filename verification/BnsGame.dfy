/** What the branch-number solver's table may say: the mate game without repetitions, and
    the truth of an entry about the position and ply it is keyed by. */
module BnsGame {
  import opened MateGame
  import opened BnsArith
  import opened BnsTable

  const MAX_LEGAL_MOVES: nat := 593

  /** The attacker, or the defender when `attacker` is false, is to move at `p` and the
      attacker mates within `k` plies by giving check on every move. */
  ghost predicate MatesWithin(rules: Rules, p: Pos, attacker: bool, k: nat)
    decreases k
  {
    if attacker then k > 0 && exists m :: m in Checks(rules, p) && MatesAfter(rules, p, m, false, k - 1)
    else rules.legal(p) == [] || (k > 0 && forall m | m in rules.legal(p) :: MatesAfter(rules, p, m, true, k - 1))
  }

  ghost predicate MatesAfter(rules: Rules, p: Pos, m: Move, attacker: bool, k: nat)
    decreases k + 1, 0
  {
    MatesWithin(rules, rules.play(p, m), attacker, k)
  }

  ghost predicate Mate(rules: Rules, p: Pos, attacker: bool) {
    exists k: nat :: MatesWithin(rules, p, attacker, k)
  }

  /** The moves the solver considers: the attacker's checks, all moves of the defender. */
  function Considered(rules: Rules, p: Pos, orNode: bool): seq<Move> {
    if orNode then Checks(rules, p) else rules.legal(p)
  }

  lemma {:induction false} MatesMonotone(rules: Rules, p: Pos, attacker: bool, k: nat, k': nat)
    requires k <= k' && MatesWithin(rules, p, attacker, k)
    ensures MatesWithin(rules, p, attacker, k')
    decreases k
  {
    if k > 0 {
      var moves := Considered(rules, p, attacker);
      forall m | m in moves && MatesAfter(rules, p, m, !attacker, k - 1)
        ensures MatesAfter(rules, p, m, !attacker, k' - 1)
      {
        MatesMonotone(rules, rules.play(p, m), !attacker, k - 1, k' - 1);
      }
    }
  }

  lemma {:induction false} AttackerMates(rules: Rules, p: Pos)
    ensures Mate(rules, p, true) <==> exists m :: m in Checks(rules, p) && Mate(rules, rules.play(p, m), false)
  {
    if m :| m in Checks(rules, p) && Mate(rules, rules.play(p, m), false) {
      var k: nat :| MatesWithin(rules, rules.play(p, m), false, k);
      assert MatesAfter(rules, p, m, false, k);
      assert MatesWithin(rules, p, true, k + 1);
    }
    if k: nat :| MatesWithin(rules, p, true, k) {
      var m :| m in Checks(rules, p) && MatesAfter(rules, p, m, false, k - 1);
      assert MatesWithin(rules, rules.play(p, m), false, k - 1);
      assert Mate(rules, rules.play(p, m), false);
    }
  }

  lemma {:induction false} CommonDepth(rules: Rules, p: Pos, moves: seq<Move>) returns (k: nat)
    requires forall m | m in moves :: Mate(rules, rules.play(p, m), true)
    ensures forall m | m in moves :: MatesAfter(rules, p, m, true, k)
  {
    if moves == [] {
      k := 0;
    } else {
      var m0 := moves[|moves| - 1];
      assert m0 in moves;
      assert moves == moves[..|moves| - 1] + [m0];
      var k1 := CommonDepth(rules, p, moves[..|moves| - 1]);
      var k0: nat :| MatesWithin(rules, rules.play(p, m0), true, k0);
      k := if k0 < k1 then k1 else k0;
      forall m | m in moves
        ensures MatesAfter(rules, p, m, true, k)
      {
        MatesMonotone(rules, rules.play(p, m), true, if m == m0 then k0 else k1, k);
      }
    }
  }

  lemma DefenderIsMated(rules: Rules, p: Pos)
    ensures Mate(rules, p, false) <==> forall m | m in rules.legal(p) :: Mate(rules, rules.play(p, m), true)
  {
    if forall m | m in rules.legal(p) :: Mate(rules, rules.play(p, m), true) {
      var k := CommonDepth(rules, p, rules.legal(p));
      assert MatesWithin(rules, p, false, k + 1);
    }
    if k: nat :| MatesWithin(rules, p, false, k) {
      forall m | m in rules.legal(p)
        ensures Mate(rules, rules.play(p, m), true)
      {
        assert MatesAfter(rules, p, m, true, k - 1);
        assert MatesWithin(rules, rules.play(p, m), true, k - 1);
      }
    }
  }

  // ----- the setting of a search -----

  /** The rules, the positions that can come up, the arithmetic and the depth limit. */
  datatype Setting = Setting(rules: Rules, universe: set<Pos>, pnDn: bool, maxPly: nat)

  ghost predicate Closed(g: Setting) {
    forall p: Pos, m: Move | p in g.universe && m in g.rules.legal(p) :: g.rules.play(p, m) in g.universe
  }

  /** No two keys of the search share their upper 48 bits. */
  ghost predicate ExactKeys(g: Setting) {
    forall p: Pos, q: Pos, i: nat, j: nat
      | p in g.universe && q in g.universe && i <= g.maxPly + 1 && j <= g.maxPly + 1
        && Mix(p, i) / GENERATIONS == Mix(q, j) / GENERATIONS :: p == q && i == j
  }

  ghost predicate ListsFit(g: Setting) {
    forall p: Pos | p in g.universe :: |g.rules.legal(p)| <= MAX_LEGAL_MOVES
  }

  /** The largest number an unresolved entry can carry: branch numbers are bounded by the
      plies left, proof numbers only by saturation. */
  function Limit(g: Setting, ply: nat): nat
    requires ply <= g.maxPly + 1
  {
    if g.pnDn then K_INF else 1 + (MAX_LEGAL_MOVES - 1) * (g.maxPly + 1 - ply)
  }

  ghost predicate ValidSetting(g: Setting) {
    && SoundMateInOne(g.rules) && Closed(g) && ExactKeys(g) && ListsFit(g)
    && (g.pnDn || Limit(g, 0) < K_INF)
  }

  /** At even plies the attacker is to move. */
  predicate OrPly(ply: nat) { ply % 2 == 0 }

  /** What a pair of numbers claims about a position at a ply is true. */
  ghost predicate TrueView(g: Setting, p: Pos, ply: nat, v: ChildView)
    requires ply <= g.maxPly + 1
  {
    || (v == MATE_VIEW && Mate(g.rules, p, OrPly(ply)))
    || (v == NO_MATE_VIEW && !Mate(g.rules, p, OrPly(ply)))
    || (1 <= v.abn <= Limit(g, ply) && 1 <= v.obn <= Limit(g, ply))
  }

  function View(e: BnsTTEntry): ChildView { ChildView(e.abn, e.obn) }

  /** Every live entry tells the truth about its own key. */
  ghost predicate TrueTable(g: Setting, slots: seq<BnsTTEntry>, gen: nat) {
    forall i: nat, p: Pos, ply: nat
      | Live(slots, gen, i) && p in g.universe && ply <= g.maxPly + 1 && slots[i].tag == TagOf(Mix(p, ply), gen) ::
      TrueView(g, p, ply, View(slots[i]))
  }

  lemma SameTagSameKey(g: Setting, p: Pos, ply: nat, q: Pos, ply': nat, gen: nat)
    requires ExactKeys(g) && p in g.universe && q in g.universe
    requires ply <= g.maxPly + 1 && ply' <= g.maxPly + 1
    requires TagOf(Mix(p, ply), gen) == TagOf(Mix(q, ply'), gen)
    ensures p == q && ply == ply'
  {
    hide Mix;
  }

  /** A true entry may be written for any key: nothing else changes its meaning. */
  lemma {:induction false} WriteKeepsTruth(g: Setting, slots: seq<BnsTTEntry>, gen: nat, i: nat, e: BnsTTEntry, p: Pos, ply: nat)
    requires ExactKeys(g) && TrueTable(g, slots, gen) && i < |slots|
    requires p in g.universe && ply <= g.maxPly + 1 && e.tag == TagOf(Mix(p, ply), gen)
    requires TrueView(g, p, ply, View(e))
    ensures TrueTable(g, slots[i := e], gen)
  {
    hide ExactKeys, TrueView, TagOf, Mix, GenerationOf;
    var slots' := slots[i := e];
    forall j: nat, q: Pos, ply': nat
      | Live(slots', gen, j) && q in g.universe && ply' <= g.maxPly + 1 && slots'[j].tag == TagOf(Mix(q, ply'), gen)
      ensures TrueView(g, q, ply', View(slots'[j]))
    {
      if j == i {
        SameTagSameKey(g, p, ply, q, ply', gen);
      } else {
        assert Live(slots, gen, j);
      }
    }
  }

  lemma NothingLiveIsTrue(g: Setting, slots: seq<BnsTTEntry>, gen: nat)
    requires forall i: nat :: !Live(slots, gen, i)
    ensures TrueTable(g, slots, gen)
  {
  }

  lemma FoundIsTrue(g: Setting, slots: seq<BnsTTEntry>, gen: nat, i: nat, p: Pos, ply: nat)
    requires TrueTable(g, slots, gen) && Live(slots, gen, i) && p in g.universe && ply <= g.maxPly + 1
    requires slots[i].tag == TagOf(Mix(p, ply), gen)
    ensures TrueView(g, p, ply, View(slots[i]))
  {
  }

  // ----- one summary -----

  ghost predicate TrueViews(g: Setting, p: Pos, ply: nat, views: seq<ChildView>)
    requires ply <= g.maxPly
  {
    var moves := Considered(g.rules, p, OrPly(ply));
    && |views| == |moves|
    && forall i: nat | i < |views| :: TrueView(g, g.rules.play(p, moves[i]), ply + 1, views[i])
  }

  lemma ChecksAreLegal(rules: Rules, p: Pos)
    ensures |Checks(rules, p)| <= |rules.legal(p)|
    ensures forall m :: m in Checks(rules, p) <==> m in rules.legal(p) && rules.inCheck(rules.play(p, m))
  {
    FilterGivesChecks(rules, p, rules.legal(p));
    FilterIsShorter(rules, p, rules.legal(p));
  }

  lemma {:induction false} FilterIsShorter(rules: Rules, p: Pos, moves: seq<Move>)
    ensures |Filter(rules, p, moves)| <= |moves|
  {
    if moves != [] {
      FilterIsShorter(rules, p, moves[..|moves| - 1]);
    }
  }

  lemma ViewsAreSaturated(g: Setting, p: Pos, ply: nat, views: seq<ChildView>)
    requires ValidSetting(g) && ply <= g.maxPly && TrueViews(g, p, ply, views)
    ensures Saturated(views)
  {
    hide Mate, Considered, Closed, ExactKeys, ListsFit, SoundMateInOne;
    var moves := Considered(g.rules, p, OrPly(ply));
    forall i: nat | i < |views|
      ensures views[i].abn <= K_INF && views[i].obn <= K_INF
    {
      assert TrueView(g, g.rules.play(p, moves[i]), ply + 1, views[i]);
    }
  }

  /** A decisive child settles the node rightly. */
  lemma DecisiveIsTrue(g: Setting, p: Pos, ply: nat, views: seq<ChildView>, i: nat)
    requires ply <= g.maxPly && TrueViews(g, p, ply, views) && IsDecisive(OrPly(ply), views, i)
    ensures Mate(g.rules, p, OrPly(ply)) <==> OrPly(ply)
  {
    var moves := Considered(g.rules, p, OrPly(ply));
    var m := moves[i];
    assert TrueView(g, g.rules.play(p, m), ply + 1, views[i]);
    assert OrPly(ply + 1) == !OrPly(ply);
    hide Mate;
    if OrPly(ply) {
      AttackerMates(g.rules, p);
      assert m in Checks(g.rules, p);
    } else {
      DefenderIsMated(g.rules, p);
    }
  }

  /** Exhausted children settle the node rightly, in branch-number mode because numbers
      within the depth limit do not saturate. */
  lemma ExhaustedIsTrue(g: Setting, p: Pos, ply: nat, views: seq<ChildView>)
    requires ValidSetting(g) && ply <= g.maxPly && TrueViews(g, p, ply, views)
    requires IsExhausted(OrPly(ply), g.pnDn, views) && forall i: nat :: !IsDecisive(OrPly(ply), views, i)
    ensures Mate(g.rules, p, OrPly(ply)) <==> !OrPly(ply)
  {
    hide Mate, Closed, ExactKeys, ListsFit, SoundMateInOne;
    var orNode := OrPly(ply);
    var moves := Considered(g.rules, p, orNode);
    assert OrPly(ply + 1) == !OrPly(ply);
    forall i: nat | i < |moves|
      ensures Mate(g.rules, g.rules.play(p, moves[i]), !orNode) <==> !orNode
    {
      assert TrueView(g, g.rules.play(p, moves[i]), ply + 1, views[i]);
      assert !IsDecisive(orNode, views, i) && (!g.pnDn ==> !IsActive(orNode, views, i));
    }
    AttackerMates(g.rules, p);
    DefenderIsMated(g.rules, p);
  }

  lemma OpenNumbersInRange(g: Setting, p: Pos, ply: nat, views: seq<ChildView>, s: Summary)
    requires ValidSetting(g) && ply <= g.maxPly && TrueViews(g, p, ply, views) && p in g.universe
    requires IsSummary(OrPly(ply), g.pnDn, views, s) && !s.Terminal()
    ensures 1 <= s.abn <= Limit(g, ply) && 1 <= s.obn <= Limit(g, ply)
  {
    hide Mate, Considered, Closed, ExactKeys, SoundMateInOne;
    var orNode := OrPly(ply);
    var moves := Considered(g.rules, p, orNode);
    assert forall i: nat | i < |views| :: TrueView(g, g.rules.play(p, moves[i]), ply + 1, views[i]);
    if g.pnDn {
      OpenProofNumbers(orNode, views, s);
    } else {
      ConsideredFit(g, p, orNode);
      BranchNumbersGrowSlowly(orNode, views, s, Limit(g, ply + 1));
    }
  }

  lemma ConsideredFit(g: Setting, p: Pos, orNode: bool)
    requires ListsFit(g) && p in g.universe
    ensures |Considered(g.rules, p, orNode)| <= MAX_LEGAL_MOVES
  {
    ChecksAreLegal(g.rules, p);
  }

  lemma OpenProofNumbers(orNode: bool, views: seq<ChildView>, s: Summary)
    requires IsSummary(orNode, true, views, s) && !s.Terminal()
    ensures 1 <= s.abn <= K_INF && 1 <= s.obn <= K_INF
  {
    SumIsZero(orNode, views);
    hide ActiveCount, OppSum;
    if s.best >= 0 {
      assert !IsDecisive(orNode, views, s.best);
    }
  }

  /** From true views of all children, a true summary. */
  lemma {:induction false} SummaryIsTrue(g: Setting, p: Pos, ply: nat, views: seq<ChildView>, s: Summary)
    requires ValidSetting(g) && ply <= g.maxPly && TrueViews(g, p, ply, views) && p in g.universe
    requires IsSummary(OrPly(ply), g.pnDn, views, s)
    ensures TrueView(g, p, ply, s.View())
    ensures s.Terminal() <==> s.View() == MATE_VIEW || s.View() == NO_MATE_VIEW
  {
    var orNode := OrPly(ply);
    hide Mate, Considered, TrueViews, ValidSetting;
    if i: nat :| IsDecisive(orNode, views, i) {
      DecisiveIsTrue(g, p, ply, views, i);
    } else if IsExhausted(orNode, g.pnDn, views) {
      ExhaustedIsTrue(g, p, ply, views);
    } else {
      OpenNumbersInRange(g, p, ply, views, s);
    }
  }

  /** No considered move: no mate for the attacker, checkmate for the defender. */
  lemma NoMovesIsTrue(g: Setting, p: Pos, ply: nat)
    requires Considered(g.rules, p, OrPly(ply)) == [] && ply <= g.maxPly + 1
    ensures TrueView(g, p, ply, if OrPly(ply) then NO_MATE_VIEW else MATE_VIEW)
  {
    hide Mate;
    AttackerMates(g.rules, p);
    DefenderIsMated(g.rules, p);
  }

  /** A move of the mate-in-one routine mates. */
  lemma MateInOneIsTrue(rules: Rules, p: Pos)
    requires SoundMateInOne(rules) && rules.mateInOne(p) != NULL_MOVE
    ensures Mate(rules, p, true)
  {
    var m := rules.mateInOne(p);
    ChecksAreLegal(rules, p);
    AttackerMates(rules, p);
    assert MatesWithin(rules, rules.play(p, m), false, 0);
  }
}
