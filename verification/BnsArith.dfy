/** Branch-number and proof-number arithmetic: the one-pass summary of a node's children
    and the thresholds handed to the selected child. */
module BnsArith {
  import opened Arithmetic

  const K_INF: nat := 0x4000_0000

  datatype ChildView = ChildView(abn: nat, obn: nat)
  {
    /** The number that selects a child: AND-branches at attacker nodes, OR-branches at
        defender nodes. */
    function Rel(orNode: bool): nat { if orNode then abn else obn }

    function Opp(orNode: bool): nat { if orNode then obn else abn }
  }

  const MATE_VIEW := ChildView(0, K_INF)
  const NO_MATE_VIEW := ChildView(K_INF, 0)

  datatype Summary = Summary(abn: nat, obn: nat, best: int, second: nat, k: nat, proved: bool, disproved: bool)
  {
    predicate Terminal() { proved || disproved }

    function View(): ChildView { ChildView(abn, obn) }

    function Rel(orNode: bool): nat { if orNode then abn else obn }

    function Opp(orNode: bool): nat { if orNode then obn else abn }
  }

  // ----- what a summary is -----

  ghost predicate IsActive(orNode: bool, c: seq<ChildView>, i: nat) {
    i < |c| && c[i].Rel(orNode) < K_INF
  }

  ghost function ActiveCount(orNode: bool, c: seq<ChildView>): (n: nat)
    ensures n <= |c|
  {
    if c == [] then 0
    else ActiveCount(orNode, c[..|c| - 1]) + if c[|c| - 1].Rel(orNode) < K_INF then 1 else 0
  }

  ghost function OppSum(orNode: bool, c: seq<ChildView>): nat {
    if c == [] then 0 else OppSum(orNode, c[..|c| - 1]) + c[|c| - 1].Opp(orNode)
  }

  /** Smaller selecting number first; the proof-number mode breaks ties by the other. */
  predicate Better(orNode: bool, pnDn: bool, a: ChildView, b: ChildView) {
    a.Rel(orNode) < b.Rel(orNode) || (pnDn && a.Rel(orNode) == b.Rel(orNode) && a.Opp(orNode) < b.Opp(orNode))
  }

  /** The first among the active children that no other active child beats. */
  ghost predicate IsBestChild(orNode: bool, pnDn: bool, c: seq<ChildView>, best: nat) {
    && IsActive(orNode, c, best)
    && (forall i: nat | IsActive(orNode, c, i) :: !Better(orNode, pnDn, c[i], c[best]))
    && (forall i: nat | i < best && IsActive(orNode, c, i) :: Better(orNode, pnDn, c[best], c[i]))
  }

  /** The second-smallest selecting number, counted with multiplicity. */
  ghost predicate IsSecond(orNode: bool, c: seq<ChildView>, best: nat, second: nat) {
    && second <= K_INF
    && (forall i: nat | IsActive(orNode, c, i) && i != best :: second <= c[i].Rel(orNode))
    && (second == K_INF || exists i: nat :: IsActive(orNode, c, i) && i != best && c[i].Rel(orNode) == second)
  }

  /** A child that settles the node at once: a mated one for the attacker, an escape for
      the defender. */
  ghost predicate IsDecisive(orNode: bool, c: seq<ChildView>, i: nat) {
    i < |c| && c[i].Rel(orNode) == 0
  }

  ghost predicate IsExhausted(orNode: bool, pnDn: bool, c: seq<ChildView>) {
    if pnDn then forall i: nat | i < |c| :: c[i].Opp(orNode) == 0
    else forall i: nat :: !IsActive(orNode, c, i)
  }

  ghost predicate IsSummary(orNode: bool, pnDn: bool, c: seq<ChildView>, s: Summary) {
    if exists i: nat :: IsDecisive(orNode, c, i) then
      && s.proved == orNode && s.disproved == !orNode
      && s.best >= 0 && IsDecisive(orNode, c, s.best) && (forall i: nat | i < s.best :: !IsDecisive(orNode, c, i))
      && s.View() == (if orNode then MATE_VIEW else NO_MATE_VIEW)
    else if IsExhausted(orNode, pnDn, c) then
      && s.proved == !orNode && s.disproved == orNode && s.best == -1
      && s.View() == (if orNode then NO_MATE_VIEW else MATE_VIEW)
    else
      && !s.Terminal() && s.k == ActiveCount(orNode, c)
      && (if s.best < 0 then s.Rel(orNode) == K_INF && forall i: nat :: !IsActive(orNode, c, i)
          else IsBestChild(orNode, pnDn, c, s.best) && IsSecond(orNode, c, s.best, s.second) && s.Rel(orNode) == c[s.best].Rel(orNode))
      && (pnDn ==> s.Opp(orNode) == Min(K_INF, OppSum(orNode, c)))
      && (!pnDn ==> s.best >= 0 && s.k >= 1 && s.Opp(orNode) == SatAdd(c[s.best].Opp(orNode), s.k - 1, K_INF))
  }

  // ----- the one-pass computation -----

  /** The running state after a prefix without a decisive child. */
  ghost predicate ScannedSoFar(orNode: bool, pnDn: bool, c: seq<ChildView>, best: int, bestRel: nat, bestOpp: nat,
                               second: nat, k: nat, oppSum: nat)
  {
    && (forall i: nat :: !IsDecisive(orNode, c, i))
    && k == ActiveCount(orNode, c) && (pnDn ==> oppSum == OppSum(orNode, c))
    && if best < 0 then bestRel == K_INF && bestOpp == K_INF && second == K_INF && forall i: nat :: !IsActive(orNode, c, i)
       else IsBestChild(orNode, pnDn, c, best) && IsSecond(orNode, c, best, second)
            && bestRel == c[best].Rel(orNode) && bestOpp == c[best].Opp(orNode)
  }

  lemma PrefixActive(orNode: bool, c: seq<ChildView>, v: ChildView)
    ensures forall i: nat :: IsActive(orNode, c + [v], i) <==>
                             IsActive(orNode, c, i) || (i == |c| && v.Rel(orNode) < K_INF)
    ensures forall i: nat :: IsDecisive(orNode, c + [v], i) <==> IsDecisive(orNode, c, i) || (i == |c| && v.Rel(orNode) == 0)
    ensures ActiveCount(orNode, c + [v]) == ActiveCount(orNode, c) + if v.Rel(orNode) < K_INF then 1 else 0
    ensures OppSum(orNode, c + [v]) == OppSum(orNode, c) + v.Opp(orNode)
  {
    assert (c + [v])[..|c|] == c;
  }

  lemma ScanStep(orNode: bool, pnDn: bool, c: seq<ChildView>, v: ChildView, best: int, bestRel: nat, bestOpp: nat,
                 second: nat, k: nat, oppSum: nat)
    requires ScannedSoFar(orNode, pnDn, c, best, bestRel, bestOpp, second, k, oppSum) && v.Rel(orNode) != 0
    ensures var rel, opp := v.Rel(orNode), v.Opp(orNode);
            var oppSum' := if pnDn then oppSum + opp else oppSum;
            if rel >= K_INF then ScannedSoFar(orNode, pnDn, c + [v], best, bestRel, bestOpp, second, k, oppSum')
            else if rel < bestRel || (pnDn && rel == bestRel && opp < bestOpp) then
              ScannedSoFar(orNode, pnDn, c + [v], |c|, rel, opp, bestRel, k + 1, oppSum')
            else if rel < second then ScannedSoFar(orNode, pnDn, c + [v], best, bestRel, bestOpp, rel, k + 1, oppSum')
            else ScannedSoFar(orNode, pnDn, c + [v], best, bestRel, bestOpp, second, k + 1, oppSum')
  {
    hide ActiveCount, OppSum;
    PrefixActive(orNode, c, v);
    assert forall i: nat | i < |c| :: (c + [v])[i] == c[i];
    assert v.Rel(orNode) < K_INF ==> IsActive(orNode, c + [v], |c|);
    assert best >= 0 ==> IsActive(orNode, c + [v], best);
    if best >= 0 && second != K_INF {
      var i: nat :| IsActive(orNode, c, i) && i != best && c[i].Rel(orNode) == second;
      assert IsActive(orNode, c + [v], i);
    }
  }

  lemma NothingScanned(orNode: bool, pnDn: bool)
    ensures ScannedSoFar(orNode, pnDn, [], -1, K_INF, K_INF, K_INF, 0, 0)
  {
  }

  /** One pass over the children. */
  method Summarize(orNode: bool, pnDn: bool, c: seq<ChildView>) returns (s: Summary)
    ensures IsSummary(orNode, pnDn, c, s)
  {
    hide ScannedSoFar, IsSummary;
    s := Summary(1, 1, -1, K_INF, 0, false, false);
    var bestRel: nat, bestOpp: nat, second: nat, k: nat, oppSum: nat := K_INF, K_INF, K_INF, 0, 0;
    var best: int := -1;
    var i: nat := 0;
    NothingScanned(orNode, pnDn);
    assert c[..0] == [];
    while i < |c|
      invariant i <= |c|
      invariant ScannedSoFar(orNode, pnDn, c[..i], best, bestRel, bestOpp, second, k, oppSum)
    {
      var rel, opp := c[i].Rel(orNode), c[i].Opp(orNode);
      if rel == 0 {
        var view := if orNode then MATE_VIEW else NO_MATE_VIEW;
        s := s.(abn := view.abn, obn := view.obn, best := i, proved := orNode, disproved := !orNode);
        DecisiveSummary(orNode, pnDn, c, i, best, bestRel, bestOpp, second, k, oppSum, s);
        return;
      }
      ScanStep(orNode, pnDn, c[..i], c[i], best, bestRel, bestOpp, second, k, oppSum);
      assert c[..i] + [c[i]] == c[..i + 1];
      if pnDn {
        oppSum := oppSum + opp;
      }
      if rel < K_INF {
        k := k + 1;
        if rel < bestRel || (pnDn && rel == bestRel && opp < bestOpp) {
          second := bestRel;
          bestRel := rel;
          bestOpp := opp;
          best := i;
        } else if rel < second {
          second := rel;
        }
      }
      i := i + 1;
    }
    assert c[..i] == c;
    var exhausted := if pnDn then oppSum == 0 else k == 0;
    if exhausted {
      var view := if orNode then NO_MATE_VIEW else MATE_VIEW;
      s := s.(abn := view.abn, obn := view.obn, proved := !orNode, disproved := orNode);
    } else {
      var nodeOpp := if pnDn then (if oppSum >= K_INF then K_INF else oppSum) else SatAdd(bestOpp, k - 1, K_INF);
      s := Summary(if orNode then bestRel else nodeOpp, if orNode then nodeOpp else bestRel, best, second, k, false, false);
    }
    FinalSummary(orNode, pnDn, c, best, bestRel, bestOpp, second, k, oppSum, s);
  }

  lemma DecisiveSummary(orNode: bool, pnDn: bool, c: seq<ChildView>, i: nat, best: int, bestRel: nat, bestOpp: nat,
                        second: nat, k: nat, oppSum: nat, s: Summary)
    requires i < |c| && ScannedSoFar(orNode, pnDn, c[..i], best, bestRel, bestOpp, second, k, oppSum)
    requires c[i].Rel(orNode) == 0 && s.best == i && s.proved == orNode && s.disproved == !orNode
    requires s.View() == if orNode then MATE_VIEW else NO_MATE_VIEW
    ensures IsSummary(orNode, pnDn, c, s)
  {
    assert IsDecisive(orNode, c, i);
    forall j: nat | j < i
      ensures !IsDecisive(orNode, c, j)
    {
      assert !IsDecisive(orNode, c[..i], j);
    }
  }

  lemma {:induction false} SumIsZero(orNode: bool, c: seq<ChildView>)
    ensures OppSum(orNode, c) == 0 <==> forall i: nat | i < |c| :: c[i].Opp(orNode) == 0
  {
    if c != [] {
      SumIsZero(orNode, c[..|c| - 1]);
      assert forall i: nat | i < |c| - 1 :: c[i] == c[..|c| - 1][i];
    }
  }

  lemma {:induction false} CountIsZero(orNode: bool, c: seq<ChildView>)
    ensures ActiveCount(orNode, c) == 0 <==> forall i: nat :: !IsActive(orNode, c, i)
  {
    if c != [] {
      var t := c[..|c| - 1];
      CountIsZero(orNode, t);
      assert c == t + [c[|c| - 1]];
      PrefixActive(orNode, t, c[|c| - 1]);
      assert IsActive(orNode, c, |c| - 1) <==> c[|c| - 1].Rel(orNode) < K_INF;
    }
  }

  lemma FinalSummary(orNode: bool, pnDn: bool, c: seq<ChildView>, best: int, bestRel: nat, bestOpp: nat,
                     second: nat, k: nat, oppSum: nat, s: Summary)
    requires ScannedSoFar(orNode, pnDn, c, best, bestRel, bestOpp, second, k, oppSum)
    requires var exhausted := if pnDn then oppSum == 0 else k == 0;
             if exhausted then
               s.best == -1 && s.proved == !orNode && s.disproved == orNode
               && s.View() == (if orNode then NO_MATE_VIEW else MATE_VIEW)
             else
               var nodeOpp := if pnDn then (if oppSum >= K_INF then K_INF else oppSum) else SatAdd(bestOpp, k - 1, K_INF);
               s == Summary(if orNode then bestRel else nodeOpp, if orNode then nodeOpp else bestRel, best, second, k, false, false)
    ensures IsSummary(orNode, pnDn, c, s)
  {
    hide IsBestChild, IsSecond, ActiveCount, OppSum;
    SumIsZero(orNode, c);
    CountIsZero(orNode, c);
  }

  // ----- thresholds of the selected child -----

  /** Unsigned 32-bit subtraction, wrapping below zero. */
  function Sub32(a: nat, b: nat): nat
    requires a < 0x1_0000_0000 && b < 0x1_0000_0000
  {
    if a >= b then a - b else a + 0x1_0000_0000 - b
  }

  /** A pair of limits: the search of a node goes on while both of its numbers stay
      strictly below. */
  datatype Thresholds = Thresholds(abn: nat, obn: nat)
  {
    function Rel(orNode: bool): nat { if orNode then abn else obn }

    function Opp(orNode: bool): nat { if orNode then obn else abn }

    predicate Allow(v: ChildView) { v.abn < abn && v.obn < obn }

    /** The limits the search hands around never exceed infinity. */
    predicate Bounded() { abn <= K_INF && obn <= K_INF }
  }

  function ChildThresholds(orNode: bool, s: Summary, best: ChildView, th: Thresholds): Thresholds
    requires s.abn <= K_INF && s.obn <= K_INF && best.abn <= K_INF && best.obn <= K_INF && th.Bounded()
  {
    var rel := if th.Rel(orNode) < SatAdd(s.second, 1, K_INF) then th.Rel(orNode) else SatAdd(s.second, 1, K_INF);
    var opp := if th.Opp(orNode) >= K_INF then K_INF
               else Sub32(th.Opp(orNode), Sub32(s.Opp(orNode), best.Opp(orNode)));
    if orNode then Thresholds(rel, opp) else Thresholds(opp, rel)
  }

  /** Numbers of entries and views never exceed infinity. */
  predicate Saturated(c: seq<ChildView>) {
    forall i: nat | i < |c| :: c[i].abn <= K_INF && c[i].obn <= K_INF
  }

  lemma {:induction false} MemberOfSum(orNode: bool, c: seq<ChildView>, i: nat)
    requires i < |c|
    ensures c[i].Opp(orNode) <= OppSum(orNode, c)
  {
    if i < |c| - 1 {
      MemberOfSum(orNode, c[..|c| - 1], i);
    }
  }

  lemma {:induction false} ReplaceInSum(orNode: bool, c: seq<ChildView>, i: nat, v: ChildView)
    requires i < |c|
    ensures OppSum(orNode, c[i := v]) == OppSum(orNode, c) - c[i].Opp(orNode) + v.Opp(orNode)
  {
    var t := c[..|c| - 1];
    if i < |c| - 1 {
      ReplaceInSum(orNode, t, i, v);
      assert c[i := v][..|c| - 1] == t[i := v];
    } else {
      assert c[i := v][..|c| - 1] == t;
    }
  }

  lemma {:induction false} ReplaceInCount(orNode: bool, c: seq<ChildView>, i: nat, v: ChildView)
    requires i < |c| && c[i].Rel(orNode) < K_INF && v.Rel(orNode) < K_INF
    ensures ActiveCount(orNode, c[i := v]) == ActiveCount(orNode, c)
  {
    var t := c[..|c| - 1];
    if i < |c| - 1 {
      ReplaceInCount(orNode, t, i, v);
      assert c[i := v][..|c| - 1] == t[i := v];
    } else {
      assert c[i := v][..|c| - 1] == t;
    }
  }

  /** A node strictly below its limits always has a child to descend into. */
  lemma {:induction false} BelowLimitsSelects(orNode: bool, pnDn: bool, c: seq<ChildView>, s: Summary, th: Thresholds)
    requires IsSummary(orNode, pnDn, c, s) && !s.Terminal() && th.Bounded() && th.Allow(s.View())
    ensures 0 <= s.best < |c| && IsBestChild(orNode, pnDn, c, s.best) && c[s.best].Rel(orNode) > 0
    ensures s.Rel(orNode) == c[s.best].Rel(orNode) && IsSecond(orNode, c, s.best, s.second)
    ensures s.Rel(orNode) < K_INF && s.Opp(orNode) < K_INF && s.k == ActiveCount(orNode, c)
    ensures s.Opp(orNode) == if pnDn then OppSum(orNode, c) else c[s.best].Opp(orNode) + s.k - 1
    ensures pnDn || s.k >= 1
  {
    hide ActiveCount, OppSum;
    assert !IsDecisive(orNode, c, s.best);
  }

  /** The selected child is searched with limits strictly above its own numbers, and the
      subtraction that makes room for the siblings never wraps. */
  lemma {:induction false} ThresholdsExceedTheChild(orNode: bool, pnDn: bool, c: seq<ChildView>, s: Summary, th: Thresholds)
    requires IsSummary(orNode, pnDn, c, s) && !s.Terminal() && Saturated(c) && th.Bounded() && th.Allow(s.View())
    ensures 0 <= s.best < |c| && s.abn <= K_INF && s.obn <= K_INF
    ensures var child := c[s.best];
            && child.Opp(orNode) <= s.Opp(orNode)
            && s.Opp(orNode) - child.Opp(orNode) < th.Opp(orNode)
            && ChildThresholds(orNode, s, child, th).Allow(child)
            && ChildThresholds(orNode, s, child, th).Bounded()
  {
    BelowLimitsSelects(orNode, pnDn, c, s, th);
    MemberOfSum(orNode, c, s.best);
    SecondIsNoSmaller(orNode, pnDn, c, s.best, s.second);
    hide ActiveCount, OppSum, IsBestChild, IsSecond, IsSummary;
  }

  lemma SecondIsNoSmaller(orNode: bool, pnDn: bool, c: seq<ChildView>, best: nat, second: nat)
    requires IsBestChild(orNode, pnDn, c, best) && IsSecond(orNode, c, best, second)
    ensures c[best].Rel(orNode) <= second
  {
  }

  /** The same children seen again after the selected one alone has changed. */
  ghost predicate OnlyBestChanged(c: seq<ChildView>, c': seq<ChildView>, best: int) {
    0 <= best < |c| && |c'| == |c| && c' == c[best := c'[best]]
  }

  /** Once the selected child has come back at or above either of its limits, the node
      itself is settled, or has reached one of its own limits, or prefers another child. */
  lemma {:induction false} ReturningChildDecides(orNode: bool, pnDn: bool, c: seq<ChildView>, s: Summary, c': seq<ChildView>, s': Summary,
                              th: Thresholds)
    requires IsSummary(orNode, pnDn, c, s) && !s.Terminal() && Saturated(c) && th.Bounded() && th.Allow(s.View())
    requires OnlyBestChanged(c, c', s.best) && IsSummary(orNode, pnDn, c', s')
    requires c[s.best].abn <= K_INF && c[s.best].obn <= K_INF && s.abn <= K_INF && s.obn <= K_INF
    requires !ChildThresholds(orNode, s, c[s.best], th).Allow(c'[s.best])
    ensures s'.Terminal() || !th.Allow(s'.View()) || s'.best != s.best
  {
    if !s'.Terminal() && th.Allow(s'.View()) && s'.best == s.best {
      StillSelected(orNode, pnDn, c, s, c', s', th);
      hide IsSummary, IsBestChild, IsSecond;
      assert false;
    }
  }

  /** While the child stays selected, it is below its limits exactly when the node is
      below its own: nothing is searched too long, and nothing is cut short. */
  lemma {:induction false} StillSelected(orNode: bool, pnDn: bool, c: seq<ChildView>, s: Summary, c': seq<ChildView>, s': Summary,
                      th: Thresholds)
    requires IsSummary(orNode, pnDn, c, s) && !s.Terminal() && Saturated(c) && th.Bounded() && th.Allow(s.View())
    requires OnlyBestChanged(c, c', s.best) && IsSummary(orNode, pnDn, c', s') && !s'.Terminal() && s'.best == s.best
    requires c[s.best].abn <= K_INF && c[s.best].obn <= K_INF && s.abn <= K_INF && s.obn <= K_INF
    ensures th.Allow(s'.View()) ==> ChildThresholds(orNode, s, c[s.best], th).Allow(c'[s.best])
    ensures th.Opp(orNode) < K_INF && ChildThresholds(orNode, s, c[s.best], th).Allow(c'[s.best]) ==> th.Allow(s'.View())
  {
    hide IsBestChild, IsSecond, ActiveCount, OppSum;
    BelowLimitsSelects(orNode, pnDn, c, s, th);
    ThresholdsExceedTheChild(orNode, pnDn, c, s, th);
    ReplaceInSum(orNode, c, s.best, c'[s.best]);
    SelectedNumbers(orNode, pnDn, c', s');
    ReplaceInCount(orNode, c, s.best, c'[s.best]);
    SecondIsStable(orNode, pnDn, c, s.best, s.second, c');
    hide IsSummary;
  }

  lemma SelectedNumbers(orNode: bool, pnDn: bool, c: seq<ChildView>, s: Summary)
    requires IsSummary(orNode, pnDn, c, s) && !s.Terminal() && s.best >= 0
    ensures IsBestChild(orNode, pnDn, c, s.best) && s.Rel(orNode) == c[s.best].Rel(orNode) && s.Rel(orNode) < K_INF
    ensures s.Opp(orNode) == if pnDn then Min(K_INF, OppSum(orNode, c)) else SatAdd(c[s.best].Opp(orNode), ActiveCount(orNode, c) - 1, K_INF)
    ensures pnDn || ActiveCount(orNode, c) >= 1
  {
    hide ActiveCount, OppSum;
  }

  /** A child that stays selected has not grown past the second-smallest number. */
  lemma SecondIsStable(orNode: bool, pnDn: bool, c: seq<ChildView>, best: nat, second: nat, c': seq<ChildView>)
    requires IsBestChild(orNode, pnDn, c, best) && IsSecond(orNode, c, best, second)
    requires OnlyBestChanged(c, c', best) && IsBestChild(orNode, pnDn, c', best)
    ensures c'[best].Rel(orNode) <= second
  {
    if second < K_INF {
      var i: nat :| IsActive(orNode, c, i) && i != best && c[i].Rel(orNode) == second;
      assert IsActive(orNode, c', i);
    }
  }

  // ----- where branch numbers can mislead -----

  /** A child whose selecting number has saturated although nothing is settled. */
  predicate SaturatedOpen(orNode: bool, v: ChildView) {
    v.Rel(orNode) >= K_INF && v.Opp(orNode) != 0
  }

  /** With branch numbers an exhausted verdict is backed by every child exactly when no
      saturated child was skipped as inactive; proof numbers always are. */
  lemma {:induction false} ExhaustedVerdictIsBacked(orNode: bool, pnDn: bool, c: seq<ChildView>, s: Summary)
    requires IsSummary(orNode, pnDn, c, s) && s.Terminal() && s.best < 0
    ensures (forall i: nat | i < |c| :: c[i].Opp(orNode) == 0) <==>
            (pnDn || forall i: nat | i < |c| :: !SaturatedOpen(orNode, c[i]))
  {
    assert !exists i: nat :: IsDecisive(orNode, c, i);
    assert IsExhausted(orNode, pnDn, c);
    if !pnDn {
      forall i: nat | i < |c|
        ensures c[i].Rel(orNode) >= K_INF
      {
        assert !IsActive(orNode, c, i);
      }
    }
  }

  /** One saturated child is enough: the attacker's node is called a no-mate although its
      only child is still open. */
  lemma {:induction false} SaturationForgesAVerdict(s: Summary)
    requires IsSummary(true, false, [ChildView(K_INF, 1)], s)
    ensures s.disproved && s.View() == NO_MATE_VIEW
  {
    var c := [ChildView(K_INF, 1)];
    assert forall i: nat :: !IsDecisive(true, c, i);
    assert IsExhausted(true, false, c);
  }

  /** Branch numbers grow by at most one less than the number of children per level, so
      within a depth limit they stay far from saturation. */
  lemma {:induction false} BranchNumbersGrowSlowly(orNode: bool, c: seq<ChildView>, s: Summary, bound: nat)
    requires IsSummary(orNode, false, c, s) && !s.Terminal()
    requires forall i: nat | i < |c| && c[i].abn != 0 && c[i].obn != 0 :: c[i].abn <= bound && c[i].obn <= bound
    requires forall i: nat | i < |c| && (c[i].abn == 0 || c[i].obn == 0) :: c[i] == MATE_VIEW || c[i] == NO_MATE_VIEW
    ensures 1 <= s.abn <= bound + |c| - 1 && 1 <= s.obn <= bound + |c| - 1
  {
    hide ActiveCount, OppSum;
    assert IsBestChild(orNode, false, c, s.best);
    assert !IsDecisive(orNode, c, s.best);
  }
}
