/** From one search to the next: the part of the tree below the position reached on the board is
    a true and balanced start for the search from there. */
module MctsReuse {
  import opened MctsGame
  import opened MctsFlags
  import C = MctsCounts

  /** The game of the search from node `n`: the same positions, with the same history behind
      them. */
  function Below(g: Game, n: Path): Game {
    Game((q: Path) => g.childNum(n + q), (q: Path) => g.inCheck(n + q), (q: Path) => g.declares(n + q),
         (q: Path) => g.repetition(n + q), (q: Path) => g.nearRepetition(n + q), (q: Path) => g.mateInOne(n + q),
         g.rootPly + |n|, g.maxMovesToDraw, g.leafDepth, g.rootDepth, (q: Path) => g.drawValue(n + q))
  }

  // ----- the two games agree below the new root -----

  /** The new root itself is no longer asked about repetition. */
  lemma VerdictBelow(g: Game, n: Path, q: Path)
    ensures q != [] ==> Adjudicated(Below(g, n), q) == Adjudicated(g, n + q)
    ensures Adjudicated(g, n + q).None? ==> Adjudicated(Below(g, n), q).None?
  {
  }

  lemma AppendBelow(n: Path, q: Path, i: nat)
    ensures n + (q + [i]) == (n + q) + [i]
  {
  }

  lemma {:induction false} OddMateBelow(g: Game, n: Path, p: Path, d: nat)
    ensures OddMate(Below(g, n), p, d) <==> OddMate(g, n + p, d)
    decreases d
  {
    var b := Below(g, n);
    if d > 1 {
      forall i: nat
        ensures CheckMates(b, p + [i], d) <==> CheckMates(g, n + p + [i], d)
      {
        CheckMatesBelow(g, n, p + [i], d);
        AppendBelow(n, p, i);
      }
      assert b.childNum(p) == g.childNum(n + p);
    }
  }

  lemma {:induction false} CheckMatesBelow(g: Game, n: Path, q: Path, d: nat)
    requires d > 1
    ensures CheckMates(Below(g, n), q, d) <==> CheckMates(g, n + q, d)
    decreases d, 0
  {
    EvenMateBelow(g, n, q, d - 1);
  }

  lemma {:induction false} EvenMateBelow(g: Game, n: Path, q: Path, d: nat)
    requires d > 0
    ensures EvenMate(Below(g, n), q, d) <==> EvenMate(g, n + q, d)
    decreases d
  {
    var b := Below(g, n);
    forall j: nat
      ensures EvasionFails(b, q + [j], d) <==> EvasionFails(g, n + q + [j], d)
    {
      EvasionFailsBelow(g, n, q + [j], d);
      AppendBelow(n, q, j);
    }
    assert b.childNum(q) == g.childNum(n + q);
  }

  lemma {:induction false} EvasionFailsBelow(g: Game, n: Path, r: Path, d: nat)
    requires d > 0
    ensures EvasionFails(Below(g, n), r, d) <==> EvasionFails(g, n + r, d)
    decreases d, 0
  {
    OddMateBelow(g, n, r, d - 1);
  }

  lemma ReportBelow(g: Game, n: Path, q: Path)
    ensures MateReported(Below(g, n), q) <==> MateReported(g, n + q)
    ensures GoesOn(g, n + q) ==> GoesOn(Below(g, n), q)
    ensures q != [] ==> (GoesOn(Below(g, n), q) <==> GoesOn(g, n + q))
  {
    OddMateBelow(g, n, q, g.leafDepth);
    VerdictBelow(g, n, q);
    hide OddMate, Adjudicated;
  }

  lemma {:induction false} ValueBelow(g: Game, n: Path, q: Path)
    requires q != []
    ensures SearchValue(Below(g, n), q) == SearchValue(g, n + q)
    decreases g.maxMovesToDraw + 1 - g.rootPly - |n| - |q|
  {
    var b := Below(g, n);
    VerdictBelow(g, n, q);
    ReportBelow(g, n, q);
    if GoesOn(b, q) {
      forall i: nat
        ensures SearchValue(b, q + [i]) == SearchValue(g, n + q + [i])
      {
        ValueBelow(g, n, q + [i]);
        AppendBelow(n, q, i);
      }
      assert b.childNum(q) == g.childNum(n + q);
    }
  }

  lemma ReachedBelow(g: Game, n: Path, q: Path)
    requires Reached(g, n + q)
    ensures Reached(Below(g, n), q)
  {
    hide GoesOn;
    var p := n + q;
    forall k: nat | k < |q|
      ensures GoesOn(Below(g, n), q[..k]) && q[k] < Below(g, n).childNum(q[..k])
    {
      assert p[..|n| + k] == n + q[..k];
      assert GoesOn(g, p[..|n| + k]) && p[|n| + k] == q[k];
      ReportBelow(g, n, q[..k]);
    }
  }

  // ----- flags -----

  /** The flags of the subtree; the new root has no edge above it. */
  function KeptFlags(flags: Path -> set<Outcome>, n: Path): Path -> set<Outcome> {
    (q: Path) => if q == [] then {} else flags(n + q)
  }

  /** Whatever an earlier search, its root guard included, has left below a later position the
      next search may start with: all of it is true of its own game. For the same position
      again this holds as long as the guard has not written. */
  lemma {:induction false} ReuseBegins(g: Game, start: State, actions: seq<Action>, s: State, n: Path, next: State)
    requires Begins(g, start) && IsRun(g, start, actions, s) && (n != [] || !s.joined)
    requires next.flags == KeptFlags(s.flags, n) && AllIdle(next) && !next.joined
    ensures Begins(Below(g, n), next)
  {
    hide IsRun, SearchValue, Reached, RootMate, TrueWorker, Below;
    RunsKeepInvariant(g, start, actions, s);
    forall q: Path, o: Outcome | o in next.flags(q)
      ensures q != [] && Reached(Below(g, n), q) && o == SearchValue(Below(g, n), q)
    {
      assert n != [] ==> |n + q| > 1;
      ValueBelow(g, n, q);
      ReachedBelow(g, n, q);
    }
  }

  // ----- counters -----

  /** The counters of the subtree. */
  function KeptTree(t: C.Tree, n: Path, playouts: seq<C.Playout>): C.Tree {
    C.Tree((q: Path) => t.nodeVisits(n + q), (q: Path) => t.nodeWin(n + q), (q: Path) => t.edgeVisits(n + q), (q: Path) => t.edgeWin(n + q),
           (q: Path) => t.endedCount(n + q), (q: Path) => t.endedWin(n + q), playouts)
  }

  lemma {:induction false} OutBelow(f: Path -> int, h: Path -> real, n: Path, q: Path, k: nat)
    ensures C.VisitsOut((r: Path) => f(n + r), q, k) == C.VisitsOut(f, n + q, k)
    ensures C.WinsOut((r: Path) => h(n + r), q, k) == C.WinsOut(h, n + q, k)
  {
    if k > 0 {
      OutBelow(f, h, n, q, k - 1);
      AppendBelow(n, q, k - 1);
    }
  }

  /** The subtree of a tree in balance is in balance once no playout is under way. */
  lemma {:induction false} ReuseConserves(g: Game, t: C.Tree, n: Path, playouts: seq<C.Playout>)
    requires C.Conserved(g, t) && C.AllResting(t) && C.AllResting(KeptTree(t, n, playouts))
    ensures C.Conserved(Below(g, n), KeptTree(t, n, playouts))
  {
    var b, u := Below(g, n), KeptTree(t, n, playouts);
    forall q: Path
      ensures C.NodeIsSum(b, u, q)
    {
      assert C.NodeIsSum(g, t, n + q);
      OutBelow(t.edgeVisits, t.edgeWin, n, q, g.childNum(n + q));
    }
    forall e: Path | e != []
      ensures C.EdgeAddsUp(u, e)
    {
      assert C.EdgeAddsUp(t, n + e);
      C.RestingSums(t, n + e);
      C.RestingSums(u, e);
    }
  }
}
