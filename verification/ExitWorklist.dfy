/** The attractor worklist of the retrograde solver: its invariant, step by step, and
    the proof that a drained queue holds exactly the min-max distances. */
module ExitWorklist {
  import opened ExitGame
  import opened ExitSolver

  /** A snapshot of the solver's arrays. `done` is the set of edges whose entry in the
      reverse graph has been looked at. */
  datatype Work = Work(dist: seq<nat>, unresolved: seq<nat>, maxChild: seq<nat>, queue: seq<nat>, ghost done: set<(nat, nat)>)
  {
    predicate Finite(n: nat) { n < |dist| && dist[n] != DISTANCE_INFINITE }
  }

  ghost predicate Shape(g: Graph, w: Work) {
    && IsUint32Graph(g) && ChildrenInRange(g) && |g| < EXIT_DISALLOWED
    && |w.dist| == |w.unresolved| == |w.maxChild| == |g|
    && (forall i: nat | i < |w.queue| :: w.queue[i] < |g|)
  }

  /** The queue lists the finite nodes once each, in nondecreasing order of distance. */
  ghost predicate QueueOrdered(g: Graph, w: Work)
    requires Shape(g, w)
  {
    && (forall n: nat | n < |g| :: w.Finite(n) <==> n in w.queue)
    && (forall i: nat, j: nat | i < j < |w.queue| ::
          w.queue[i] != w.queue[j] && w.dist[w.queue[i]] <= w.dist[w.queue[j]])
    && (forall i: nat | i < |w.queue| :: 1 <= w.dist[w.queue[i]] <= i + 1)
  }

  ghost predicate Sound(g: Graph, w: Work)
    requires Shape(g, w)
  {
    forall n: nat | n < |g| && w.Finite(n) :: Forces(g, n, w.dist[n])
  }

  /** Every distance above one is explained by a child one ply closer. */
  ghost predicate Explained(g: Graph, w: Work, n: nat)
    requires Shape(g, w) && n < |g|
  {
    || w.dist[n] == 1
    || exists e: nat :: IsInternalEdge(g, n, e) && w.Finite(g[n].children[e]) && w.dist[g[n].children[e]] + 1 == w.dist[n]
  }

  ghost predicate Tight(g: Graph, w: Work)
    requires Shape(g, w)
  {
    forall n: nat | n < |g| && w.Finite(n) :: Explained(g, w, n)
  }

  /** What has been recorded about an edge that was looked at. */
  ghost predicate Recorded(g: Graph, w: Work, p: nat, e: nat)
    requires Shape(g, w) && IsInternalEdge(g, p, e)
  {
    var c := g[p].children[e];
    && w.Finite(c)
    && (g[p].gote ==> w.Finite(p) && w.dist[p] <= w.dist[c] + 1)
    && (!g[p].gote && !w.Finite(p) ==> w.dist[c] <= w.maxChild[p])
  }

  ghost predicate AllRecorded(g: Graph, w: Work)
    requires Shape(g, w)
  {
    forall p: nat, e: nat | IsInternalEdge(g, p, e) && (p, e) in w.done :: Recorded(g, w, p, e)
  }

  ghost function Pending(g: Graph, p: nat, done: set<(nat, nat)>): set<nat>
    requires p < |g|
  {
    set e: nat | e < |g[p].children| && IsInternalEdge(g, p, e) && (p, e) !in done
  }

  /** The counter of an undecided Sente node is its number of edges still to be seen. */
  ghost predicate Counted(g: Graph, w: Work)
    requires Shape(g, w)
  {
    forall p: nat | p < |g| && !g[p].gote && !w.Finite(p) ::
      w.unresolved[p] == |Pending(g, p, w.done)| && (w.unresolved[p] == 0 ==> !HasAllowedEdge(g, p, |g[p].children|))
  }

  ghost predicate ExitsSeeded(g: Graph, w: Work)
    requires Shape(g, w)
  {
    forall p: nat | p < |g| && g[p].gote && HasExitEdge(g, p, |g[p].children|) :: w.dist[p] == 1
  }

  /** While nodes of distance `level` are being expanded nothing lies beyond level + 1. */
  ghost predicate WithinLevel(w: Work, level: nat) {
    && (forall i: nat | i < |w.queue| && w.queue[i] < |w.dist| :: w.dist[w.queue[i]] <= level + 1)
    && (forall p: nat | p < |w.maxChild| :: w.maxChild[p] <= level)
  }

  ghost predicate Invariant(g: Graph, w: Work, level: nat) {
    && Shape(g, w) && QueueOrdered(g, w) && Sound(g, w) && Tight(g, w)
    && AllRecorded(g, w) && Counted(g, w) && ExitsSeeded(g, w) && WithinLevel(w, level)
  }

  // ----- giving a node its distance -----

  function Assign(w: Work, p: nat, d: nat): Work
    requires p < |w.dist|
  {
    w.(dist := w.dist[p := d], queue := w.queue + [p])
  }

  lemma AssignKeepsOrder(g: Graph, w: Work, p: nat, d: nat)
    requires Shape(g, w) && QueueOrdered(g, w) && p < |g| && !w.Finite(p)
    requires 1 <= d <= |w.queue| + 1 && d != DISTANCE_INFINITE
    requires forall i: nat | i < |w.queue| :: w.dist[w.queue[i]] <= d
    ensures Shape(g, Assign(w, p, d)) && QueueOrdered(g, Assign(w, p, d))
  {
    var w' := Assign(w, p, d);
    assert forall i: nat | i < |w.queue| :: w'.queue[i] == w.queue[i] && w.queue[i] != p;
    assert w'.queue[|w.queue|] == p;
    forall n: nat | n < |g|
      ensures w'.Finite(n) <==> n in w'.queue
    {
      assert n in w'.queue <==> n in w.queue || n == p;
    }
  }

  lemma AssignKeepsSound(g: Graph, w: Work, p: nat, d: nat)
    requires Shape(g, w) && Sound(g, w) && p < |g| && Forces(g, p, d)
    requires Shape(g, Assign(w, p, d))
    ensures Sound(g, Assign(w, p, d))
  {
  }

  lemma AssignKeepsTight(g: Graph, w: Work, p: nat, d: nat)
    requires Shape(g, w) && Tight(g, w) && p < |g| && !w.Finite(p) && d != DISTANCE_INFINITE
    requires d == 1 || exists e: nat :: IsInternalEdge(g, p, e) && w.Finite(g[p].children[e]) && w.dist[g[p].children[e]] + 1 == d
    requires Shape(g, Assign(w, p, d))
    ensures Tight(g, Assign(w, p, d))
  {
    var w' := Assign(w, p, d);
    forall n: nat | n < |g| && w'.Finite(n)
      ensures Explained(g, w', n)
    {
      if w'.dist[n] != 1 {
        assert n != p ==> Explained(g, w, n);
        var e: nat :| IsInternalEdge(g, n, e) && w.Finite(g[n].children[e]) && w.dist[g[n].children[e]] + 1 == w'.dist[n];
        assert g[n].children[e] != p;
      }
    }
  }

  lemma AssignKeepsRecords(g: Graph, w: Work, p: nat, d: nat)
    requires Shape(g, w) && AllRecorded(g, w) && p < |g| && !w.Finite(p)
    requires Shape(g, Assign(w, p, d))
    requires g[p].gote ==> forall e: nat | IsInternalEdge(g, p, e) :: (p, e) !in w.done
    ensures AllRecorded(g, Assign(w, p, d))
  {
    var w' := Assign(w, p, d);
    forall q: nat, e: nat | IsInternalEdge(g, q, e) && (q, e) in w.done
      ensures Recorded(g, w', q, e)
    {
      assert Recorded(g, w, q, e);
    }
  }

  lemma AssignKeepsCounts(g: Graph, w: Work, p: nat, d: nat)
    requires Shape(g, w) && Counted(g, w) && p < |g| && !w.Finite(p) && d != DISTANCE_INFINITE
    requires Shape(g, Assign(w, p, d))
    ensures Counted(g, Assign(w, p, d))
  {
    var w' := Assign(w, p, d);
    forall q: nat | q < |g| && !w'.Finite(q)
      ensures q != p && w'.dist[q] == w.dist[q]
    {
    }
  }

  lemma AssignKeepsSeeds(g: Graph, w: Work, p: nat, d: nat)
    requires Shape(g, w) && ExitsSeeded(g, w) && p < |g| && !w.Finite(p)
    requires Shape(g, Assign(w, p, d))
    ensures ExitsSeeded(g, Assign(w, p, d))
  {
  }

  lemma UndecidedGoteIsUnseen(g: Graph, w: Work, p: nat)
    requires Shape(g, w) && AllRecorded(g, w) && p < |g| && !w.Finite(p) && g[p].gote
    ensures forall e: nat | IsInternalEdge(g, p, e) :: (p, e) !in w.done
  {
    forall e: nat | IsInternalEdge(g, p, e)
      ensures (p, e) !in w.done
    {
      assert (p, e) in w.done ==> Recorded(g, w, p, e);
    }
  }

  lemma {:induction false} AssignKeepsInvariant(g: Graph, w: Work, p: nat, level: nat)
    requires Invariant(g, w, level) && p < |g| && !w.Finite(p)
    requires level <= |w.queue| && level + 1 != DISTANCE_INFINITE
    requires Forces(g, p, level + 1)
    requires level == 0 || exists e: nat :: IsInternalEdge(g, p, e) && w.Finite(g[p].children[e]) && w.dist[g[p].children[e]] == level
    ensures Invariant(g, Assign(w, p, level + 1), level)
  {
    hide Sound, Tight, AllRecorded, Counted, ExitsSeeded, QueueOrdered, Forces, IsInternalEdge;
    AssignKeepsOrder(g, w, p, level + 1);
    AssignKeepsSound(g, w, p, level + 1);
    AssignKeepsTight(g, w, p, level + 1);
    if g[p].gote {
      UndecidedGoteIsUnseen(g, w, p);
    }
    AssignKeepsRecords(g, w, p, level + 1);
    AssignKeepsCounts(g, w, p, level + 1);
    AssignKeepsSeeds(g, w, p, level + 1);
  }

  // ----- looking at one edge -----

  function MarkDone(w: Work, ghost p: nat, ghost e: nat): Work {
    w.(done := w.done + {(p, e)})
  }

  lemma PendingShrinks(g: Graph, p: nat, e: nat, done: set<(nat, nat)>)
    requires IsInternalEdge(g, p, e) && (p, e) !in done
    ensures |Pending(g, p, done + {(p, e)})| == |Pending(g, p, done)| - 1
    ensures forall q: nat | q < |g| && q != p :: Pending(g, q, done + {(p, e)}) == Pending(g, q, done)
  {
    assert Pending(g, p, done + {(p, e)}) == Pending(g, p, done) - {e};
  }

  /** Sound and Tight only speak of the distances and the queue. */
  lemma SameDistances(g: Graph, w: Work, w': Work)
    requires Shape(g, w) && Shape(g, w') && w'.dist == w.dist && w'.queue == w.queue
    ensures QueueOrdered(g, w) ==> QueueOrdered(g, w')
    ensures Sound(g, w) ==> Sound(g, w')
    ensures ExitsSeeded(g, w) ==> ExitsSeeded(g, w')
    ensures Tight(g, w) ==> Tight(g, w')
  {
    if Tight(g, w) {
      forall n: nat | n < |g| && w'.Finite(n)
        ensures Explained(g, w', n)
      {
        assert Explained(g, w, n);
      }
    }
  }

  lemma SkipRecords(g: Graph, w: Work, p: nat, e: nat, level: nat)
    requires Shape(g, w) && AllRecorded(g, w) && IsInternalEdge(g, p, e) && w.Finite(p) && w.dist[p] <= level + 1
    requires w.Finite(g[p].children[e]) && w.dist[g[p].children[e]] == level
    ensures AllRecorded(g, MarkDone(w, p, e))
  {
    var w' := MarkDone(w, p, e);
    forall q: nat, f: nat | IsInternalEdge(g, q, f) && (q, f) in w'.done
      ensures Recorded(g, w', q, f)
    {
      assert (q, f) in w.done ==> Recorded(g, w, q, f);
    }
  }

  lemma SkipCounts(g: Graph, w: Work, p: nat, e: nat)
    requires Shape(g, w) && Counted(g, w) && IsInternalEdge(g, p, e) && (p, e) !in w.done && w.Finite(p)
    ensures Counted(g, MarkDone(w, p, e))
  {
    PendingShrinks(g, p, e, w.done);
  }

  lemma DecidedWithinLevel(g: Graph, w: Work, p: nat, level: nat)
    requires Shape(g, w) && QueueOrdered(g, w) && WithinLevel(w, level) && w.Finite(p) && p < |g|
    ensures w.dist[p] <= level + 1
  {
    assert p in w.queue;
  }

  /** An edge into a decided node only needs to be marked. */
  lemma SkipDecided(g: Graph, w: Work, p: nat, e: nat, level: nat)
    requires Invariant(g, w, level) && IsInternalEdge(g, p, e) && (p, e) !in w.done
    requires w.Finite(g[p].children[e]) && w.dist[g[p].children[e]] == level && w.Finite(p)
    ensures Invariant(g, MarkDone(w, p, e), level)
  {
    hide Sound, Tight, AllRecorded, Counted, ExitsSeeded, QueueOrdered;
    DecidedWithinLevel(g, w, p, level);
    SkipRecords(g, w, p, e, level);
    SkipCounts(g, w, p, e);
    SameDistances(g, w, MarkDone(w, p, e));
  }

  /** Reaching an undecided Gote node decides it one ply above the child. */
  lemma ReachGote(g: Graph, w: Work, p: nat, e: nat, level: nat)
    requires Invariant(g, w, level) && IsInternalEdge(g, p, e) && (p, e) !in w.done && g[p].gote && !w.Finite(p)
    requires w.Finite(g[p].children[e]) && w.dist[g[p].children[e]] == level
    requires 1 <= level <= |w.queue| && level + 1 != DISTANCE_INFINITE
    ensures Invariant(g, MarkDone(Assign(w, p, level + 1), p, e), level)
  {
    hide Tight, AllRecorded, Counted, ExitsSeeded, QueueOrdered;
    assert ForcesVia(g, p, e, level);
    AssignKeepsInvariant(g, w, p, level);
    SkipDecided(g, Assign(w, p, level + 1), p, e, level);
  }

  /** A Sente node that is still undecided loses one pending edge. */
  function CountDown(w: Work, p: nat, ghost e: nat, d: nat): Work
    requires p < |w.unresolved| == |w.maxChild| && w.unresolved[p] > 0
  {
    w.(maxChild := w.maxChild[p := if w.maxChild[p] < d then d else w.maxChild[p]],
       unresolved := w.unresolved[p := w.unresolved[p] - 1],
       done := w.done + {(p, e)})
  }

  lemma {:induction false} PendingIsPositive(g: Graph, w: Work, p: nat, e: nat)
    requires Shape(g, w) && Counted(g, w) && IsInternalEdge(g, p, e) && (p, e) !in w.done && !g[p].gote && !w.Finite(p)
    // The underflow exception is unreachable.
    ensures w.unresolved[p] > 0
  {
    assert e in Pending(g, p, w.done);
  }

  lemma CountDownRecords(g: Graph, w: Work, p: nat, e: nat, level: nat)
    requires Shape(g, w) && AllRecorded(g, w) && IsInternalEdge(g, p, e) && !g[p].gote && !w.Finite(p)
    requires w.unresolved[p] > 0 && w.maxChild[p] <= level
    requires w.Finite(g[p].children[e]) && w.dist[g[p].children[e]] == level
    ensures Shape(g, CountDown(w, p, e, level)) && AllRecorded(g, CountDown(w, p, e, level))
  {
    var w' := CountDown(w, p, e, level);
    forall q: nat, f: nat | IsInternalEdge(g, q, f) && (q, f) in w'.done
      ensures Recorded(g, w', q, f)
    {
      assert (q, f) in w.done ==> Recorded(g, w, q, f);
    }
  }

  /** The last pending edge decides the node: every known child is within `level`. */
  lemma LastEdgeForces(g: Graph, w: Work, p: nat, e: nat, level: nat)
    requires Shape(g, w) && Sound(g, w) && AllRecorded(g, w) && IsInternalEdge(g, p, e) && !g[p].gote && !w.Finite(p)
    requires w.maxChild[p] <= level && Pending(g, p, w.done) == {}
    ensures Forces(g, p, level + 1)
  {
    assert g[p].children[e] != EXIT_DISALLOWED;
    forall f: nat | IsEdge(g, p, f) && g[p].children[f] != EXIT_DISALLOWED
      ensures ForcesVia(g, p, f, level)
    {
      if g[p].children[f] != EXIT_LEAF {
        assert IsInternalEdge(g, p, f);
        assert f !in Pending(g, p, w.done);
        assert Recorded(g, w, p, f);
        ForcesMonotone(g, g[p].children[f], w.dist[g[p].children[f]], level);
      }
    }
  }

  lemma CountDownCounts(g: Graph, w: Work, p: nat, e: nat, level: nat)
    requires Shape(g, w) && Counted(g, w) && IsInternalEdge(g, p, e) && (p, e) !in w.done && !g[p].gote && !w.Finite(p)
    requires w.unresolved[p] > 1
    ensures Counted(g, CountDown(w, p, e, level))
  {
    PendingShrinks(g, p, e, w.done);
  }

  /** An edge into an undecided Sente node that keeps other pending edges. */
  lemma ReachSente(g: Graph, w: Work, p: nat, e: nat, level: nat)
    requires Invariant(g, w, level) && IsInternalEdge(g, p, e) && (p, e) !in w.done && !g[p].gote && !w.Finite(p)
    requires w.Finite(g[p].children[e]) && w.dist[g[p].children[e]] == level
    requires w.unresolved[p] > 1
    ensures Invariant(g, CountDown(w, p, e, level), level)
  {
    hide Sound, Tight, AllRecorded, Counted, ExitsSeeded, QueueOrdered;
    CountDownRecords(g, w, p, e, level);
    CountDownCounts(g, w, p, e, level);
    SameDistances(g, w, CountDown(w, p, e, level));
  }

  /** With the last pending edge gone the node is decided, so its counter no longer
      matters. */
  lemma LastCountDownCounts(g: Graph, w: Work, p: nat, e: nat, level: nat)
    requires Shape(g, w) && Counted(g, w) && IsInternalEdge(g, p, e) && (p, e) !in w.done && !g[p].gote && !w.Finite(p)
    requires w.unresolved[p] == 1 && level + 1 != DISTANCE_INFINITE
    requires Shape(g, Assign(CountDown(w, p, e, level), p, level + 1))
    ensures Pending(g, p, w.done + {(p, e)}) == {}
    ensures Counted(g, Assign(CountDown(w, p, e, level), p, level + 1))
  {
    PendingShrinks(g, p, e, w.done);
  }

  /** The last pending edge decides a Sente node one ply above its furthest child. */
  lemma DecideSente(g: Graph, w: Work, p: nat, e: nat, level: nat)
    requires Invariant(g, w, level) && IsInternalEdge(g, p, e) && (p, e) !in w.done && !g[p].gote && !w.Finite(p)
    requires w.Finite(g[p].children[e]) && w.dist[g[p].children[e]] == level
    requires w.unresolved[p] == 1 && 1 <= level <= |w.queue| && level + 1 != DISTANCE_INFINITE
    ensures CountDown(w, p, e, level).maxChild[p] == level
    ensures Invariant(g, Assign(CountDown(w, p, e, level), p, level + 1), level)
  {
    hide Sound, Tight, AllRecorded, Counted, QueueOrdered, Forces, ExitsSeeded, WithinLevel, Assign, CountDown;
    DecideFacts(g, w, p, e, level);
    var m := CountDown(w, p, e, level);
    CountDownRecords(g, w, p, e, level);
    SameDistances(g, w, m);
    AssignKeepsOrder(g, m, p, level + 1);
    LastCountDownCounts(g, w, p, e, level);
    LastEdgeForces(g, m, p, e, level);
    AssignKeepsSound(g, m, p, level + 1);
    AssignKeepsTight(g, m, p, level + 1);
    AssignKeepsRecords(g, m, p, level + 1);
    AssignKeepsSeeds(g, m, p, level + 1);
  }

  /** The work after the count-down, as far as the decision needs it. */
  lemma DecideFacts(g: Graph, w: Work, p: nat, e: nat, level: nat)
    requires Invariant(g, w, level) && IsInternalEdge(g, p, e) && !g[p].gote && !w.Finite(p)
    requires w.unresolved[p] == 1 && 1 <= level && level + 1 != DISTANCE_INFINITE
    ensures var m := CountDown(w, p, e, level);
            && m.dist == w.dist && m.queue == w.queue && m.done == w.done + {(p, e)} && |m.unresolved| == |m.maxChild| == |w.dist|
            && m.maxChild[p] == level && w.maxChild[p] <= level
            && (forall i: nat | i < |m.queue| :: m.dist[m.queue[i]] <= level + 1)
            && WithinLevel(Assign(m, p, level + 1), level)
            && Assign(m, p, level + 1).dist == w.dist[p := level + 1] && Assign(m, p, level + 1).done == m.done
            && Assign(m, p, level + 1).unresolved == m.unresolved && Assign(m, p, level + 1).maxChild == m.maxChild
  {
    hide Sound, Tight, AllRecorded, Counted, QueueOrdered, Forces, ExitsSeeded;
    var m := CountDown(w, p, e, level);
    forall i: nat | i < |w.queue|
      ensures w.queue[i] < |g| && w.dist[w.queue[i]] <= level + 1
    {
    }
  }

  // ----- the drained queue -----

  ghost predicate Drained(g: Graph, w: Work)
    requires Shape(g, w)
  {
    forall p: nat, e: nat | IsInternalEdge(g, p, e) && w.Finite(g[p].children[e]) :: (p, e) in w.done
  }

  lemma {:induction false} DrainedIsComplete(g: Graph, w: Work, level: nat, n: nat, k: nat)
    requires Invariant(g, w, level) && Drained(g, w) && n < |g| && Forces(g, n, k)
    ensures w.Finite(n) && w.dist[n] <= k
    decreases k
  {
    hide Sound, Tight, AllRecorded, Counted, ExitsSeeded, QueueOrdered, Drained;
    if g[n].gote {
      var e: nat :| IsEdge(g, n, e) && ForcesVia(g, n, e, k - 1);
      if g[n].children[e] == EXIT_LEAF {
        SomeExitIsSeeded(g, w, n, e);
      } else {
        DrainedIsComplete(g, w, level, g[n].children[e], k - 1);
        GoteIsDecided(g, w, n, e);
      }
    } else {
      forall e: nat | IsInternalEdge(g, n, e)
        ensures w.Finite(g[n].children[e]) && w.dist[g[n].children[e]] <= k - 1
      {
        assert ForcesVia(g, n, e, k - 1);
        DrainedIsComplete(g, w, level, g[n].children[e], k - 1);
      }
      SenteIsDecided(g, w, n, k);
    }
  }

  lemma GoteIsDecided(g: Graph, w: Work, n: nat, e: nat)
    requires Shape(g, w) && AllRecorded(g, w) && Drained(g, w) && IsInternalEdge(g, n, e) && g[n].gote
    requires w.Finite(g[n].children[e])
    ensures w.Finite(n) && w.dist[n] <= w.dist[g[n].children[e]] + 1
  {
    assert Recorded(g, w, n, e);
  }

  lemma SomeExitIsSeeded(g: Graph, w: Work, n: nat, e: nat)
    requires Shape(g, w) && ExitsSeeded(g, w) && IsEdge(g, n, e) && g[n].gote && g[n].children[e] == EXIT_LEAF
    ensures w.dist[n] == 1
  {
    assert HasExitEdge(g, n, |g[n].children|);
  }

  lemma SenteIsDecided(g: Graph, w: Work, n: nat, k: nat)
    requires Shape(g, w) && Counted(g, w) && Tight(g, w) && Drained(g, w) && n < |g| && !g[n].gote && k > 0
    requires forall e: nat | IsInternalEdge(g, n, e) :: w.Finite(g[n].children[e]) && w.dist[g[n].children[e]] <= k - 1
    requires exists e: nat :: IsEdge(g, n, e) && g[n].children[e] != EXIT_DISALLOWED
    ensures w.Finite(n) && w.dist[n] <= k
  {
    assert Pending(g, n, w.done) == {};
    assert HasAllowedEdge(g, n, |g[n].children|);
    assert w.Finite(n);
    assert Explained(g, w, n);
  }

  lemma {:induction false} DrainedIsExact(g: Graph, w: Work, level: nat)
    requires Invariant(g, w, level) && Drained(g, w)
    ensures forall n: nat | n < |g| :: IsExitDistance(g, n, w.dist[n])
  {
    forall n: nat | n < |g|
      ensures IsExitDistance(g, n, w.dist[n])
    {
      forall k: nat
        ensures Forces(g, n, k) <==> w.Finite(n) && w.dist[n] <= k
      {
        if Forces(g, n, k) {
          DrainedIsComplete(g, w, level, n, k);
        } else if w.Finite(n) && w.dist[n] <= k {
          ForcesMonotone(g, n, w.dist[n], k);
        }
      }
    }
  }
}
