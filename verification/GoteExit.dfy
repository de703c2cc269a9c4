/** The solver's entry point and the move selection that plays its distances. */
module GoteExit {
  import opened Wrappers
  import opened Counting
  import opened ExitGame
  import opened ExitSolver
  import opened ExitWorklist
  import Shogi

  // ----- seeding -----

  /** Gote can leave at once, or every allowed Sente move leaves. */
  ghost predicate Immediate(g: Graph, n: nat)
    requires n < |g|
  {
    if g[n].gote then HasExitEdge(g, n, |g[n].children|)
    else HasAllowedEdge(g, n, |g[n].children|) && OutDegree(g, n, |g[n].children|) == 0
  }

  ghost predicate Seeded(g: Graph, dist: seq<nat>, queue: seq<nat>, upTo: nat) {
    && |dist| == |g| && upTo <= |g|
    && (forall n: nat | n < upTo :: dist[n] == if Immediate(g, n) then 1 else DISTANCE_INFINITE)
    && (forall n: nat | upTo <= n < |g| :: dist[n] == DISTANCE_INFINITE)
    && (forall i: nat | i < |queue| :: queue[i] < upTo && dist[queue[i]] == 1)
    && (forall n: nat | n < upTo && Immediate(g, n) :: n in queue)
    && (forall i: nat, j: nat | i < j < |queue| :: queue[i] != queue[j])
  }

  lemma SeedStep(g: Graph, dist: seq<nat>, queue: seq<nat>, n: nat)
    requires Seeded(g, dist, queue, n) && n < |g|
    ensures Immediate(g, n) ==> Seeded(g, dist[n := 1], queue + [n], n + 1)
    ensures !Immediate(g, n) ==> Seeded(g, dist, queue, n + 1)
  {
    hide Immediate;
    if Immediate(g, n) {
      var dist', queue' := dist[n := 1], queue + [n];
      assert forall i: nat | i < |queue'| :: queue'[i] == if i < |queue| then queue[i] else n;
      assert forall m: nat | m < n && Immediate(g, m) :: m in queue';
      assert n in queue';
    }
  }

  lemma {:induction false} PendingIsOutDegree(g: Graph, p: nat, upTo: nat)
    requires p < |g| && upTo <= |g[p].children|
    ensures |set e: nat | e < upTo && IsInternalEdge(g, p, e)| == OutDegree(g, p, upTo)
  {
    var s := set e: nat | e < upTo && IsInternalEdge(g, p, e);
    if upTo == 0 {
      assert s == {};
    } else {
      PendingIsOutDegree(g, p, upTo - 1);
      var t := set e: nat | e < upTo - 1 && IsInternalEdge(g, p, e);
      assert s == if IsInternalEdge(g, p, upTo - 1) then t + {upTo - 1} else t;
    }
  }

  lemma SeedCounted(g: Graph, w: Work)
    requires Shape(g, w) && w.done == {} && Seeded(g, w.dist, w.queue, |g|)
    requires forall p: nat | p < |g| :: w.unresolved[p] == if g[p].gote then 0 else OutDegree(g, p, |g[p].children|)
    ensures Counted(g, w)
  {
    forall p: nat | p < |g| && !g[p].gote && !w.Finite(p)
      ensures w.unresolved[p] == |Pending(g, p, w.done)| && (w.unresolved[p] == 0 ==> !HasAllowedEdge(g, p, |g[p].children|))
    {
      PendingIsOutDegree(g, p, |g[p].children|);
      assert Pending(g, p, {}) == set e: nat | e < |g[p].children| && IsInternalEdge(g, p, e);
    }
  }

  lemma ImmediateForces(g: Graph, n: nat)
    requires IsUint32Graph(g) && ChildrenInRange(g) && n < |g| && Immediate(g, n)
    ensures Forces(g, n, 1)
  {
    if g[n].gote {
      var e: nat :| e < |g[n].children| && IsEdge(g, n, e) && g[n].children[e] == EXIT_LEAF;
      assert ForcesVia(g, n, e, 0);
    } else {
      PendingIsOutDegree(g, n, |g[n].children|);
      var s := set e: nat | e < |g[n].children| && IsInternalEdge(g, n, e);
      assert s == {};
      forall e: nat | IsEdge(g, n, e) && g[n].children[e] != EXIT_DISALLOWED
        ensures ForcesVia(g, n, e, 0)
      {
        assert e !in s;
      }
      var e: nat :| e < |g[n].children| && IsEdge(g, n, e) && g[n].children[e] != EXIT_DISALLOWED;
    }
  }

  lemma SeedQueue(g: Graph, w: Work)
    requires Shape(g, w) && Seeded(g, w.dist, w.queue, |g|)
    ensures QueueOrdered(g, w) && Tight(g, w)
  {
    hide Immediate;
    forall n: nat | n < |g|
      ensures w.Finite(n) <==> n in w.queue
    {
    }
  }

  lemma SeedInvariant(g: Graph, w: Work)
    requires Shape(g, w) && w.done == {} && Seeded(g, w.dist, w.queue, |g|)
    requires forall p: nat | p < |g| :: w.unresolved[p] == if g[p].gote then 0 else OutDegree(g, p, |g[p].children|)
    requires forall p: nat | p < |g| :: w.maxChild[p] == 0
    ensures Invariant(g, w, 0)
  {
    hide Forces, OutDegree;
    SeedCounted(g, w);
    SeedQueue(g, w);
    forall n: nat | n < |g| && w.Finite(n)
      ensures Forces(g, n, w.dist[n])
    {
      ImmediateForces(g, n);
    }
  }

  // ----- draining -----

  /** The edges looked at are those into `popped` nodes and, in reverse-graph order,
      those into `cur` stored below position `limit`. */
  ghost predicate DoneUpTo(g: Graph, done: set<(nat, nat)>, at: map<(nat, nat), nat>, popped: seq<nat>, cur: nat, limit: nat) {
    forall p: nat, e: nat | IsInternalEdge(g, p, e) && (p, e) in at ::
      (p, e) in done <==> (g[p].children[e] in popped || (g[p].children[e] == cur && at[(p, e)] < limit))
  }

  lemma QueueIsShort(g: Graph, w: Work)
    requires Shape(g, w) && QueueOrdered(g, w)
    ensures |w.queue| <= |g|
  {
    DistinctFits(w.queue, Below(|g|));
  }

  lemma RaiseLevel(g: Graph, w: Work, level: nat, level': nat)
    requires Invariant(g, w, level) && level <= level'
    ensures Invariant(g, w, level')
  {
    hide QueueOrdered, Sound, Tight, AllRecorded, Counted, ExitsSeeded, Shape;
  }

  /** The next node of the queue starts the expansion at its own level. */
  lemma NextLevel(g: Graph, w: Work, level: nat, head: nat)
    requires Invariant(g, w, level) && head < |w.queue|
    requires level == if head == 0 then 0 else w.dist[w.queue[head - 1]]
    ensures Invariant(g, w, w.dist[w.queue[head]])
    ensures 1 <= w.dist[w.queue[head]] <= |w.queue| <= |g|
    ensures w.Finite(w.queue[head]) && w.queue[head] !in w.queue[..head]
  {
    hide Sound, Tight, AllRecorded, Counted, ExitsSeeded, Invariant;
    QueueFacts(g, w, level, head);
    RaiseLevel(g, w, level, w.dist[w.queue[head]]);
  }

  lemma QueueFacts(g: Graph, w: Work, level: nat, head: nat)
    requires Invariant(g, w, level) && head < |w.queue|
    requires level == if head == 0 then 0 else w.dist[w.queue[head - 1]]
    ensures Shape(g, w)
    ensures level <= w.dist[w.queue[head]] && 1 <= w.dist[w.queue[head]] <= |w.queue| <= |g|
    ensures w.Finite(w.queue[head]) && w.queue[head] !in w.queue[..head]
  {
    hide Sound, Tight, AllRecorded, Counted, ExitsSeeded;
    QueueIsShort(g, w);
    assert w.queue[head] in w.queue;
  }

  /** The edge stored at position `i` of the current row has not been looked at. */
  lemma NextEdgeIsUnseen(g: Graph, done: set<(nat, nat)>, offsets: seq<nat>, parents: seq<nat>,
                         edgeAt: seq<(nat, nat)>, at: map<(nat, nat), nat>, popped: seq<nat>, cur: nat, i: nat)
    requires IsReverseGraph(g, offsets, parents, edgeAt, at) && cur < |g| && offsets[cur] <= i < offsets[cur + 1]
    requires DoneUpTo(g, done, at, popped, cur, i) && cur !in popped
    ensures i < |parents| == |edgeAt|
    ensures var (p, e) := edgeAt[i];
            && p == parents[i] && IsInternalEdge(g, p, e) && g[p].children[e] == cur && (p, e) !in done
            && DoneUpTo(g, done + {(p, e)}, at, popped, cur, i + 1)
  {
    hide AreOffsets, IsPlaced;
    assert IsFilled(g, parents, edgeAt, at, cur, i);
    var (p, e) := edgeAt[i];
    forall q: nat, f: nat | IsInternalEdge(g, q, f) && (q, f) in at
      ensures (q, f) in done + {(p, e)} <==> (g[q].children[f] in popped || (g[q].children[f] == cur && at[(q, f)] < i + 1))
    {
      // Positions name edges injectively.
      assert at[(q, f)] == i ==> (q, f) == (p, e);
    }
  }


  /** The arrays of the search, as a value. */
  ghost function Snapshot(distance: array<nat>, unresolved: array<nat>, maxChild: array<nat>, queue: seq<nat>, done: set<(nat, nat)>): Work
    reads distance, unresolved, maxChild
  {
    Work(distance[..], unresolved[..], maxChild[..], queue, done)
  }

  /** One reverse edge: the body of the innermost loop. */
  method VisitParent(g: Graph, distance: array<nat>, unresolved: array<nat>, maxChild: array<nat>, queue: seq<nat>,
                     ghost done: set<(nat, nat)>, parent: nat, ghost edge: nat, childDistance: nat) returns (queue': seq<nat>)
    requires distance != unresolved && distance != maxChild && unresolved != maxChild
    requires Invariant(g, Snapshot(distance, unresolved, maxChild, queue, done), childDistance)
    requires 1 <= childDistance <= |queue| <= |g|
    requires IsInternalEdge(g, parent, edge) && (parent, edge) !in done
    requires Snapshot(distance, unresolved, maxChild, queue, done).Finite(g[parent].children[edge])
    requires distance[g[parent].children[edge]] == childDistance
    modifies distance, unresolved, maxChild
    ensures Invariant(g, Snapshot(distance, unresolved, maxChild, queue', done + {(parent, edge)}), childDistance)
    ensures queue <= queue'
    ensures forall n: nat | n < distance.Length && old(distance[n]) != DISTANCE_INFINITE :: distance[n] == old(distance[n])
  {
    hide QueueOrdered, Sound, Tight, AllRecorded, Counted, ExitsSeeded, WithinLevel, Forces;
    ghost var w := Snapshot(distance, unresolved, maxChild, queue, done);
    queue' := queue;
    if distance[parent] != DISTANCE_INFINITE {
      SkipDecided(g, w, parent, edge, childDistance);
    } else if g[parent].gote {
      ReachGote(g, w, parent, edge, childDistance);
      distance[parent] := childDistance + 1;
      queue' := queue + [parent];
      assert Snapshot(distance, unresolved, maxChild, queue', done + {(parent, edge)})
          == MarkDone(Assign(w, parent, childDistance + 1), parent, edge);
    } else {
      PendingIsPositive(g, w, parent, edge);
      if unresolved[parent] == 1 {
        DecideSente(g, w, parent, edge, childDistance);
      } else {
        ReachSente(g, w, parent, edge, childDistance);
      }
      maxChild[parent] := if maxChild[parent] < childDistance then childDistance else maxChild[parent];
      unresolved[parent] := unresolved[parent] - 1;
      assert Snapshot(distance, unresolved, maxChild, queue, done + {(parent, edge)})
          == CountDown(w, parent, edge, childDistance);
      if unresolved[parent] == 0 {
        distance[parent] := maxChild[parent] + 1;
        queue' := queue + [parent];
        assert Snapshot(distance, unresolved, maxChild, queue', done + {(parent, edge)})
            == Assign(CountDown(w, parent, edge, childDistance), parent, childDistance + 1);
      }
    }
  }

  /** All parents of the node just taken from the queue. */
  method VisitParents(g: Graph, offsets: array<nat>, parents: array<nat>, ghost edgeAt: seq<(nat, nat)>, ghost at: map<(nat, nat), nat>,
                      distance: array<nat>, unresolved: array<nat>, maxChild: array<nat>, queue: seq<nat>,
                      ghost done: set<(nat, nat)>, ghost head: nat, child: nat) returns (queue': seq<nat>, ghost done': set<(nat, nat)>)
    requires distance != unresolved && distance != maxChild && unresolved != maxChild
    requires offsets !in {distance, unresolved, maxChild} && parents !in {distance, unresolved, maxChild}
    requires IsReverseGraph(g, offsets[..], parents[..], edgeAt, at)
    requires child < |g| == distance.Length && head < |queue| && queue[head] == child
    requires Invariant(g, Snapshot(distance, unresolved, maxChild, queue, done), distance[child])
    requires DoneUpTo(g, done, at, queue[..head], child, offsets[child])
    requires 1 <= distance[child] <= |queue| <= |g| < EXIT_DISALLOWED && child !in queue[..head]
    modifies distance, unresolved, maxChild
    ensures offsets[..] == old(offsets[..]) && parents[..] == old(parents[..])
    ensures distance[child] == old(distance[child])
    ensures Invariant(g, Snapshot(distance, unresolved, maxChild, queue', done'), distance[child])
    ensures DoneUpTo(g, done', at, queue[..head], child, offsets[child + 1])
    ensures queue <= queue'
  {
    hide Invariant, DoneUpTo, IsReverseGraph;
    ghost var rows, entries := offsets[..], parents[..];
    var childDistance := distance[child];
    ghost var popped := queue[..head];
    queue', done' := queue, done;
    RowBounds(g, rows, entries, edgeAt, at, child);
    var i := offsets[child];
    while i < offsets[child + 1]
      invariant offsets[child] <= i <= offsets[child + 1] <= parents.Length
      invariant offsets[..] == rows && parents[..] == entries
      invariant distance[child] == childDistance
      invariant Invariant(g, Snapshot(distance, unresolved, maxChild, queue', done'), childDistance)
      invariant DoneUpTo(g, done', at, popped, child, i)
      invariant queue <= queue'
    {
      var parent := parents[i];
      ghost var edge := edgeAt[i].1;
      NextEdgeIsUnseen(g, done', rows, entries, edgeAt, at, popped, child, i);
      QueueBound(g, Snapshot(distance, unresolved, maxChild, queue', done'), childDistance);
      queue' := VisitParent(g, distance, unresolved, maxChild, queue', done', parent, edge, childDistance);
      done' := done' + {(parent, edge)};
      i := i + 1;
    }
  }

  lemma RowBounds(g: Graph, offsets: seq<nat>, parents: seq<nat>, edgeAt: seq<(nat, nat)>, at: map<(nat, nat), nat>, c: nat)
    requires IsReverseGraph(g, offsets, parents, edgeAt, at) && c < |g|
    ensures |offsets| == |g| + 1 && |edgeAt| == |parents| && offsets[c] <= offsets[c + 1] <= |parents|
  {
  }

  lemma ReverseShape(g: Graph, offsets: seq<nat>, parents: seq<nat>, edgeAt: seq<(nat, nat)>, at: map<(nat, nat), nat>)
    requires IsReverseGraph(g, offsets, parents, edgeAt, at)
    ensures |offsets| == |g| + 1
  {
  }

  lemma QueueBound(g: Graph, w: Work, level: nat)
    requires Invariant(g, w, level)
    ensures |w.queue| <= |g|
  {
    QueueIsShort(g, w);
  }

  /** After a whole row, the node counts as popped. */
  lemma RowIsDone(g: Graph, done: set<(nat, nat)>, offsets: seq<nat>, parents: seq<nat>, edgeAt: seq<(nat, nat)>,
                  at: map<(nat, nat), nat>, queue: seq<nat>, head: nat, next: nat)
    requires IsReverseGraph(g, offsets, parents, edgeAt, at)
    requires head < |queue| && queue[head] < |g| && next < |g| && next !in queue[..head + 1]
    requires DoneUpTo(g, done, at, queue[..head], queue[head], offsets[queue[head] + 1])
    ensures DoneUpTo(g, done, at, queue[..head + 1], next, offsets[next])
  {
    hide AreOffsets, IsFilled;
    var cur := queue[head];
    assert queue[..head + 1] == queue[..head] + [cur];
    forall p: nat, e: nat | IsInternalEdge(g, p, e) && (p, e) in at
      ensures (p, e) in done <==>
                (g[p].children[e] in queue[..head + 1] || (g[p].children[e] == next && at[(p, e)] < offsets[next]))
    {
      assert IsPlaced(g, offsets, |parents|, at, p, e);
    }
  }

  lemma FirstRow(g: Graph, offsets: seq<nat>, parents: seq<nat>, edgeAt: seq<(nat, nat)>,
                 at: map<(nat, nat), nat>, next: nat)
    requires IsReverseGraph(g, offsets, parents, edgeAt, at) && next < |g|
    ensures DoneUpTo(g, {}, at, [], next, offsets[next])
  {
    hide AreOffsets, IsFilled;
    forall p: nat, e: nat | IsInternalEdge(g, p, e) && (p, e) in at
      ensures !(g[p].children[e] == next && at[(p, e)] < offsets[next])
    {
      assert IsPlaced(g, offsets, |parents|, at, p, e);
    }
  }

  /** An empty worklist has looked at every edge into a finite node. */
  lemma QueueIsDrained(g: Graph, w: Work, level: nat, offsets: seq<nat>, parents: seq<nat>, edgeAt: seq<(nat, nat)>,
                       at: map<(nat, nat), nat>)
    requires Invariant(g, w, level) && IsReverseGraph(g, offsets, parents, edgeAt, at)
    requires w.queue == [] || DoneUpTo(g, w.done, at, w.queue[..|w.queue| - 1], w.queue[|w.queue| - 1], offsets[w.queue[|w.queue| - 1] + 1])
    ensures Drained(g, w)
  {
    hide AreOffsets, IsFilled, Sound, Tight, AllRecorded, Counted, ExitsSeeded;
    forall p: nat, e: nat | IsInternalEdge(g, p, e) && w.Finite(g[p].children[e])
      ensures (p, e) in w.done
    {
      assert IsPlaced(g, offsets, |parents|, at, p, e);
      assert g[p].children[e] in w.queue;
      assert w.queue == w.queue[..|w.queue| - 1] + [w.queue[|w.queue| - 1]];
    }
  }

  method DrainQueue(g: Graph, offsets: array<nat>, parents: array<nat>, ghost edgeAt: seq<(nat, nat)>, ghost at: map<(nat, nat), nat>,
                    distance: array<nat>, unresolved: array<nat>, maxChild: array<nat>, seeds: seq<nat>) returns (queue: seq<nat>)
    requires distance != unresolved && distance != maxChild && unresolved != maxChild
    requires offsets !in {distance, unresolved, maxChild} && parents !in {distance, unresolved, maxChild}
    requires IsReverseGraph(g, offsets[..], parents[..], edgeAt, at)
    requires Invariant(g, Snapshot(distance, unresolved, maxChild, seeds, {}), 0)
    modifies distance, unresolved, maxChild
    ensures distance.Length == |g| && forall n: nat | n < |g| :: IsExitDistance(g, n, distance[n])
    ensures forall n: nat | n < |g| :: distance[n] <= |g| || distance[n] == DISTANCE_INFINITE
    ensures forall n: nat | n < |g| :: distance[n] != DISTANCE_INFINITE <==> n in queue
    ensures forall i: nat | i < |queue| :: queue[i] < |g|
    ensures forall i: nat, j: nat | i < j < |queue| :: queue[i] != queue[j] && distance[queue[i]] <= distance[queue[j]]
  {
    hide Invariant, IsReverseGraph, DoneUpTo, Drained;
    ghost var rows, entries := offsets[..], parents[..];
    queue := seeds;
    ghost var done: set<(nat, nat)> := {};
    var head := 0;
    ReverseShape(g, rows, entries, edgeAt, at);
    InvariantShape(g, Snapshot(distance, unresolved, maxChild, queue, done), 0);
    while head < |queue|
      invariant offsets[..] == rows && parents[..] == entries
      invariant head <= |queue| <= |g| == distance.Length
      invariant Invariant(g, Snapshot(distance, unresolved, maxChild, queue, done), LevelAt(distance[..], queue, head))
      invariant if head == 0 then done == {} else
                  && queue[head - 1] < |g| == |rows| - 1
                  && DoneUpTo(g, done, at, queue[..head - 1], queue[head - 1], rows[queue[head - 1] + 1])
      decreases |g| - head
    {
      ghost var w := Snapshot(distance, unresolved, maxChild, queue, done);
      InvariantShape(g, w, LevelAt(distance[..], queue, head));
      var child := queue[head];
      NextLevel(g, w, LevelAt(distance[..], queue, head), head);
      if head == 0 {
        FirstRow(g, rows, entries, edgeAt, at, child);
        assert queue[..head] == [];
      } else {
        RowIsDone(g, done, rows, entries, edgeAt, at, queue, head - 1, child);
      }
      ghost var before := queue;
      queue, done := VisitParents(g, offsets, parents, edgeAt, at, distance, unresolved, maxChild, queue, done, head, child);
      assert queue[..head] == before[..head] && queue[head] == child;
      head := head + 1;
      QueueBound(g, Snapshot(distance, unresolved, maxChild, queue, done), distance[child]);
    }
    ghost var w := Snapshot(distance, unresolved, maxChild, queue, done);
    QueueIsDrained(g, w, LevelAt(distance[..], queue, head), rows, entries, edgeAt, at);
    DrainedIsExact(g, w, LevelAt(distance[..], queue, head));
    DrainedQueue(g, w, LevelAt(distance[..], queue, head));
  }

  /** The distance of the node expanded last. */
  ghost function LevelAt(dist: seq<nat>, queue: seq<nat>, head: nat): nat {
    if 0 < head <= |queue| && queue[head - 1] < |dist| then dist[queue[head - 1]] else 0
  }

  lemma InvariantShape(g: Graph, w: Work, level: nat)
    requires Invariant(g, w, level)
    ensures Shape(g, w) && |w.queue| <= |g|
  {
    QueueIsShort(g, w);
  }

  lemma DrainedQueue(g: Graph, w: Work, level: nat)
    requires Invariant(g, w, level)
    ensures forall i: nat | i < |w.queue| :: w.queue[i] < |g|
    ensures forall n: nat | n < |g| :: w.dist[n] != DISTANCE_INFINITE <==> n in w.queue
    ensures forall n: nat | n < |g| :: w.dist[n] <= |g| || w.dist[n] == DISTANCE_INFINITE
    ensures forall i: nat, j: nat | i < j < |w.queue| ::
              w.queue[i] != w.queue[j] && w.dist[w.queue[i]] <= w.dist[w.queue[j]]
  {
    hide Sound, Tight, AllRecorded, Counted, ExitsSeeded;
    QueueIsShort(g, w);
    forall n: nat | n < |g|
      ensures w.dist[n] <= |g| || w.dist[n] == DISTANCE_INFINITE
    {
      assert w.Finite(n) ==> n in w.queue;
    }
  }

  ghost function FiniteNodes(dist: seq<nat>): set<nat> {
    set n: nat | n < |dist| && dist[n] != DISTANCE_INFINITE
  }

  lemma QueueCountsFinite(dist: seq<nat>, queue: seq<nat>)
    requires forall i: nat | i < |queue| :: queue[i] < |dist|
    requires forall i: nat, j: nat | i < j < |queue| :: queue[i] != queue[j]
    requires forall n: nat | n < |dist| :: dist[n] != DISTANCE_INFINITE <==> n in queue
    ensures |queue| == |FiniteNodes(dist)| && |queue| <= |dist|
  {
    DistinctFits(queue, FiniteNodes(dist));
    CoverIsLong(FiniteNodes(dist), queue);
    DistinctFits(queue, Below(|dist|));
  }

  // ----- the solver -----

  /** Succeeds exactly on the graphs without a defect, and then tabulates the min-max
      exit distance of every node. */
  method Solve(g: Graph) returns (r: Outcome)
    requires IsUint32Graph(g)
    ensures r.Solved? <==> |g| < EXIT_DISALLOWED && Countable(g)
    ensures r.Failed? ==> Explains(g, r.error)
    ensures r.Solved? ==>
              && ChildrenInRange(g) && |r.solution.distance| == |g|
              && (forall n: nat | n < |g| ::
                    && (r.solution.distance[n] <= |g| || r.solution.distance[n] == DISTANCE_INFINITE)
                    && IsExitDistance(g, n, r.solution.distance[n]))
              && r.solution.allowedInternalEdges == InternalCount(g, |g|, 0)
              && r.solution.finiteNodes == |FiniteNodes(r.solution.distance)|
              && r.solution.finiteNodes + r.solution.infiniteNodes == |g|
  {
    hide InternalCount, InDegree, OutDegree, Offset, IsReverseGraph, Invariant, IsExitDistance, AreOffsets;
    if |g| >= EXIT_DISALLOWED {
      return Failed(TooManyNodes);
    }
    var failure, reverseCounts, unresolved, hasAllowed, hasExit, internalEdges := CountEdges(g);
    if failure.Failed? {
      return failure;
    }
    var offsets := PrefixSums(g, reverseCounts, internalEdges);
    ghost var rows := offsets[..];
    forall c | 0 <= c < |g| {
      reverseCounts[c] := 0;
    }
    assert offsets[..] == rows;
    var parents, edgeAt, at := FillParents(g, offsets, reverseCounts, internalEdges);
    var distance := new nat[|g|](_ => DISTANCE_INFINITE);
    var maxChild := new nat[|g|](_ => 0);
    var queue := Seed(g, unresolved, hasAllowed, hasExit, distance);
    SeedInvariant(g, Snapshot(distance, unresolved, maxChild, queue, {}));
    queue := DrainQueue(g, offsets, parents, edgeAt, at, distance, unresolved, maxChild, queue);
    QueueCountsFinite(distance[..], queue);
    return Solved(Solution(distance[..], internalEdges, |queue|, |g| - |queue|));
  }

  method Seed(g: Graph, unresolved: array<nat>, hasAllowed: array<bool>, hasExit: array<bool>, distance: array<nat>)
    returns (queue: seq<nat>)
    requires unresolved.Length == hasAllowed.Length == hasExit.Length == distance.Length == |g|
    requires distance != unresolved
    requires forall p: nat | p < |g| :: RowCounted(g, p, |g[p].children|, unresolved[p], hasAllowed[p], hasExit[p])
    requires forall p: nat | p < |g| :: distance[p] == DISTANCE_INFINITE
    modifies distance
    ensures Seeded(g, distance[..], queue, |g|)
  {
    hide Seeded;
    queue := [];
    SeedStart(g, distance[..]);
    var node := 0;
    while node < |g|
      invariant node <= |g|
      invariant Seeded(g, distance[..], queue, node)
    {
      var immediatelyFinite := if g[node].gote then hasExit[node] else hasAllowed[node] && unresolved[node] == 0;
      SeedStep(g, distance[..], queue, node);
      if immediatelyFinite {
        ghost var before := distance[..];
        distance[node] := 1;
        assert distance[..] == before[node := 1];
        queue := queue + [node];
      }
      node := node + 1;
    }
  }

  lemma SeedStart(g: Graph, dist: seq<nat>)
    requires |dist| == |g| && forall p: nat | p < |g| :: dist[p] == DISTANCE_INFINITE
    ensures Seeded(g, dist, [], 0)
  {
  }

  // ----- move selection -----

  datatype MoveRecord = MoveRecord(move: nat, eval: int)

  const DROP_FLAG: nat := 0x4000
  const PROMOTE_FLAG: nat := 0x8000

  /** The sanity filter on a 16-bit stored move. */
  predicate PlausibleMove(raw: nat) {
    var to := raw % 128;
    var from := raw / 128 % 128;
    && raw != 0
    && to < 81
    && if raw / DROP_FLAG % 2 == 1 then raw / PROMOTE_FLAG % 2 == 0 && 1 <= from <= 7
       else from < 81 && from != to
  }

  /** How a move is stored. */
  function Stored(m: Shogi.Move): nat {
    match m
    case Drop(kind, to) => to + 128 * kind + DROP_FLAG
    case BoardMove(from, to, promotion) => to + 128 * from + if promotion then PROMOTE_FLAG else 0
  }

  /** A drop of a piece that can be held, or a move to another square. */
  predicate IsPlausible(m: Shogi.Move) {
    m.OnBoard() && match m case Drop(kind, to) => Shogi.IsHandPiece(kind) case BoardMove(from, to, promotion) => from != to
  }

  function Restored(raw: nat): Shogi.Move
    requires raw < 0x1_0000 && PlausibleMove(raw)
  {
    if raw / DROP_FLAG % 2 == 1 then Shogi.Drop(raw / 128 % 128, raw % 128)
    else Shogi.BoardMove(raw / 128 % 128, raw % 128, raw / PROMOTE_FLAG % 2 == 1)
  }

  /** The filter passes exactly the stored moves. */
  lemma {:induction false} PlausibleIsStored(raw: nat)
    requires raw < 0x1_0000
    ensures PlausibleMove(raw) <==> exists m: Shogi.Move :: IsPlausible(m) && Stored(m) == raw
  {
    if PlausibleMove(raw) {
      var m := Restored(raw);
      StoredBits(raw);
      assert IsPlausible(m) && Stored(m) == raw;
    }
    if m: Shogi.Move :| IsPlausible(m) && Stored(m) == raw {
      StoredIsPlausible(m);
    }
  }

  lemma StoredBits(raw: nat)
    requires raw < 0x1_0000
    ensures raw == raw % 128 + 128 * (raw / 128 % 128) + DROP_FLAG * (raw / DROP_FLAG % 2) + PROMOTE_FLAG * (raw / PROMOTE_FLAG % 2)
  {
  }

  lemma StoredIsPlausible(m: Shogi.Move)
    requires IsPlausible(m)
    ensures PlausibleMove(Stored(m))
  {
    var raw := Stored(m);
    match m
    case Drop(kind, to) =>
      assert raw % 128 == to && raw / 128 == kind + 128 && raw / DROP_FLAG == 1;
    case BoardMove(from, to, promotion) =>
      assert raw % 128 == to && raw / 128 == from + (if promotion then 256 else 0);
  }

  /** The order of the fallback choice: better evaluation, then smaller move. */
  predicate PreferredNormal(a: MoveRecord, b: MoveRecord) {
    a.eval > b.eval || (a.eval == b.eval && a.move <= b.move)
  }

  /** The order of the exit choice: shorter distance first. */
  predicate PreferredExit(da: nat, a: MoveRecord, db: nat, b: MoveRecord) {
    da < db || (da == db && PreferredNormal(a, b))
  }

  /** The children of implausible records are never followed. */
  ghost predicate IsAligned(g: Graph, book: seq<seq<MoveRecord>>) {
    && |book| == |g|
    && forall n: nat | n < |g| ::
         && |book[n]| == |g[n].children|
         && forall e: nat | e < |book[n]| && !PlausibleMove(book[n][e].move) :: g[n].children[e] == EXIT_DISALLOWED
  }

  ghost predicate IsCandidate(g: Graph, moves: seq<MoveRecord>, n: nat, e: nat) {
    IsEdge(g, n, e) && e < |moves| && PlausibleMove(moves[e].move) && g[n].children[e] != EXIT_DISALLOWED
  }

  /** The choice among the first `upTo` records: present iff there is a candidate, and
      then preferred to every candidate. */
  ghost predicate IsBestExit(g: Graph, distance: seq<nat>, moves: seq<MoveRecord>, n: nat, upTo: nat, best: Option<nat>)
    requires |distance| == |g|
  {
    match best
    case None => forall e: nat | e < upTo :: !IsCandidate(g, moves, n, e)
    case Some(b) =>
      && b < upTo && IsCandidate(g, moves, n, b)
      && forall e: nat | e < upTo && IsCandidate(g, moves, n, e) ::
           PreferredExit(DistanceVia(g, distance, n, b), moves[b], DistanceVia(g, distance, n, e), moves[e])
  }

  ghost predicate IsBestNormal(moves: seq<MoveRecord>, upTo: nat, best: Option<nat>) {
    match best
    case None => forall e: nat | e < upTo && e < |moves| :: !PlausibleMove(moves[e].move)
    case Some(b) =>
      && b < upTo && b < |moves| && PlausibleMove(moves[b].move)
      && forall e: nat | e < upTo && e < |moves| && PlausibleMove(moves[e].move) :: PreferredNormal(moves[b], moves[e])
  }

  lemma ExitStep(g: Graph, distance: seq<nat>, moves: seq<MoveRecord>, n: nat, local: nat, best: Option<nat>)
    requires |distance| == |g| && local < |moves|
    requires best.Some? ==> IsEdge(g, n, best.value) && best.value < |moves|
    requires IsBestExit(g, distance, moves, n, local, best)
    ensures !IsCandidate(g, moves, n, local) ==> IsBestExit(g, distance, moves, n, local + 1, best)
    ensures IsCandidate(g, moves, n, local) ==>
              if best.None? || !PreferredExit(DistanceVia(g, distance, n, best.value), moves[best.value],
                                              DistanceVia(g, distance, n, local), moves[local])
              then IsBestExit(g, distance, moves, n, local + 1, Some(local))
              else IsBestExit(g, distance, moves, n, local + 1, best)
  {
    hide PlausibleMove, DistanceVia;
  }

  lemma NormalStep(moves: seq<MoveRecord>, local: nat, best: Option<nat>)
    requires local < |moves| && IsBestNormal(moves, local, best) && (best.Some? ==> best.value < |moves|)
    ensures !PlausibleMove(moves[local].move) ==> IsBestNormal(moves, local + 1, best)
    ensures PlausibleMove(moves[local].move) ==>
              if best.None? || !PreferredNormal(moves[best.value], moves[local])
              then IsBestNormal(moves, local + 1, Some(local))
              else IsBestNormal(moves, local + 1, best)
  {
    hide PlausibleMove;
  }

  lemma AlignedRow(g: Graph, book: seq<seq<MoveRecord>>, n: nat)
    requires IsAligned(g, book) && n < |g|
    ensures |book[n]| == |g[n].children|
  {
  }

  lemma NoCandidates(g: Graph, moves: seq<MoveRecord>, n: nat)
    ensures |moves| == 0 ==> IsBestNormal(moves, 0, None) && forall e: nat :: !IsCandidate(g, moves, n, e)
  {
  }

  lemma SelectionStart(g: Graph, distance: seq<nat>, moves: seq<MoveRecord>, n: nat)
    requires |distance| == |g|
    ensures IsBestExit(g, distance, moves, n, 0, None) && IsBestNormal(moves, 0, None)
  {
  }

  /** A candidate means the choice is present. */
  lemma CandidateIsChosen(g: Graph, distance: seq<nat>, moves: seq<MoveRecord>, n: nat, best: Option<nat>)
    requires |distance| == |g| && IsBestExit(g, distance, moves, n, |moves|, best)
    ensures (exists e: nat :: IsCandidate(g, moves, n, e)) ==> best.Some?
  {
  }

  method SelectGoteMove(g: Graph, book: seq<seq<MoveRecord>>, distance: seq<nat>, n: nat) returns (r: Option<nat>)
    requires ChildrenInRange(g) && |g| < EXIT_DISALLOWED && IsAligned(g, book) && n < |g| == |distance| == |book|
    requires forall m: nat | m < |g| :: distance[m] < DISTANCE_INFINITE - 1 || distance[m] == DISTANCE_INFINITE
    requires forall m: nat, e: nat | m < |book| && e < |book[m]| :: -0x8000 <= book[m][e].eval < 0x8000
    ensures !g[n].gote ==> r == None
    ensures g[n].gote && distance[n] == DISTANCE_INFINITE ==> IsBestNormal(book[n], |book[n]|, r)
    ensures g[n].gote && distance[n] != DISTANCE_INFINITE && (exists e: nat :: IsCandidate(g, book[n], n, e)) ==>
              r.Some? && IsBestExit(g, distance, book[n], n, |book[n]|, r)
  {
    hide IsBestExit, IsBestNormal, PlausibleMove, IsAligned;
    var moves := book[n];
    assert |moves| == |g[n].children| by { AlignedRow(g, book, n); }
    if !g[n].gote || |moves| == 0 {
      NoCandidates(g, moves, n);
      return None;
    }
    var bestNormal: Option<nat>, bestExit: Option<nat> := None, None;
    var bestDistance, bestExitEval := DISTANCE_INFINITE, -0x8000_0000;
    var local: nat := 0;
    SelectionStart(g, distance, moves, n);
    while local < |moves|
      invariant local <= |moves|
      invariant IsBestNormal(moves, local, bestNormal)
      invariant bestNormal.Some? ==> bestNormal.value < |moves|
      invariant IsBestExit(g, distance, moves, n, local, bestExit)
      invariant bestExit.None? ==> bestDistance == DISTANCE_INFINITE && bestExitEval == -0x8000_0000
      invariant bestExit.Some? ==>
                  && IsEdge(g, n, bestExit.value) && bestExit.value < |moves|
                  && bestDistance == DistanceVia(g, distance, n, bestExit.value)
                  && bestExitEval == moves[bestExit.value].eval
    {
      var record := moves[local];
      NormalStep(moves, local, bestNormal);
      ExitStep(g, distance, moves, n, local, bestExit);
      if PlausibleMove(record.move) {
        if bestNormal == None {
          bestNormal := Some(local);
        } else {
          var current := moves[bestNormal.value];
          if record.eval > current.eval || (record.eval == current.eval && record.move < current.move) {
            bestNormal := Some(local);
          }
        }
        assert IsEdge(g, n, local);
        var child := g[n].children[local];
        if child != EXIT_DISALLOWED {
          var d := DISTANCE_INFINITE;
          if child == EXIT_LEAF {
            d := 1;
          } else if child < |g| && distance[child] != DISTANCE_INFINITE {
            d := distance[child] + 1;
          }
          if d < bestDistance
             || (d == bestDistance
                 && (record.eval > bestExitEval
                     || (record.eval == bestExitEval && bestExit.Some? && record.move < moves[bestExit.value].move)))
          {
            bestExit := Some(local);
            bestDistance := d;
            bestExitEval := record.eval;
          }
        }
      }
      local := local + 1;
    }
    CandidateIsChosen(g, distance, moves, n, bestExit);
    if distance[n] != DISTANCE_INFINITE && bestExit.Some? {
      return bestExit;
    }
    return bestNormal;
  }

  /** At a Gote node of finite distance the selected move realises that distance: it is
      the greedy choice that exits on time against every Sente reply. */
  lemma {:induction false} SelectedMoveIsGreedy(g: Graph, book: seq<seq<MoveRecord>>, distance: seq<nat>, n: nat, r: Option<nat>)
    requires IsUint32Graph(g) && ChildrenInRange(g) && |g| < EXIT_DISALLOWED && IsAligned(g, book) && n < |g| == |distance|
    requires forall m: nat | m < |g| :: IsExitDistance(g, m, distance[m])
    requires g[n].gote && distance[n] != DISTANCE_INFINITE
    requires (exists e: nat :: IsCandidate(g, book[n], n, e)) ==>
               r.Some? && IsBestExit(g, distance, book[n], n, |book[n]|, r)
    ensures r.Some? && IsEdge(g, n, r.value) && g[n].children[r.value] != EXIT_DISALLOWED
    ensures DistanceVia(g, distance, n, r.value) <= distance[n]
  {
    assert Forces(g, n, distance[n]);
    var e: nat :| IsEdge(g, n, e) && ForcesVia(g, n, e, distance[n] - 1);
    var c := g[n].children[e];
    assert IsCandidate(g, book[n], n, e);
    if c != EXIT_LEAF {
      assert IsExitDistance(g, c, distance[c]);
      assert Forces(g, c, distance[n] - 1);
    }
    assert DistanceVia(g, distance, n, e) <= distance[n];
  }

  /** Always playing the selected move leaves the book within the tabulated number of
      plies, and no strategy does better. */
  lemma {:induction false} SelectedStrategyIsOptimal(g: Graph, book: seq<seq<MoveRecord>>, distance: seq<nat>, s: Strategy, n: nat)
    requires IsUint32Graph(g) && ChildrenInRange(g) && |g| < EXIT_DISALLOWED && IsAligned(g, book) && n < |g| == |distance|
    requires forall m: nat | m < |g| :: distance[m] <= DISTANCE_INFINITE && IsExitDistance(g, m, distance[m])
    requires forall h: seq<nat> | |h| > 0 && h[|h| - 1] < |g| && g[h[|h| - 1]].gote && distance[h[|h| - 1]] != DISTANCE_INFINITE ::
               var m := h[|h| - 1];
               (exists e: nat :: IsCandidate(g, book[m], m, e)) ==>
                 IsBestExit(g, distance, book[m], m, |book[m]|, Some(s(h)))
    ensures distance[n] != DISTANCE_INFINITE ==> StrategyExits(g, s, [n], distance[n])
    ensures forall other: Strategy, k: nat | StrategyExits(g, other, [n], k) :: distance[n] != DISTANCE_INFINITE && distance[n] <= k
  {
    if distance[n] != DISTANCE_INFINITE {
      forall h: seq<nat> | |h| > 0 && h[|h| - 1] < |g| && g[h[|h| - 1]].gote && distance[h[|h| - 1]] != DISTANCE_INFINITE
        ensures
          && IsEdge(g, h[|h| - 1], s(h))
          && g[h[|h| - 1]].children[s(h)] != EXIT_DISALLOWED
          && DistanceVia(g, distance, h[|h| - 1], s(h)) <= distance[h[|h| - 1]]
      {
        SelectedMoveIsGreedy(g, book, distance, h[|h| - 1], Some(s(h)));
      }
      GreedyStrategyExits(g, distance, s, [n], distance[n]);
    }
    forall other: Strategy, k: nat | StrategyExits(g, other, [n], k)
      ensures distance[n] != DISTANCE_INFINITE && distance[n] <= k
    {
      StrategyNeverBeatsForces(g, other, [n], k);
      assert IsExitDistance(g, n, distance[n]);
    }
  }
}
