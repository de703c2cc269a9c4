/** The book-exit game: Gote (OR) tries to leave the book, Sente (AND) tries to
    stay in it. This module is the specification the retrograde solver and the
    move selection are proved against. */
module ExitGame {

  // Sentinels stored in place of a child index.
  const EXIT_LEAF: nat := 0xFFFF_FFFF
  const EXIT_DISALLOWED: nat := 0xFFFF_FFFE
  const DISTANCE_INFINITE: nat := 0xFFFF_FFFF
  const UINT32_LIMIT: nat := 0x1_0000_0000

  datatype Node = Node(gote: bool, children: seq<nat>)

  type Graph = seq<Node>

  predicate IsEdge(g: Graph, p: nat, e: nat) {
    p < |g| && e < |g[p].children|
  }

  predicate IsInternalEdge(g: Graph, p: nat, e: nat) {
    IsEdge(g, p, e) && g[p].children[e] < EXIT_DISALLOWED
  }

  /** What the element types guarantee: counts and entries are 32-bit. */
  ghost predicate IsUint32Graph(g: Graph) {
    forall p: nat | p < |g| ::
      && |g[p].children| < UINT32_LIMIT
      && forall e: nat | e < |g[p].children| :: g[p].children[e] < UINT32_LIMIT
  }

  /** Every internal edge leads to a node of the graph. */
  ghost predicate ChildrenInRange(g: Graph) {
    forall p: nat, e: nat | IsInternalEdge(g, p, e) :: g[p].children[e] < |g|
  }

  /** Gote can force an exit from `n` within `k` plies. An edge to a leaf uses one
      ply; a Sente node without an allowed move never exits. */
  ghost predicate Forces(g: Graph, n: nat, k: nat)
    requires ChildrenInRange(g) && n < |g|
    decreases k, 0
  {
    k > 0 &&
    if g[n].gote then
      exists e: nat :: IsEdge(g, n, e) && ForcesVia(g, n, e, k - 1)
    else
      && (exists e: nat :: IsEdge(g, n, e) && g[n].children[e] != EXIT_DISALLOWED)
      && (forall e: nat | IsEdge(g, n, e) && g[n].children[e] != EXIT_DISALLOWED :: ForcesVia(g, n, e, k - 1))
  }

  ghost predicate ForcesVia(g: Graph, n: nat, e: nat, k: nat)
    requires ChildrenInRange(g) && IsEdge(g, n, e)
    decreases k, 1
  {
    var c := g[n].children[e];
    c == EXIT_LEAF || (IsInternalEdge(g, n, e) && Forces(g, c, k))
  }

  lemma {:induction false} ForcesMonotone(g: Graph, n: nat, k: nat, m: nat)
    requires ChildrenInRange(g) && n < |g| && k <= m && Forces(g, n, k)
    ensures Forces(g, n, m)
    decreases k
  {
    forall e: nat | IsEdge(g, n, e) && ForcesVia(g, n, e, k - 1)
      ensures ForcesVia(g, n, e, m - 1)
    {
      if g[n].children[e] != EXIT_LEAF {
        ForcesMonotone(g, g[n].children[e], k - 1, m - 1);
      }
    }
  }

  /** `d` is the min-max number of plies to an exit, or infinite when Gote cannot
      force one at all. */
  ghost predicate IsExitDistance(g: Graph, n: nat, d: nat)
    requires ChildrenInRange(g) && n < |g|
  {
    if d == DISTANCE_INFINITE then forall k: nat :: !Forces(g, n, k)
    else forall k: nat :: Forces(g, n, k) <==> d <= k
  }

  // ----- strategies -----

  /** A Gote strategy sees the whole history of visited nodes and names an edge. */
  type Strategy = seq<nat> -> nat

  /** Following `s`, Gote leaves the book within `k` plies of `history`, whatever
      Sente answers. */
  ghost predicate StrategyExits(g: Graph, s: Strategy, history: seq<nat>, k: nat)
    requires ChildrenInRange(g) && |history| > 0 && history[|history| - 1] < |g|
    decreases k, 0
  {
    var n := history[|history| - 1];
    k > 0 &&
    if g[n].gote then
      IsEdge(g, n, s(history)) && StrategyExitsVia(g, s, history, s(history), k - 1)
    else
      && (exists e: nat :: IsEdge(g, n, e) && g[n].children[e] != EXIT_DISALLOWED)
      && (forall e: nat | IsEdge(g, n, e) && g[n].children[e] != EXIT_DISALLOWED ::
            StrategyExitsVia(g, s, history, e, k - 1))
  }

  ghost predicate StrategyExitsVia(g: Graph, s: Strategy, history: seq<nat>, e: nat, k: nat)
    requires ChildrenInRange(g) && |history| > 0 && IsEdge(g, history[|history| - 1], e)
    decreases k, 1
  {
    var n := history[|history| - 1];
    var c := g[n].children[e];
    c == EXIT_LEAF || (IsInternalEdge(g, n, e) && StrategyExits(g, s, history + [c], k))
  }

  /** No strategy, even one that remembers the whole game, beats the min-max value. */
  lemma {:induction false} StrategyNeverBeatsForces(g: Graph, s: Strategy, history: seq<nat>, k: nat)
    requires ChildrenInRange(g) && |history| > 0 && history[|history| - 1] < |g|
    requires StrategyExits(g, s, history, k)
    ensures Forces(g, history[|history| - 1], k)
    decreases k
  {
    var n := history[|history| - 1];
    forall e: nat | IsEdge(g, n, e) && StrategyExitsVia(g, s, history, e, k - 1)
      ensures ForcesVia(g, n, e, k - 1)
    {
      var c := g[n].children[e];
      if c != EXIT_LEAF {
        StrategyNeverBeatsForces(g, s, history + [c], k - 1);
      }
    }
  }

  /** The number of plies an edge costs according to a distance table. */
  function DistanceVia(g: Graph, distance: seq<nat>, n: nat, e: nat): nat
    requires IsEdge(g, n, e) && |distance| == |g|
  {
    var c := g[n].children[e];
    if c == EXIT_LEAF then 1
    else if c < |g| && distance[c] != DISTANCE_INFINITE then distance[c] + 1
    else DISTANCE_INFINITE
  }

  /** A strategy that always plays an allowed edge of minimal table distance exits
      within the tabulated number of plies against every Sente reply. */
  lemma {:induction false} GreedyStrategyExits(g: Graph, distance: seq<nat>, s: Strategy, history: seq<nat>, k: nat)
    requires ChildrenInRange(g) && |g| < EXIT_DISALLOWED && |history| > 0 && history[|history| - 1] < |g|
    requires |distance| == |g|
    requires forall n: nat | n < |g| :: distance[n] <= DISTANCE_INFINITE && IsExitDistance(g, n, distance[n])
    requires forall h: seq<nat> | |h| > 0 && h[|h| - 1] < |g| && g[h[|h| - 1]].gote && distance[h[|h| - 1]] != DISTANCE_INFINITE ::
               && IsEdge(g, h[|h| - 1], s(h))
               && g[h[|h| - 1]].children[s(h)] != EXIT_DISALLOWED
               && DistanceVia(g, distance, h[|h| - 1], s(h)) <= distance[h[|h| - 1]]
    requires distance[history[|history| - 1]] <= k && distance[history[|history| - 1]] != DISTANCE_INFINITE
    ensures StrategyExits(g, s, history, k)
    decreases k
  {
    var n := history[|history| - 1];
    assert Forces(g, n, distance[n]);
    if g[n].gote {
      var e := s(history);
      var c := g[n].children[e];
      assert IsExitDistance(g, n, distance[n]);
      if c != EXIT_LEAF {
        assert (history + [c])[|history + [c]| - 1] == c;
        assert DistanceVia(g, distance, n, e) == distance[c] + 1;
        GreedyStrategyExits(g, distance, s, history + [c], k - 1);
      }
    } else {
      forall e: nat | IsEdge(g, n, e) && g[n].children[e] != EXIT_DISALLOWED
        ensures StrategyExitsVia(g, s, history, e, k - 1)
      {
        var c := g[n].children[e];
        if c != EXIT_LEAF {
          assert ForcesVia(g, n, e, distance[n] - 1);
          assert Forces(g, c, distance[n] - 1);
          assert IsExitDistance(g, c, distance[c]);
          assert (history + [c])[|history + [c]| - 1] == c;
          GreedyStrategyExits(g, distance, s, history + [c], k - 1);
        }
      }
    }
  }

  ghost predicate StaysInfinite(g: Graph, distance: seq<nat>, n: nat, e: nat)
    requires ChildrenInRange(g) && |distance| == |g|
  {
    IsInternalEdge(g, n, e) && distance[g[n].children[e]] == DISTANCE_INFINITE
  }

  /** From a node of infinite distance every allowed Gote edge stays on infinite nodes, and
      Sente always has an edge that does (or no allowed edge at all). */
  lemma {:induction false} InfiniteStaysInfinite(g: Graph, distance: seq<nat>, n: nat)
    requires IsUint32Graph(g) && ChildrenInRange(g) && |distance| == |g| && n < |g|
    requires forall m: nat | m < |g| :: IsExitDistance(g, m, distance[m])
    requires distance[n] == DISTANCE_INFINITE
    ensures g[n].gote ==>
              forall e: nat | IsEdge(g, n, e) && g[n].children[e] != EXIT_DISALLOWED :: StaysInfinite(g, distance, n, e)
    ensures !g[n].gote ==>
              || (forall e: nat | IsEdge(g, n, e) :: g[n].children[e] == EXIT_DISALLOWED)
              || (exists e: nat :: StaysInfinite(g, distance, n, e))
  {
    if g[n].gote {
      forall e: nat | IsEdge(g, n, e) && g[n].children[e] != EXIT_DISALLOWED
        ensures StaysInfinite(g, distance, n, e)
      {
        var c := g[n].children[e];
        assert IsInternalEdge(g, n, e) && distance[c] != DISTANCE_INFINITE ==>
            IsExitDistance(g, c, distance[c]) && Forces(g, c, distance[c]);
        GoteEdgeForces(g, n, e, if IsInternalEdge(g, n, e) then distance[g[n].children[e]] else 0);
      }
    } else {
      SenteEdgesForce(g, distance, n);
      assert forall e: nat | IsInternalEdge(g, n, e) && distance[g[n].children[e]] == DISTANCE_INFINITE :: StaysInfinite(g, distance, n, e);
    }
  }

  // ----- staying in the book -----

  /** Following `s`, Sente keeps the play in the book for `k` plies after `history`, or until it
      ends there for want of an allowed move, whatever Gote answers. */
  ghost predicate Stays(g: Graph, s: Strategy, history: seq<nat>, k: nat)
    requires ChildrenInRange(g) && |history| > 0 && history[|history| - 1] < |g|
    decreases k, 0
  {
    var n := history[|history| - 1];
    k == 0 ||
    if g[n].gote then
      forall e: nat | IsEdge(g, n, e) && g[n].children[e] != EXIT_DISALLOWED :: StaysVia(g, s, history, e, k - 1)
    else
      || (forall e: nat | IsEdge(g, n, e) :: g[n].children[e] == EXIT_DISALLOWED)
      || (IsEdge(g, n, s(history)) && StaysVia(g, s, history, s(history), k - 1))
  }

  ghost predicate StaysVia(g: Graph, s: Strategy, history: seq<nat>, e: nat, k: nat)
    requires ChildrenInRange(g) && |history| > 0 && IsEdge(g, history[|history| - 1], e)
    decreases k, 1
  {
    var n := history[|history| - 1];
    IsInternalEdge(g, n, e) && Stays(g, s, history + [g[n].children[e]], k)
  }

  /** The edge to stay on infinite nodes by. */
  ghost function StayingEdge(g: Graph, distance: seq<nat>, n: nat): nat
    requires ChildrenInRange(g) && |distance| == |g|
  {
    if e: nat :| StaysInfinite(g, distance, n, e) then e else 0
  }

  ghost function StayingStrategy(g: Graph, distance: seq<nat>): Strategy
    requires ChildrenInRange(g) && |distance| == |g|
  {
    (h: seq<nat>) => if h == [] then 0 else StayingEdge(g, distance, h[|h| - 1])
  }

  lemma {:induction false} StayingStrategyStays(g: Graph, distance: seq<nat>, history: seq<nat>, k: nat)
    requires IsUint32Graph(g) && ChildrenInRange(g) && |distance| == |g|
    requires forall m: nat | m < |g| :: IsExitDistance(g, m, distance[m])
    requires |history| > 0 && history[|history| - 1] < |g| && distance[history[|history| - 1]] == DISTANCE_INFINITE
    ensures Stays(g, StayingStrategy(g, distance), history, k)
    decreases k
  {
    hide IsExitDistance, IsUint32Graph, ChildrenInRange;
    var n := history[|history| - 1];
    if k > 0 {
      InfiniteStaysInfinite(g, distance, n);
      forall e: nat | StaysInfinite(g, distance, n, e)
        ensures StaysVia(g, StayingStrategy(g, distance), history, e, k - 1)
      {
        InternalChild(g, n, e);
        StayingStrategyStays(g, distance, history + [g[n].children[e]], k - 1);
      }
      if !g[n].gote && exists e: nat :: IsEdge(g, n, e) && g[n].children[e] != EXIT_DISALLOWED {
        var e: nat :| StaysInfinite(g, distance, n, e);
        assert StaysInfinite(g, distance, n, StayingEdge(g, distance, n));
      }
    }
  }

  lemma InternalChild(g: Graph, n: nat, e: nat)
    requires ChildrenInRange(g) && IsInternalEdge(g, n, e)
    ensures g[n].children[e] < |g|
  {
  }

  ghost predicate StaysForever(g: Graph, s: Strategy, n: nat)
    requires ChildrenInRange(g) && n < |g|
  {
    forall k: nat :: Stays(g, s, [n], k)
  }

  /** A node of infinite distance is one where Sente has a strategy that keeps the play in the
      book for ever, against whatever Gote answers. */
  lemma {:induction false} InfiniteNodesAreATrap(g: Graph, distance: seq<nat>, n: nat)
    requires IsUint32Graph(g) && ChildrenInRange(g) && |distance| == |g| && n < |g|
    requires forall m: nat | m < |g| :: IsExitDistance(g, m, distance[m])
    ensures distance[n] == DISTANCE_INFINITE <==> exists s: Strategy :: StaysForever(g, s, n)
  {
    if distance[n] == DISTANCE_INFINITE {
      forall k: nat
        ensures Stays(g, StayingStrategy(g, distance), [n], k)
      {
        StayingStrategyStays(g, distance, [n], k);
      }
      assert StaysForever(g, StayingStrategy(g, distance), n);
    } else {
      forall s: Strategy
        ensures !StaysForever(g, s, n)
      {
        assert IsExitDistance(g, n, distance[n]);
        ForcedExitsHappen(g, s, [n], distance[n]);
      }
    }
  }

  /** No strategy of Sente outlasts a forced exit. */
  lemma {:induction false} ForcedExitsHappen(g: Graph, s: Strategy, history: seq<nat>, k: nat)
    requires ChildrenInRange(g) && |history| > 0 && history[|history| - 1] < |g| && Forces(g, history[|history| - 1], k)
    ensures !Stays(g, s, history, k)
    decreases k
  {
    var n := history[|history| - 1];
    forall e: nat | IsEdge(g, n, e) && ForcesVia(g, n, e, k - 1)
      ensures !StaysVia(g, s, history, e, k - 1)
    {
      if IsInternalEdge(g, n, e) {
        ForcedExitsHappen(g, s, history + [g[n].children[e]], k - 1);
      }
    }
    if g[n].gote {
      var e: nat :| IsEdge(g, n, e) && ForcesVia(g, n, e, k - 1);
      assert g[n].children[e] != EXIT_DISALLOWED;
    }
  }

  lemma GoteEdgeForces(g: Graph, n: nat, e: nat, k: nat)
    requires ChildrenInRange(g) && IsEdge(g, n, e) && g[n].gote
    ensures ForcesVia(g, n, e, k) ==> Forces(g, n, k + 1)
  {
  }

  lemma SenteEdgesForce(g: Graph, distance: seq<nat>, n: nat)
    requires IsUint32Graph(g) && ChildrenInRange(g) && |distance| == |g| && n < |g| && !g[n].gote
    requires forall m: nat | m < |g| :: IsExitDistance(g, m, distance[m])
    ensures
      && (exists e: nat :: IsEdge(g, n, e) && g[n].children[e] != EXIT_DISALLOWED)
      && (forall e: nat | IsInternalEdge(g, n, e) :: distance[g[n].children[e]] != DISTANCE_INFINITE)
      ==> Forces(g, n, MaxDistance(distance) + 1)
  {
    if forall e: nat | IsInternalEdge(g, n, e) :: distance[g[n].children[e]] != DISTANCE_INFINITE {
      forall e: nat | IsEdge(g, n, e) && g[n].children[e] != EXIT_DISALLOWED
        ensures ForcesVia(g, n, e, MaxDistance(distance))
      {
        var c := g[n].children[e];
        if c != EXIT_LEAF {
          MaxDistanceBounds(distance, c);
          assert IsExitDistance(g, c, distance[c]);
          ForcesMonotone(g, c, distance[c], MaxDistance(distance));
        }
      }
    }
  }

  ghost function MaxDistance(distance: seq<nat>): nat {
    if distance == [] then 0
    else
      var m := MaxDistance(distance[1..]);
      if distance[0] > m then distance[0] else m
  }

  lemma MaxDistanceBounds(distance: seq<nat>, c: nat)
    requires c < |distance|
    ensures distance[c] <= MaxDistance(distance)
  {
    if c > 0 {
      MaxDistanceBounds(distance[1..], c - 1);
    }
  }
}
