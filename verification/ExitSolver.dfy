/** The retrograde solver for the book-exit game: degree counting, a reverse graph
    in compressed rows filled by counting sort, and an attractor worklist. */
module ExitSolver {
  import opened ExitGame

  datatype Error = TooManyNodes | ChildOutOfRange | ReverseDegreeOverflow

  datatype Solution = Solution(distance: seq<nat>, allowedInternalEdges: nat, finiteNodes: nat, infiniteNodes: nat)

  datatype Outcome = Solved(solution: Solution) | Failed(error: Error)

  // ----- counting edges in scan order -----

  /** The scan visits the edges row by row; (p, e) is the next edge to look at. */
  ghost predicate IsCursor(g: Graph, p: nat, e: nat) {
    p <= |g| && if p == |g| then e == 0 else e <= |g[p].children|
  }

  ghost predicate Before(p': nat, e': nat, p: nat, e: nat) {
    p' < p || (p' == p && e' < e)
  }

  ghost function InDegree(g: Graph, p: nat, e: nat, c: nat): nat
    requires IsCursor(g, p, e)
    decreases p, e
  {
    if e > 0 then InDegree(g, p, e - 1, c) + if g[p].children[e - 1] == c then 1 else 0
    else if p > 0 then InDegree(g, p - 1, |g[p - 1].children|, c)
    else 0
  }

  ghost function InternalCount(g: Graph, p: nat, e: nat): nat
    requires IsCursor(g, p, e)
    decreases p, e
  {
    if e > 0 then InternalCount(g, p, e - 1) + if g[p].children[e - 1] < EXIT_DISALLOWED then 1 else 0
    else if p > 0 then InternalCount(g, p - 1, |g[p - 1].children|)
    else 0
  }

  ghost function OutDegree(g: Graph, p: nat, e: nat): nat
    requires p < |g| && e <= |g[p].children|
    ensures OutDegree(g, p, e) <= e
  {
    if e == 0 then 0
    else OutDegree(g, p, e - 1) + if g[p].children[e - 1] < EXIT_DISALLOWED then 1 else 0
  }

  /** The total number of internal edges into `c`. */
  ghost function TotalInDegree(g: Graph, c: nat): nat {
    InDegree(g, |g|, 0, c)
  }

  lemma {:induction false} InDegreeMonotone(g: Graph, p: nat, e: nat, q: nat, f: nat, c: nat)
    requires IsCursor(g, p, e) && IsCursor(g, q, f) && (Before(p, e, q, f) || (p == q && e == f))
    ensures InDegree(g, p, e, c) <= InDegree(g, q, f, c)
    decreases q, f
  {
    if p == q && e == f {
    } else if f > 0 {
      InDegreeMonotone(g, p, e, q, f - 1, c);
    } else {
      InDegreeMonotone(g, p, e, q - 1, |g[q - 1].children|, c);
    }
  }

  lemma NextInDegreeWithinTotal(g: Graph, p: nat, e: nat)
    requires IsInternalEdge(g, p, e)
    ensures InDegree(g, p, e, g[p].children[e]) < TotalInDegree(g, g[p].children[e])
  {
    InDegreeMonotone(g, p, e + 1, |g|, 0, g[p].children[e]);
  }

  /** The offset of row `m` in the reverse graph. */
  ghost function Offset(g: Graph, p: nat, e: nat, m: nat): nat
    requires IsCursor(g, p, e)
  {
    if m == 0 then 0 else Offset(g, p, e, m - 1) + InDegree(g, p, e, m - 1)
  }

  lemma {:induction false} OffsetStep(g: Graph, p: nat, e: nat, m: nat)
    requires IsEdge(g, p, e)
    ensures Offset(g, p, e + 1, m) == Offset(g, p, e, m) + if g[p].children[e] < m then 1 else 0
  {
    if m > 0 {
      OffsetStep(g, p, e, m - 1);
    }
  }

  lemma {:induction false} OffsetNextRow(g: Graph, p: nat, m: nat)
    requires p < |g|
    ensures Offset(g, p + 1, 0, m) == Offset(g, p, |g[p].children|, m)
  {
    if m > 0 {
      OffsetNextRow(g, p, m - 1);
    }
  }

  lemma {:induction false} OffsetsCountInternalEdges(g: Graph, p: nat, e: nat)
    requires IsCursor(g, p, e) && ChildrenInRange(g) && |g| <= EXIT_DISALLOWED
    ensures Offset(g, p, e, |g|) == InternalCount(g, p, e)
    decreases p, e
  {
    if e > 0 {
      OffsetsCountInternalEdges(g, p, e - 1);
      OffsetStep(g, p, e - 1, |g|);
      assert IsInternalEdge(g, p, e - 1) <==> g[p].children[e - 1] < EXIT_DISALLOWED;
    } else if p > 0 {
      OffsetsCountInternalEdges(g, p - 1, |g[p - 1].children|);
      OffsetNextRow(g, p - 1, |g|);
    } else {
      EmptyOffset(g, |g|);
    }
  }

  lemma {:induction false} EmptyOffset(g: Graph, m: nat)
    ensures Offset(g, 0, 0, m) == 0
  {
    if m > 0 {
      EmptyOffset(g, m - 1);
    }
  }

  lemma {:induction false} OffsetMonotone(g: Graph, m: nat, k: nat)
    requires m < k
    ensures Offset(g, |g|, 0, m) + TotalInDegree(g, m) <= Offset(g, |g|, 0, k)
  {
    if m + 1 < k {
      OffsetMonotone(g, m, k - 1);
    }
  }

  lemma OffsetSuccessor(g: Graph, m: nat)
    ensures Offset(g, |g|, 0, m + 1) == Offset(g, |g|, 0, m) + TotalInDegree(g, m)
  {
  }

  lemma OffsetBase(g: Graph)
    ensures Offset(g, |g|, 0, 0) == 0
  {
  }

  lemma OffsetsBounded(g: Graph)
    ensures forall c: nat | c <= |g| :: Offset(g, |g|, 0, c) <= Offset(g, |g|, 0, |g|)
  {
    forall c: nat | c < |g|
      ensures Offset(g, |g|, 0, c) <= Offset(g, |g|, 0, |g|)
    {
      OffsetMonotone(g, c, |g|);
    }
  }

  // ----- first pass -----

  ghost predicate HasAllowedEdge(g: Graph, p: nat, upTo: nat) {
    exists e: nat :: e < upTo && IsEdge(g, p, e) && g[p].children[e] != EXIT_DISALLOWED
  }

  ghost predicate HasExitEdge(g: Graph, p: nat, upTo: nat) {
    exists e: nat :: e < upTo && IsEdge(g, p, e) && g[p].children[e] == EXIT_LEAF
  }

  /** The inputs on which the first pass does not throw. */
  ghost predicate Countable(g: Graph) {
    && ChildrenInRange(g)
    && forall c: nat | c < |g| :: TotalInDegree(g, c) < UINT32_LIMIT
  }

  /** The defect of the graph that an exception reports. */
  ghost predicate Explains(g: Graph, error: Error) {
    match error
    case TooManyNodes => |g| >= EXIT_DISALLOWED
    case ChildOutOfRange => !ChildrenInRange(g)
    case ReverseDegreeOverflow => exists c: nat :: c < |g| && TotalInDegree(g, c) >= UINT32_LIMIT
  }

  lemma CountStep(g: Graph, p: nat, e: nat)
    requires IsEdge(g, p, e)
    ensures InternalCount(g, p, e + 1) == InternalCount(g, p, e) + if g[p].children[e] < EXIT_DISALLOWED then 1 else 0
    ensures forall c :: InDegree(g, p, e + 1, c) == InDegree(g, p, e, c) + if g[p].children[e] == c then 1 else 0
  {
  }

  /** What the first pass knows about row `p` once its first `upTo` edges are scanned. */
  ghost predicate RowCounted(g: Graph, p: nat, upTo: nat, unresolved: nat, hasAllowed: bool, hasExit: bool)
    requires p < |g| && upTo <= |g[p].children|
  {
    && unresolved == (if g[p].gote then 0 else OutDegree(g, p, upTo))
    && hasAllowed == HasAllowedEdge(g, p, upTo)
    && hasExit == HasExitEdge(g, p, upTo)
  }

  lemma RowStep(g: Graph, p: nat, e: nat, unresolved: nat, hasAllowed: bool, hasExit: bool)
    requires IsUint32Graph(g) && IsEdge(g, p, e) && RowCounted(g, p, e, unresolved, hasAllowed, hasExit)
    ensures var c := g[p].children[e];
            RowCounted(g, p, e + 1, unresolved + (if c < EXIT_DISALLOWED && !g[p].gote then 1 else 0),
                       hasAllowed || c != EXIT_DISALLOWED, hasExit || c == EXIT_LEAF)
  {
  }

  /** The scan of one row. */
  method CountRow(g: Graph, node: nat, reverseCounts: array<nat>, unresolved: array<nat>,
                  hasAllowed: array<bool>, hasExit: array<bool>, before: nat) returns (failure: Outcome, internalEdges: nat)
    requires IsUint32Graph(g) && |g| < EXIT_DISALLOWED && node < |g|
    requires reverseCounts.Length == unresolved.Length == hasAllowed.Length == hasExit.Length == |g|
    requires reverseCounts != unresolved && hasAllowed != hasExit
    requires unresolved[node] == 0 && !hasAllowed[node] && !hasExit[node]
    requires forall c: nat | c < |g| :: reverseCounts[c] == InDegree(g, node, 0, c) < UINT32_LIMIT
    requires before == InternalCount(g, node, 0)
    modifies reverseCounts, unresolved, hasAllowed, hasExit
    ensures forall p: nat | p < |g| && p != node ::
              unresolved[p] == old(unresolved[p]) && hasAllowed[p] == old(hasAllowed[p]) && hasExit[p] == old(hasExit[p])
    ensures failure.Failed? ==> Explains(g, failure.error)
    ensures failure.Solved? ==>
              && internalEdges == InternalCount(g, node, |g[node].children|)
              && (forall c: nat | c < |g| :: reverseCounts[c] == InDegree(g, node, |g[node].children|, c) < UINT32_LIMIT)
              && (forall e: nat | IsInternalEdge(g, node, e) :: g[node].children[e] < |g|)
              && RowCounted(g, node, |g[node].children|, unresolved[node], hasAllowed[node], hasExit[node])
  {
    failure := Solved(Solution([], 0, 0, 0));
    internalEdges := before;
    var edge := 0;
    while edge < |g[node].children|
      invariant edge <= |g[node].children|
      invariant forall c: nat | c < |g| :: reverseCounts[c] == InDegree(g, node, edge, c) < UINT32_LIMIT
      invariant internalEdges == InternalCount(g, node, edge)
      invariant forall e: nat | e < edge && IsInternalEdge(g, node, e) :: g[node].children[e] < |g|
      invariant RowCounted(g, node, edge, unresolved[node], hasAllowed[node], hasExit[node])
      invariant forall p: nat | p < |g| && p != node ::
                  unresolved[p] == old(unresolved[p]) && hasAllowed[p] == old(hasAllowed[p]) && hasExit[p] == old(hasExit[p])
    {
      var child := g[node].children[edge];
      CountStep(g, node, edge);
      RowStep(g, node, edge, unresolved[node], hasAllowed[node], hasExit[node]);
      if child != EXIT_DISALLOWED {
        hasAllowed[node] := true;
        if child == EXIT_LEAF {
          hasExit[node] := true;
        } else {
          assert IsInternalEdge(g, node, edge);
          if child >= |g| {
            failure := Failed(ChildOutOfRange);
            return;
          }
          if reverseCounts[child] == UINT32_LIMIT - 1 {
            NextInDegreeWithinTotal(g, node, edge);
            failure := Failed(ReverseDegreeOverflow);
            return;
          }
          reverseCounts[child] := reverseCounts[child] + 1;
          internalEdges := internalEdges + 1;
          if !g[node].gote {
            // A row has fewer than 2^32 edges, so the out-degree cannot overflow here.
            assert unresolved[node] < UINT32_LIMIT - 1;
            unresolved[node] := unresolved[node] + 1;
          }
        }
      }
      assert IsInternalEdge(g, node, edge) ==> child < |g|;
      edge := edge + 1;
    }
  }

  method CountEdges(g: Graph) returns (failure: Outcome, reverseCounts: array<nat>, unresolved: array<nat>,
                                       hasAllowed: array<bool>, hasExit: array<bool>, internalEdges: nat)
    requires IsUint32Graph(g) && |g| < EXIT_DISALLOWED
    ensures fresh(reverseCounts) && fresh(unresolved) && fresh(hasAllowed) && fresh(hasExit)
    ensures reverseCounts != unresolved
    ensures reverseCounts.Length == unresolved.Length == hasAllowed.Length == hasExit.Length == |g|
    ensures failure.Failed? ==> Explains(g, failure.error)
    ensures failure.Solved? ==>
              && Countable(g)
              && internalEdges == InternalCount(g, |g|, 0)
              && (forall c: nat | c < |g| :: reverseCounts[c] == TotalInDegree(g, c))
              && (forall p: nat | p < |g| ::
                    RowCounted(g, p, |g[p].children|, unresolved[p], hasAllowed[p], hasExit[p]))
  {
    reverseCounts := new nat[|g|](_ => 0);
    unresolved := new nat[|g|](_ => 0);
    hasAllowed := new bool[|g|](_ => false);
    hasExit := new bool[|g|](_ => false);
    internalEdges := 0;
    failure := Solved(Solution([], 0, 0, 0));
    var node := 0;
    while node < |g|
      invariant node <= |g| && failure.Solved?
      invariant forall c: nat | c < |g| :: reverseCounts[c] == InDegree(g, node, 0, c) < UINT32_LIMIT
      invariant internalEdges == InternalCount(g, node, 0)
      invariant forall p: nat, e: nat | p < node && IsInternalEdge(g, p, e) :: g[p].children[e] < |g|
      invariant forall p: nat | p < node ::
                  RowCounted(g, p, |g[p].children|, unresolved[p], hasAllowed[p], hasExit[p])
      invariant forall p: nat | node <= p < |g| :: unresolved[p] == 0 && !hasAllowed[p] && !hasExit[p]
    {
      failure, internalEdges := CountRow(g, node, reverseCounts, unresolved, hasAllowed, hasExit, internalEdges);
      if failure.Failed? {
        return;
      }
      node := node + 1;
    }
  }

  // ----- reverse graph -----

  /** `parents[offsets[c]..offsets[c+1]]` lists one parent per internal edge into `c`.
      `edgeAt` names the edge behind each position and `at` is its inverse. */
  ghost predicate IsReverseGraph(g: Graph, offsets: seq<nat>, parents: seq<nat>,
                                 edgeAt: seq<(nat, nat)>, at: map<(nat, nat), nat>)
  {
    && |offsets| == |g| + 1
    && |edgeAt| == |parents|
    && AreOffsets(g, offsets, |parents|)
    && (forall c: nat | c < |g| :: offsets[c] <= offsets[c + 1])
    && (forall p: nat, e: nat | IsInternalEdge(g, p, e) :: IsPlaced(g, offsets, |parents|, at, p, e))
    && (forall c: nat, k: nat | c < |g| && offsets[c] <= k < offsets[c + 1] ::
          IsFilled(g, parents, edgeAt, at, c, k))
    && (forall x | x in at :: at[x] < |edgeAt| && edgeAt[at[x]] == x)
  }

  ghost predicate IsPlaced(g: Graph, offsets: seq<nat>, n: nat, at: map<(nat, nat), nat>, p: nat, e: nat)
    requires IsInternalEdge(g, p, e) && |offsets| == |g| + 1
  {
    var c := g[p].children[e];
    (p, e) in at && c < |g| && offsets[c] <= at[(p, e)] < offsets[c + 1]
  }

  ghost predicate IsFilled(g: Graph, parents: seq<nat>, edgeAt: seq<(nat, nat)>, at: map<(nat, nat), nat>, c: nat, k: nat) {
    && k < |parents| == |edgeAt|
    && IsInternalEdge(g, edgeAt[k].0, edgeAt[k].1)
    && g[edgeAt[k].0].children[edgeAt[k].1] == c
    && parents[k] == edgeAt[k].0
    && edgeAt[k] in at && at[edgeAt[k]] == k
  }

  method PrefixSums(g: Graph, reverseCounts: array<nat>, internalEdges: nat) returns (offsets: array<nat>)
    requires |g| < EXIT_DISALLOWED && Countable(g) && reverseCounts.Length == |g|
    requires forall c: nat | c < |g| :: reverseCounts[c] == TotalInDegree(g, c)
    requires internalEdges == InternalCount(g, |g|, 0)
    ensures fresh(offsets) && offsets.Length == |g| + 1
    ensures AreOffsets(g, offsets[..], internalEdges)
    // The size check that follows in the solver never throws.
    ensures offsets[|g|] == internalEdges
  {
    hide InDegree, Offset, TotalInDegree, InternalCount;
    offsets := new nat[|g| + 1](_ => 0);
    OffsetBase(g);
    var node := 0;
    while node < |g|
      invariant node <= |g|
      invariant forall c: nat | c <= node :: offsets[c] == Offset(g, |g|, 0, c)
    {
      offsets[node + 1] := offsets[node] + reverseCounts[node];
      OffsetSuccessor(g, node);
      node := node + 1;
    }
    OffsetsCountInternalEdges(g, |g|, 0);
    OffsetsBounded(g);
  }

  ghost predicate CursorsCount(g: Graph, cursor: seq<nat>, p: nat, e: nat)
    requires IsCursor(g, p, e)
  {
    && |cursor| == |g|
    && forall c: nat | c < |g| :: cursor[c] == InDegree(g, p, e, c)
  }

  ghost predicate PlacedBefore(g: Graph, offsets: seq<nat>, n: nat, at: map<(nat, nat), nat>, p: nat, e: nat) {
    && |offsets| == |g| + 1
    && (forall q: nat, f: nat | Before(q, f, p, e) && IsInternalEdge(g, q, f) :: IsPlaced(g, offsets, n, at, q, f))
    && (forall q: nat, f: nat | (q, f) in at :: Before(q, f, p, e))
  }

  ghost predicate SlotsFilled(g: Graph, offsets: seq<nat>, cursor: seq<nat>, parents: seq<nat>,
                              edgeAt: seq<(nat, nat)>, at: map<(nat, nat), nat>)
  {
    && |offsets| == |g| + 1 && |cursor| == |g| && |edgeAt| == |parents|
    && forall c: nat, k: nat | c < |g| && offsets[c] <= k < offsets[c] + cursor[c] :: IsFilled(g, parents, edgeAt, at, c, k)
  }

  ghost predicate IsNamed(g: Graph, offsets: seq<nat>, cursor: seq<nat>, edgeAt: seq<(nat, nat)>, x: (nat, nat), k: nat) {
    && IsInternalEdge(g, x.0, x.1) && g[x.0].children[x.1] < |cursor| <= |offsets|
    && offsets[g[x.0].children[x.1]] <= k < offsets[g[x.0].children[x.1]] + cursor[g[x.0].children[x.1]]
    && k < |edgeAt| && edgeAt[k] == x
  }

  ghost predicate SlotsNamed(g: Graph, offsets: seq<nat>, cursor: seq<nat>, edgeAt: seq<(nat, nat)>, at: map<(nat, nat), nat>) {
    forall x | x in at :: IsNamed(g, offsets, cursor, edgeAt, x, at[x])
  }

  ghost predicate AreOffsets(g: Graph, offsets: seq<nat>, n: nat) {
    && |offsets| == |g| + 1
    && forall c: nat | c <= |g| :: offsets[c] == Offset(g, |g|, 0, c) && offsets[c] <= n
  }

  /** The rows are filled as far as `cursor` says, with the edges before (p, e). */
  ghost predicate FilledTo(g: Graph, offsets: seq<nat>, cursor: seq<nat>, parents: seq<nat>,
                           edgeAt: seq<(nat, nat)>, at: map<(nat, nat), nat>, p: nat, e: nat)
    requires IsCursor(g, p, e)
  {
    && CursorsCount(g, cursor, p, e)
    && PlacedBefore(g, offsets, |parents|, at, p, e)
    && SlotsFilled(g, offsets, cursor, parents, edgeAt, at)
    && SlotsNamed(g, offsets, cursor, edgeAt, at)
  }

  /** The next free slot of the child's row exists and no filled slot is at its position. */
  lemma SlotIsFree(g: Graph, p: nat, e: nat, c: nat, k: nat)
    requires IsInternalEdge(g, p, e) && g[p].children[e] < |g| && c < |g|
    ensures var child := g[p].children[e];
            Offset(g, |g|, 0, child) + InDegree(g, p, e, child) < Offset(g, |g|, 0, child + 1)
    ensures var child := g[p].children[e];
            Offset(g, |g|, 0, c) <= k < Offset(g, |g|, 0, c) + InDegree(g, p, e, c) ==>
              k != Offset(g, |g|, 0, child) + InDegree(g, p, e, child)
  {
    var child := g[p].children[e];
    NextInDegreeWithinTotal(g, p, e);
    OffsetSuccessor(g, child);
    InDegreeMonotone(g, p, e, |g|, 0, c);
    if c < child {
      OffsetMonotone(g, c, child);
    } else if child < c {
      OffsetMonotone(g, child, c);
    }
  }

  lemma FilledKept(g: Graph, parents: seq<nat>, edgeAt: seq<(nat, nat)>, at: map<(nat, nat), nat>, c: nat, k: nat,
                   position: nat, p: nat, e: nat)
    requires IsFilled(g, parents, edgeAt, at, c, k) && k != position && position < |parents| && (p, e) !in at
    ensures IsFilled(g, parents[position := p], edgeAt[position := (p, e)], at[(p, e) := position], c, k)
  {
  }

  lemma CursorStep(g: Graph, cursor: seq<nat>, p: nat, e: nat)
    requires IsInternalEdge(g, p, e) && g[p].children[e] < |g| && CursorsCount(g, cursor, p, e)
    ensures CursorsCount(g, cursor[g[p].children[e] := cursor[g[p].children[e]] + 1], p, e + 1)
  {
    CountStep(g, p, e);
  }

  lemma PlacedStep(g: Graph, offsets: seq<nat>, n: nat, at: map<(nat, nat), nat>, p: nat, e: nat, position: nat)
    requires IsInternalEdge(g, p, e) && g[p].children[e] < |g| && PlacedBefore(g, offsets, n, at, p, e)
    requires offsets[g[p].children[e]] <= position < offsets[g[p].children[e] + 1]
    ensures PlacedBefore(g, offsets, n, at[(p, e) := position], p, e + 1)
  {
    forall q: nat, f: nat | Before(q, f, p, e + 1) && IsInternalEdge(g, q, f)
      ensures IsPlaced(g, offsets, n, at[(p, e) := position], q, f)
    {
      if (q, f) != (p, e) {
        assert Before(q, f, p, e);
      }
    }
  }

  lemma SlotsStep(g: Graph, offsets: seq<nat>, cursor: seq<nat>, cursor': seq<nat>, parents: seq<nat>,
                  edgeAt: seq<(nat, nat)>, at: map<(nat, nat), nat>, p: nat, e: nat, position: nat)
    requires IsInternalEdge(g, p, e) && g[p].children[e] < |g| && (p, e) !in at
    requires AreOffsets(g, offsets, |parents|) && CursorsCount(g, cursor, p, e)
    requires SlotsFilled(g, offsets, cursor, parents, edgeAt, at)
    requires position == offsets[g[p].children[e]] + cursor[g[p].children[e]] < |parents|
    requires cursor' == cursor[g[p].children[e] := cursor[g[p].children[e]] + 1]
    ensures SlotsFilled(g, offsets, cursor', parents[position := p], edgeAt[position := (p, e)], at[(p, e) := position])
  {
    var child := g[p].children[e];
    var parents', edgeAt', at' := parents[position := p], edgeAt[position := (p, e)], at[(p, e) := position];
    forall c: nat, k: nat | c < |g| && offsets[c] <= k < offsets[c] + cursor'[c]
      ensures IsFilled(g, parents', edgeAt', at', c, k)
    {
      if c != child || k != position {
        SlotIsFree(g, p, e, c, k);
        FilledKept(g, parents, edgeAt, at, c, k, position, p, e);
      }
    }
  }

  lemma NamesStep(g: Graph, offsets: seq<nat>, cursor: seq<nat>, cursor': seq<nat>, n: nat,
                  edgeAt: seq<(nat, nat)>, at: map<(nat, nat), nat>, p: nat, e: nat, position: nat)
    requires IsInternalEdge(g, p, e) && g[p].children[e] < |g|
    requires AreOffsets(g, offsets, n) && CursorsCount(g, cursor, p, e)
    requires SlotsNamed(g, offsets, cursor, edgeAt, at)
    requires position == offsets[g[p].children[e]] + cursor[g[p].children[e]] < |edgeAt|
    requires cursor' == cursor[g[p].children[e] := cursor[g[p].children[e]] + 1]
    ensures SlotsNamed(g, offsets, cursor', edgeAt[position := (p, e)], at[(p, e) := position])
  {
    var edgeAt', at' := edgeAt[position := (p, e)], at[(p, e) := position];
    forall x | x in at'
      ensures IsNamed(g, offsets, cursor', edgeAt', x, at'[x])
    {
      if x != (p, e) {
        assert IsNamed(g, offsets, cursor, edgeAt, x, at[x]);
        SlotIsFree(g, p, e, g[x.0].children[x.1], at[x]);
      }
    }
  }

  /** Writing one parent keeps the partial reverse graph correct. */
  lemma FillStep(g: Graph, offsets: seq<nat>, cursor: seq<nat>, parents: seq<nat>,
                 edgeAt: seq<(nat, nat)>, at: map<(nat, nat), nat>, p: nat, e: nat)
    requires IsInternalEdge(g, p, e) && g[p].children[e] < |g|
    requires FilledTo(g, offsets, cursor, parents, edgeAt, at, p, e)
    requires AreOffsets(g, offsets, |parents|)
    ensures var child := g[p].children[e]; var position := offsets[child] + cursor[child];
            && position < |parents|
            && FilledTo(g, offsets, cursor[child := cursor[child] + 1], parents[position := p],
                        edgeAt[position := (p, e)], at[(p, e) := position], p, e + 1)
  {
    hide IsPlaced, IsFilled, IsNamed;
    var child := g[p].children[e];
    var position := offsets[child] + cursor[child];
    SlotIsFree(g, p, e, child, position);
    assert !Before(p, e, p, e);
    CursorStep(g, cursor, p, e);
    PlacedStep(g, offsets, |parents|, at, p, e, position);
    SlotsStep(g, offsets, cursor, cursor[child := cursor[child] + 1], parents, edgeAt, at, p, e, position);
    NamesStep(g, offsets, cursor, cursor[child := cursor[child] + 1], |parents|, edgeAt, at, p, e, position);
  }

  lemma FillSkip(g: Graph, offsets: seq<nat>, cursor: seq<nat>, parents: seq<nat>,
                 edgeAt: seq<(nat, nat)>, at: map<(nat, nat), nat>, p: nat, e: nat)
    requires IsEdge(g, p, e) && !IsInternalEdge(g, p, e) && |g| < EXIT_DISALLOWED
    requires FilledTo(g, offsets, cursor, parents, edgeAt, at, p, e)
    ensures FilledTo(g, offsets, cursor, parents, edgeAt, at, p, e + 1)
  {
    CountStep(g, p, e);
  }

  lemma FillNextRow(g: Graph, offsets: seq<nat>, cursor: seq<nat>, parents: seq<nat>,
                    edgeAt: seq<(nat, nat)>, at: map<(nat, nat), nat>, p: nat)
    requires p < |g| && FilledTo(g, offsets, cursor, parents, edgeAt, at, p, |g[p].children|)
    ensures FilledTo(g, offsets, cursor, parents, edgeAt, at, p + 1, 0)
  {
  }

  lemma FillStart(g: Graph, offsets: seq<nat>, cursor: seq<nat>, parents: seq<nat>, edgeAt: seq<(nat, nat)>)
    requires |offsets| == |g| + 1 && |cursor| == |g| && |edgeAt| == |parents|
    requires forall c: nat | c < |g| :: cursor[c] == 0
    ensures FilledTo(g, offsets, cursor, parents, edgeAt, map[], 0, 0)
  {
  }

  lemma FillComplete(g: Graph, offsets: seq<nat>, cursor: seq<nat>, parents: seq<nat>,
                     edgeAt: seq<(nat, nat)>, at: map<(nat, nat), nat>)
    requires FilledTo(g, offsets, cursor, parents, edgeAt, at, |g|, 0)
    requires AreOffsets(g, offsets, |parents|)
    ensures IsReverseGraph(g, offsets, parents, edgeAt, at)
  {
    forall c: nat | c < |g|
      ensures offsets[c + 1] == offsets[c] + cursor[c]
    {
      OffsetSuccessor(g, c);
    }
  }

  /** Writes the parent of one internal edge into the next free slot of the child's row. */
  method PlaceEdge(g: Graph, offsets: array<nat>, cursor: array<nat>, parents: array<nat>,
                   ghost edgeAt: seq<(nat, nat)>, ghost at: map<(nat, nat), nat>, parent: nat, edge: nat)
    returns (ghost edgeAt': seq<(nat, nat)>, ghost at': map<(nat, nat), nat>)
    requires offsets != cursor && offsets != parents && cursor != parents
    requires offsets.Length == |g| + 1 && cursor.Length == |g| && |edgeAt| == parents.Length
    requires IsInternalEdge(g, parent, edge) && g[parent].children[edge] < |g|
    requires FilledTo(g, offsets[..], cursor[..], parents[..], edgeAt, at, parent, edge) && AreOffsets(g, offsets[..], parents.Length)
    modifies cursor, parents
    ensures |edgeAt'| == parents.Length && offsets[..] == old(offsets[..])
    ensures FilledTo(g, offsets[..], cursor[..], parents[..], edgeAt', at', parent, edge + 1)
  {
    var child := g[parent].children[edge];
    hide *;
    ghost var rows, filled, placed := offsets[..], cursor[..], parents[..];
    FillStep(g, rows, filled, placed, edgeAt, at, parent, edge);
    var position := offsets[child] + cursor[child];
    cursor[child] := cursor[child] + 1;
    parents[position] := parent;
    edgeAt' := edgeAt[position := (parent, edge)];
    at' := at[(parent, edge) := position];
    assert cursor[..] == filled[child := filled[child] + 1];
    assert parents[..] == placed[position := parent];
  }

  /** Every edge of one node. */
  method FillRow(g: Graph, offsets: array<nat>, cursor: array<nat>, parents: array<nat>,
                 ghost edgeAt: seq<(nat, nat)>, ghost at: map<(nat, nat), nat>, parent: nat)
    returns (ghost edgeAt': seq<(nat, nat)>, ghost at': map<(nat, nat), nat>)
    requires offsets != cursor && offsets != parents && cursor != parents
    requires |g| < EXIT_DISALLOWED && Countable(g) && parent < |g|
    requires offsets.Length == |g| + 1 && cursor.Length == |g| && |edgeAt| == parents.Length
    requires FilledTo(g, offsets[..], cursor[..], parents[..], edgeAt, at, parent, 0) && AreOffsets(g, offsets[..], parents.Length)
    modifies cursor, parents
    ensures |edgeAt'| == parents.Length && offsets[..] == old(offsets[..])
    ensures FilledTo(g, offsets[..], cursor[..], parents[..], edgeAt', at', parent, |g[parent].children|)
  {
    hide FilledTo, AreOffsets;
    ghost var rows := offsets[..];
    edgeAt', at' := edgeAt, at;
    var edge := 0;
    while edge < |g[parent].children|
      invariant edge <= |g[parent].children| && offsets[..] == rows && |edgeAt'| == parents.Length
      invariant FilledTo(g, rows, cursor[..], parents[..], edgeAt', at', parent, edge)
    {
      var child := g[parent].children[edge];
      if child < EXIT_DISALLOWED {
        edgeAt', at' := PlaceEdge(g, offsets, cursor, parents, edgeAt', at', parent, edge);
      } else {
        FillSkip(g, rows, cursor[..], parents[..], edgeAt', at', parent, edge);
      }
      edge := edge + 1;
    }
  }

  method FillParents(g: Graph, offsets: array<nat>, cursor: array<nat>, internalEdges: nat)
    returns (parents: array<nat>, ghost edgeAt: seq<(nat, nat)>, ghost at: map<(nat, nat), nat>)
    requires |g| < EXIT_DISALLOWED && Countable(g)
    requires offsets.Length == |g| + 1 && cursor.Length == |g| && offsets != cursor
    requires AreOffsets(g, offsets[..], internalEdges)
    requires forall c: nat | c < |g| :: cursor[c] == 0
    modifies cursor
    ensures fresh(parents) && parents.Length == internalEdges
    ensures offsets[..] == old(offsets[..])
    ensures IsReverseGraph(g, offsets[..], parents[..], edgeAt, at)
  {
    parents := new nat[internalEdges](_ => 0);
    edgeAt := seq(internalEdges, _ => (0, 0));
    at := map[];
    hide *;
    ghost var rows := offsets[..];
    FillStart(g, rows, cursor[..], parents[..], edgeAt);
    var parent: nat := 0;
    while parent < |g|
      invariant parent <= |g| && offsets[..] == rows
      invariant FilledTo(g, rows, cursor[..], parents[..], edgeAt, at, parent, 0)
    {
      edgeAt, at := FillRow(g, offsets, cursor, parents, edgeAt, at, parent);
      FillNextRow(g, rows, cursor[..], parents[..], edgeAt, at, parent);
      parent := parent + 1;
    }
    FillComplete(g, rows, cursor[..], parents[..], edgeAt, at);
  }
}
