/** The df-pn checkmate solver: threshold recursion over the node pool, with the board
    represented by its run of positions. */
module Dfpn {
  import opened Arithmetic
  import opened Wrappers
  import opened MateGame
  import opened Repetitions
  import opened DfpnTree
  import opened DfpnBound
  import opened DfpnDistance
  import opened DfpnPool

  datatype SearchResult = Mate(move: Move) | NoMate | Unsolved

  /** The numbers minimized over the children, and the numbers summed. */
  ghost function Selecting(t: Tree, i: nat): seq<nat>
    requires Live(t, i)
  {
    if t.info[i].attacker then Pns(t, i) else Dns(t, i)
  }

  ghost function Summing(t: Tree, i: nat): seq<nat>
    requires Live(t, i)
  {
    if t.info[i].attacker then Dns(t, i) else Pns(t, i)
  }

  lemma SelectingSlots(rules: Rules, t: Tree, i: nat, j: nat)
    requires Live(t, i) && Linked(rules, t, i) && t.nodes[i].HasChildren() && j < t.nodes[i].childNum
    ensures |Selecting(t, i)| == |Summing(t, i)| == t.nodes[i].childNum
    ensures var c := t.nodes[i].children.value + j;
            && c < |t.nodes|
            && Selecting(t, i)[j] == (if t.info[i].attacker then t.nodes[c].pn else t.nodes[c].dn)
            && Summing(t, i)[j] == (if t.info[i].attacker then t.nodes[c].dn else t.nodes[c].pn)
  {
    ChildSlots(rules, t, i);
  }

  class MateDfpnSolver {
    const rules: Rules
    const pool: DfpnNodePool
    // The stop flag and the deadline: every poll from this one on reports a stop.
    const stopAfter: nat
    var polls: nat
    var nodesLimit: nat
    var nodesSearched: nat
    // The board: the positions since its history was cleared, the last one current.
    var run: Run
    // The positions on the search path, for the path-only cycle guard.
    var path: seq<Pos>
    var pv: seq<Move>
    var matePly: nat
    ghost var root: nat
    ghost var info: seq<Info>

    constructor (rules: Rules, stopAfter: nat)
      ensures this.rules == rules && this.stopAfter == stopAfter && pool.Valid() && fresh(pool) && fresh(pool.nodes)
    {
      this.rules, this.stopAfter := rules, stopAfter;
      pool := new DfpnNodePool();
      polls, nodesLimit, nodesSearched, matePly := 0, 0, 0, 0;
      run, path, pv := [], [], [];
      root, info := 0, [];
    }

    ghost predicate Sized()
      reads this`info, pool, pool.nodes
    {
      pool.Valid() && |info| == pool.capacity + 1
    }

    ghost function State(): (t: Tree)
      requires Sized()
      reads this`info, pool, pool.nodes
      ensures |t.nodes| == |t.info| == pool.capacity + 1
    {
      Tree(pool.nodes[..pool.capacity + 1], pool.used, info)
    }

    predicate Stopped()
      reads this`polls
    {
      polls >= stopAfter
    }

    method ShouldStop() returns (b: bool)
      modifies this`polls
      ensures polls == old(polls) + 1
      ensures b == old(Stopped())
    {
      b := polls >= stopAfter;
      polls := polls + 1;
    }

    // ----- summarizing -----

    /** One pass over the children of node `i`. */
    method SumChildren(attacker: bool, i: nat) returns (minVal: nat, sumVal: nat, anyRepeated: bool)
      requires Sized() && Live(State(), i) && State().info[i].attacker == attacker
      requires Linked(rules, State(), i) && pool.nodes[i].HasChildren()
      ensures minVal == MinOf(Selecting(State(), i)) && sumVal == SatSum(Summing(State(), i))
    {
      hide IsChildOf, Pns, Dns;
      var node := pool.nodes[i];
      ghost var t := State();
      var first := node.children.value;
      minVal, sumVal, anyRepeated := INF, 0, false;
      var j: nat := 0;
      assert |Selecting(t, i)| == |Summing(t, i)| == node.childNum by { SelectingSlots(rules, t, i, 0); }
      while j < node.childNum
        invariant j <= node.childNum
        invariant minVal == MinOf(Selecting(t, i)[..j])
        invariant sumVal == SatSum(Summing(t, i)[..j])
      {
        var c := pool.nodes[first + j];
        SelectingSlots(rules, t, i, j);
        assert Selecting(t, i)[..j + 1][..j] == Selecting(t, i)[..j];
        assert Summing(t, i)[..j + 1][..j] == Summing(t, i)[..j];
        if attacker {
          minVal := Min(minVal, c.pn);
          sumVal := SatAdd(sumVal, c.dn, INF);
        } else {
          sumVal := SatAdd(sumVal, c.pn, INF);
          minVal := Min(minVal, c.dn);
        }
        anyRepeated := anyRepeated || c.repeated;
        j := j + 1;
      }
      assert Selecting(t, i)[..node.childNum] == Selecting(t, i);
      assert Summing(t, i)[..node.childNum] == Summing(t, i);
    }

    method SummarizeNode(attacker: bool, i: nat)
      requires Sized() && Live(State(), i) && i <= pool.used && State().info[i].attacker == attacker
      requires Linked(rules, State(), i)
      modifies pool.nodes
      ensures Sized()
      ensures !old(pool.nodes[i]).HasChildren() ==> State() == old(State())
      ensures old(pool.nodes[i]).HasChildren() ==>
                && State() == SetNode(old(State()), i, pool.nodes[i])
                && IsSummaryOf(old(State()), i, pool.nodes[i])
    {
      hide IsChildOf, Pns, Dns, Children, DistanceAmong;
      var node := pool.nodes[i];
      if node.childNum == 0 || node.childNum == NOT_EXPANDED {
        return;
      }
      ghost var t := State();
      var minVal, sumVal, anyRepeated := SumChildren(attacker, i);
      var n := if attacker then node.(pn := minVal, dn := sumVal, repeated := anyRepeated)
               else node.(pn := sumVal, dn := minVal, repeated := anyRepeated);
      if n.pn == 0 {
        var distance := ProvenDistance(attacker, i);
        n := n.(mateDistance := if distance == 0xFFFF then 0 else distance + 1);
      }
      pool.nodes[i] := n;
      assert State().nodes == t.nodes[i := n];
    }

    /** The children of node `i`, one after the other in the pool. */
    lemma ChildrenAre(i: nat)
      requires Sized() && Live(State(), i) && Linked(rules, State(), i) && pool.nodes[i].HasChildren()
      ensures pool.nodes[i].children.Some? && pool.nodes[i].children.value + pool.nodes[i].childNum <= pool.nodes.Length
      ensures |Children(State(), i)| == pool.nodes[i].childNum
      ensures forall j: nat | j < pool.nodes[i].childNum :: pool.nodes[pool.nodes[i].children.value + j] == Children(State(), i)[j]
    {
      hide IsChildOf;
    }

    /** The shortest (attacker) or longest (defender) distance among the proven children. */
    method ProvenDistance(attacker: bool, i: nat) returns (distance: nat)
      requires Sized() && Live(State(), i) && Linked(rules, State(), i) && pool.nodes[i].HasChildren()
      ensures distance == DistanceAmong(attacker, Children(State(), i))
    {
      hide IsChildOf, DistanceAmong, Children, Linked;
      ghost var nodes := Children(State(), i);
      ChildrenAre(i);
      AmongNone(attacker, nodes);
      var node := pool.nodes[i];
      var first := node.children.value;
      distance := if attacker then 0xFFFF else 0;
      for j := 0 to node.childNum
        invariant distance == DistanceAmong(attacker, nodes[..j])
      {
        var child := pool.nodes[first + j];
        AmongOneMore(attacker, nodes, j);
        if child.pn == 0 {
          if attacker {
            distance := Min(distance, child.mateDistance);
          } else if distance < child.mateDistance {
            distance := child.mateDistance;
          }
        }
      }
      assert nodes[..node.childNum] == nodes;
    }

    // ----- selection -----

    /** The first child with the smallest selecting number, and the thresholds it is entered
        with: one more than the runner-up on the selecting side, the parent's on the other. */
    method SelectBestChild(attacker: bool, i: nat, secondPn: nat, secondDn: nat)
      returns (best: Option<nat>, childPn: nat, childDn: nat)
      requires Sized() && Live(State(), i) && State().info[i].attacker == attacker && Linked(rules, State(), i)
      requires pool.nodes[i].HasChildren()
      ensures best.None? <==> MinOf(Selecting(State(), i)) == INF
      ensures best.Some? ==> IsBest(State(), i, best.value, secondPn, secondDn, childPn, childDn)
    {
      hide IsChildOf, Pns, Dns;
      ghost var vals := Selecting(State(), i);
      var node := pool.nodes[i];
      assert |vals| == node.childNum by { SelectingSlots(rules, State(), i, 0); }
      var bestIdx: int := -1;
      var bestVal: nat, secondBest: nat := INF, INF;
      var j: nat := 0;
      while j < node.childNum
        invariant j <= node.childNum
        invariant SelectedSoFar(vals, j, bestIdx, bestVal, secondBest)
      {
        var c := pool.nodes[node.children.value + j];
        var val := if attacker then c.pn else c.dn;
        SelectingSlots(rules, State(), i, j);
        SelectStep(vals, j, bestIdx, bestVal, secondBest);
        if val < bestVal {
          secondBest := bestVal;
          bestVal := val;
          bestIdx := j;
        } else if val < secondBest {
          secondBest := val;
        }
        j := j + 1;
      }
      SelectDone(vals, bestIdx, bestVal, secondBest);
      if bestIdx < 0 {
        return None, secondPn, secondDn;
      }
      best := Some(node.children.value + bestIdx);
      childPn := if attacker then Min(secondPn, SatAdd(secondBest, 1, INF)) else secondPn;
      childDn := if attacker then secondDn else Min(secondDn, SatAdd(secondBest, 1, INF));
    }

    // ----- expansion -----

    /** The legal moves that give check. A stop cuts the list short. */
    method GenerateChecks(p: Pos) returns (checks: seq<Move>)
      modifies this`polls
      ensures polls >= old(polls)
      ensures Stopped() || checks == Checks(rules, p)
    {
      var all := rules.legal(p);
      checks := [];
      var j: nat := 0;
      while j < |all|
        invariant j <= |all| && checks == Filter(rules, p, all[..j])
        invariant polls >= old(polls)
      {
        var stop := ShouldStop();
        if stop {
          return;
        }
        assert all[..j + 1][..j] == all[..j];
        if rules.inCheck(rules.play(p, all[j])) {
          checks := checks + [all[j]];
        }
        j := j + 1;
      }
      assert all[..|all|] == all;
    }

    /** Node `i`, at the end of the active path, is on the board. */
    ghost predicate AtNode(active: set<nat>, i: nat, attacker: bool, ply: nat)
      reads this`info, this`run, this`root, pool, pool.nodes
    {
      && Sized() && SoundMateInOne(rules) && TreeInvariant(rules, root, State(), active)
      && Live(State(), i) && i <= pool.used && i !in active && (i > 0 ==> info[i].parent in active)
      && (forall a | a in active :: a < i)
      && info[i].attacker == attacker && run == info[i].run && |run| == root + 1 + ply && ply <= MAX_POOL_NODES
      && !Adjudicated(rules, root, run)
    }

    /** Slots below `bound` keep their nodes, and every slot in use keeps its place. */
    twostate predicate Kept(bound: nat)
      reads this`info, pool, pool.nodes
    {
      && pool.nodes == old(pool.nodes) && pool.capacity == old(pool.capacity) && pool.used >= old(pool.used)
      && |info| == old(|info|) == pool.capacity + 1
      && bound <= old(pool.used) + 1 <= pool.capacity + 1 <= pool.nodes.Length
      && (forall k: nat | k < bound :: pool.nodes[k] == old(pool.nodes[k]))
      && (forall k: nat | k <= old(pool.used) :: info[k] == old(info[k]))
    }

    ghost predicate IsExpandedProperly(active: set<nat>, i: nat)
      requires Sized() && Live(State(), i)
      reads this`info, this`root, pool, pool.nodes
    {
      && TreeInvariant(rules, root, State(), active + {i})
      && (pool.nodes[i].HasChildren() ==> (pool.nodes[i].pn == 0 ==> SummaryPn(State(), i) == 0))
      && (!pool.nodes[i].HasChildren() ==> TreeInvariant(rules, root, State(), active))
    }

    /** A leaf without moves is decided. */
    method CloseWithoutMoves(attacker: bool, i: nat, ply: nat, ghost active: set<nat>)
      requires AtNode(active, i, attacker, ply) && IsLeaf(State(), i)
      requires if attacker then rules.mateInOne(Last(run)) == NULL_MOVE && Checks(rules, Last(run)) == []
               else rules.legal(Last(run)) == []
      modifies pool.nodes
      ensures Kept(i) && Sized() && pool.used == old(pool.used)
      ensures forall k: nat | i < k < pool.nodes.Length :: pool.nodes[k] == old(pool.nodes[k])
      ensures Live(State(), i) && !pool.nodes[i].HasChildren() && TreeInvariant(rules, root, State(), active)
    {
      hide TreeInvariant, Adjudicated, ForcedWin, Checks, SoundMateInOne;
      ghost var t := State();
      LeafFacts(t, active, i);
      NoMoves(rules, root, run, attacker);
      var n := if attacker then pool.nodes[i].SetNoMate(ply) else pool.nodes[i].SetMate(ply);
      n := n.(childNum := 0);
      CloseLeaf(rules, root, t, active, i, n, ply);
      pool.nodes[i] := n;
      assert State() == SetNode(t, i, n);
    }

    /** The tree the mate-in-one shortcut leaves behind. */
    ghost function ShortcutTree(t: Tree, i: nat, ply: nat): Tree
      requires i <= t.used && t.used + 1 < |t.nodes| == |t.info| && |t.info[i].run| > 0 && ply <= MAX_POOL_NODES
    {
      var m := rules.mateInOne(Last(t.info[i].run));
      SetNode(SetNode(Allocate(rules, t, i, [m]), t.used + 1, MatedChild(m, ply)), i, MateInOneNode(t.nodes[i], t.used + 1, ply))
    }

    lemma ShortcutTreeIs(t: Tree, i: nat, ply: nat)
      requires i <= t.used && t.used + 1 < |t.nodes| == |t.info| && |t.info[i].run| > 0 && ply <= MAX_POOL_NODES
      ensures var m := rules.mateInOne(Last(t.info[i].run)); var t3 := ShortcutTree(t, i, ply);
              && t3.nodes == t.nodes[t.used + 1 := MatedChild(m, ply)][i := MateInOneNode(t.nodes[i], t.used + 1, ply)]
              && t3.info == t.info[t.used + 1 := Info(t.info[i].run + [rules.play(Last(t.info[i].run), m)], !t.info[i].attacker, i, true)]
              && t3.used == t.used + 1
      ensures t.info[i].live && t.info[i].attacker ==>
                var t3 := ShortcutTree(t, i, ply);
                Live(t3, i) && t3.nodes[i].HasChildren() && SummaryPn(t3, i) == 0
    {
      var m := rules.mateInOne(Last(t.info[i].run));
      var t3 := ShortcutTree(t, i, ply);
      assert t3.nodes == t.nodes[t.used + 1 := MatedChild(m, ply)][i := MateInOneNode(t.nodes[i], t.used + 1, ply)];
      assert t3.info == t.info[t.used + 1 := Info(t.info[i].run + [rules.play(Last(t.info[i].run), m)], !t.info[i].attacker, i, true)];
      assert Pns(t3, i) == [0];
      assert [0][..0] == [];
      assert MinOf([0]) == 0;
    }

    /** The mate-in-one shortcut. A slot is free, so its allocation cannot fail. */
    method CloseByShortcut(i: nat, ply: nat, ghost active: set<nat>)
      requires AtNode(active, i, true, ply) && IsLeaf(State(), i) && pool.used < pool.capacity
      requires rules.mateInOne(Last(run)) != NULL_MOVE
      modifies this`info, pool, pool.nodes
      ensures Kept(i) && Sized() && pool.exhausted == old(pool.exhausted)
      ensures forall k: nat | i < k <= old(pool.used) :: pool.nodes[k] == old(pool.nodes[k])
      ensures i <= pool.used && Live(State(), i) && IsExpandedProperly(active, i)
    {
      hide TreeInvariant, Adjudicated, ForcedWin, Checks, SoundMateInOne, IsSummaryOf, Allocate, ShortcutTree, SummaryPn, IsLegalRun, Depth;
      ghost var t := State();
      LeafFacts(t, active, i);
      var m := rules.mateInOne(Last(run));
      ghost var t3 := ShortcutTree(t, i, ply);
      ShortcutTreeIs(t, i, ply);
      ShortcutInvariant(t, i, ply, active);
      var node := pool.nodes[i].SetMate(ply).(mateDistance := 1, childNum := 1);
      var children := pool.NewNodes(1);
      if children.Some? {
        node := node.(children := children);
        pool.nodes[children.value] := pool.nodes[children.value].(lastMove := m).SetMate(ply + 1).(childNum := 0);
      }
      pool.nodes[i] := node;
      info := t3.info;
      assert State().nodes == t3.nodes;
      assert State() == t3;
    }

    lemma ShortcutInvariant(t: Tree, i: nat, ply: nat, active: set<nat>)
      requires SoundMateInOne(rules) && TreeInvariant(rules, root, t, active)
      requires IsLeaf(t, i) && i !in active && i <= t.used && (i > 0 ==> t.info[i].parent in active)
      requires |t.info| == |t.nodes| && |t.info[i].run| > 0 && t.info[i].attacker && t.used + 1 < |t.nodes| && ply <= MAX_POOL_NODES
      requires !Adjudicated(rules, root, t.info[i].run)
      requires rules.mateInOne(Last(t.info[i].run)) != NULL_MOVE
      ensures TreeInvariant(rules, root, ShortcutTree(t, i, ply), active + {i})
    {
      hide TreeInvariant;
      CloseByMateInOne(rules, root, t, active, i, ply);
    }

    /** Links the reserved slots to node `i` and initialises at most 254 of them. */
    method WriteChildren(i: nat, first: nat, moves: seq<Move>)
      requires i < first && first + |moves| <= pool.nodes.Length
      modifies pool.nodes
      ensures pool.nodes[i] == LinkTo(old(pool.nodes[i]), first, moves)
      ensures forall k: nat | k < pool.nodes.Length && k != i && !(first <= k < first + Min(|moves|, MAX_CHILDREN)) ::
                pool.nodes[k] == old(pool.nodes[k])
      ensures forall k: nat | first <= k < first + Min(|moves|, MAX_CHILDREN) ::
                pool.nodes[k] == FRESH.(lastMove := moves[k - first])
    {
      pool.nodes[i] := pool.nodes[i].(children := Some(first), childNum := if |moves| < 254 then |moves| else 254);
      var j: nat := 0;
      while j < |moves| && j < 254
        invariant j <= |moves| && j <= 254
        invariant pool.nodes[i] == LinkTo(old(pool.nodes[i]), first, moves)
        invariant forall k: nat | k < pool.nodes.Length && k != i && !(first <= k < first + j) ::
                    pool.nodes[k] == old(pool.nodes[k])
        invariant forall k: nat | first <= k < first + j :: pool.nodes[k] == FRESH.(lastMove := moves[k - first])
      {
        pool.nodes[first + j] := pool.nodes[first + j].(lastMove := moves[j], pn := 1, dn := 1, children := None,
                                                        childNum := NOT_EXPANDED, repeated := false, mateDistance := 0);
        j := j + 1;
      }
    }

    /** The tree after linking: `nodes` written as above, `info` extended. */
    lemma WrittenIsAllocated(t: Tree, i: nat, moves: seq<Move>, nodes: seq<DfpnNode>)
      requires i <= t.used && t.used + |moves| < |t.nodes| == |t.info| == |nodes| && |t.info[i].run| > 0
      requires nodes[i] == LinkTo(t.nodes[i], t.used + 1, moves)
      requires forall k: nat | k < |nodes| && k != i && !(t.used + 1 <= k < t.used + 1 + Min(|moves|, MAX_CHILDREN)) :: nodes[k] == t.nodes[k]
      requires forall k: nat | t.used + 1 <= k < t.used + 1 + Min(|moves|, MAX_CHILDREN) :: nodes[k] == FRESH.(lastMove := moves[k - t.used - 1])
      ensures var t1 := Allocate(rules, t, i, moves);
              && |t1.info| == |t.info| && |t1.nodes| == |t.nodes| && t1.used == t.used + |moves|
              && SetNode(t1, i, LinkTo(t.nodes[i], t.used + 1, moves)) == Tree(nodes, t.used + |moves|, t1.info)
              && forall k: nat | k <= t.used :: t1.info[k] == t.info[k]
    {
      var t1 := Allocate(rules, t, i, moves);
      assert t1.nodes[i := nodes[i]] == nodes;
    }

    /** The children are allocated, linked and initialised. */
    method AddChildren(attacker: bool, i: nat, ply: nat, ghost active: set<nat>, moves: seq<Move>) returns (ok: bool)
      requires AtNode(active, i, attacker, ply) && IsLeaf(State(), i) && moves != []
      requires if attacker then rules.mateInOne(Last(run)) == NULL_MOVE && moves == Checks(rules, Last(run))
               else moves == rules.legal(Last(run))
      modifies this`info, pool, pool.nodes
      ensures Kept(i) && Sized()
      ensures forall k: nat | i < k <= old(pool.used) :: pool.nodes[k] == old(pool.nodes[k])
      ensures !ok ==> State() == old(State())
      ensures ok ==> Live(State(), i) && i <= pool.used && pool.nodes[i].HasChildren() && TreeInvariant(rules, root, State(), active + {i})
      ensures ok ==> pool.nodes[i].IsOpen() && pool.exhausted == old(pool.exhausted)
    {
      hide TreeInvariant, Adjudicated, ForcedWin, Checks, SoundMateInOne, Allocate, IsLegalRun, Depth, IsLeaf;
      ghost var t := State();
      LeafFacts(t, active, i);
      var children := pool.NewNodes(|moves|);
      if children.None? {
        return false;
      }
      LinkChildren(rules, root, t, active, i, moves);
      WriteChildren(i, children.value, moves);
      ghost var nodes := pool.nodes[..pool.capacity + 1];
      WrittenIsAllocated(t, i, moves, nodes);
      info := Allocate(rules, t, i, moves).info;
      assert State() == Tree(nodes, t.used + |moves|, info);
      return true;
    }

    method ExpandNode(attacker: bool, i: nat, ply: nat, ghost active: set<nat>)
      requires AtNode(active, i, attacker, ply) && IsLeaf(State(), i) && pool.used < pool.capacity
      modifies this`polls, this`info, pool, pool.nodes
      ensures polls >= old(polls) && Kept(i) && Sized()
      ensures forall k: nat | i < k <= old(pool.used) :: pool.nodes[k] == old(pool.nodes[k])
      ensures Live(State(), i) && i <= pool.used
      ensures if Stopped() then AllGood(rules, root, State()) else IsExpandedProperly(active, i)
    {
      hide TreeInvariant, AllGood, Good, Truthful, Adjudicated, Checks, SoundMateInOne, IsSummaryOf, Linked, IsLeaf, SummaryPn, RunOk, Summarized, IsChildOf;
      InvariantIsGood(rules, root, State(), active);
      LeafIsUnproved(State(), active, i);
      var stop := ShouldStop();
      if stop {
        return;
      }
      if attacker {
        var mate1 := rules.mateInOne(Last(run));
        stop := ShouldStop();
        if stop {
          return;
        }
        if mate1 != NULL_MOVE {
          CloseByShortcut(i, ply, active);
          InvariantIsGood(rules, root, State(), active + {i});
          return;
        }
      }
      var moves: seq<Move>;
      if attacker {
        moves := GenerateChecks(Last(run));
      } else {
        moves := rules.legal(Last(run));
      }
      stop := ShouldStop();
      if stop {
        return;
      }
      if moves == [] {
        CloseWithoutMoves(attacker, i, ply, active);
        WidenActive(rules, root, State(), active, i);
        InvariantIsGood(rules, root, State(), active);
        return;
      }
      GrowNode(attacker, i, ply, active, moves);
      InvariantIsGood(rules, root, State(), active);
    }

    /** Allocates the children and summarizes them; a full pool leaves the leaf as it is. */
    method GrowNode(attacker: bool, i: nat, ply: nat, ghost active: set<nat>, moves: seq<Move>)
      requires AtNode(active, i, attacker, ply) && IsLeaf(State(), i) && moves != []
      requires if attacker then rules.mateInOne(Last(run)) == NULL_MOVE && moves == Checks(rules, Last(run))
               else moves == rules.legal(Last(run))
      modifies this`info, pool, pool.nodes
      ensures Kept(i) && Sized()
      ensures forall k: nat | i < k <= old(pool.used) :: pool.nodes[k] == old(pool.nodes[k])
      ensures Live(State(), i) && i <= pool.used
      ensures TreeInvariant(rules, root, State(), active) && IsExpandedProperly(active, i)
    {
      hide TreeInvariant, AllGood, Good, Truthful, Adjudicated, Checks, SoundMateInOne, IsSummaryOf, Linked, IsLeaf, SummaryPn, SummaryDn, RunOk, ChildrenTimed, Timed, IsChildOf;
      LeafIsUnproved(State(), active, i);
      var ok := AddChildren(attacker, i, ply, active, moves);
      if !ok {
        WidenActive(rules, root, State(), active, i);
        return;
      }
      LinkedNode(State(), active + {i}, i);
      ghost var t := State();
      SummarizeNode(attacker, i);
      SummarizeKeepsInvariant(rules, root, t, active, i, pool.nodes[i]);
      WidenActive(rules, root, State(), active, i);
      SummarizedNode(State(), active, i);
    }

    lemma LeafIsUnproved(t: Tree, active: set<nat>, i: nat)
      requires TreeInvariant(rules, root, t, active) && IsLeaf(t, i)
      ensures !t.nodes[i].HasChildren()
    {
      GoodParts(rules, root, t, i);
    }

    lemma LinkedNode(t: Tree, active: set<nat>, i: nat)
      requires TreeInvariant(rules, root, t, active) && Live(t, i)
      ensures Linked(rules, t, i)
    {
      AllGoodLinked(rules, root, t, i);
    }

    lemma SummarizedNode(t: Tree, active: set<nat>, i: nat)
      requires TreeInvariant(rules, root, t, active) && Live(t, i) && i !in active
      ensures t.nodes[i].HasChildren() ==> t.nodes[i].pn == SummaryPn(t, i) && t.nodes[i].dn == SummaryDn(t, i)
    {
    }

    lemma LeafFacts(t: Tree, active: set<nat>, i: nat)
      requires TreeInvariant(rules, root, t, active) && IsLeaf(t, i)
      ensures t.nodes[i].children.None? && |t.info[i].run| > 0
      ensures t.nodes[i].pn == t.nodes[i].dn == 1
      ensures IsLegalRun(rules, t.info[i].run)
      ensures |t.info[i].run| > root && t.info[i].attacker == (Depth(root, t.info[i].run) % 2 == 0)
    {
      GoodParts(rules, root, t, i);
    }

    // ----- the recursion -----

    /** More nodes expanded, or one open leaf closed. */
    twostate predicate Progress()
      requires Sized() && old(Sized())
      reads this`info, this`nodesSearched, pool, pool.nodes
    {
      || nodesSearched > old(nodesSearched)
      || (nodesSearched == old(nodesSearched) && |OpenLeaves(State())| < old(|OpenLeaves(State())|))
    }

    /** A child of the node on the board, selected to be searched next. */
    ghost predicate IsSelected(i: nat, c: nat, childPn: nat, childDn: nat)
      requires Sized() && Live(State(), i)
      reads this`info, pool, pool.nodes
    {
      && IsChildOf(rules, State(), i, c) && i < c <= pool.used && pool.used < pool.nodes.Length
      && pool.nodes[c].IsOpen() && (pool.nodes[c].IsExpanded() ==> pool.nodes[c].HasChildren())
      && pool.nodes[c].pn < childPn <= INF && pool.nodes[c].dn < childDn <= INF
    }

    /** The selected child of an unresolved node is unresolved, and its thresholds are
        strictly above its numbers. */
    method SelectOpenChild(attacker: bool, i: nat, secondPn: nat, secondDn: nat, ply: nat, ghost active: set<nat>)
      returns (c: nat, childPn: nat, childDn: nat)
      requires AtNode(active, i, attacker, ply) && pool.nodes[i].IsOpen() && pool.nodes[i].HasChildren()
      requires pool.nodes[i].pn < secondPn <= INF && pool.nodes[i].dn < secondDn <= INF
      ensures IsSelected(i, c, childPn, childDn)
    {
      hide TreeInvariant, AllGood, Good, Truthful, Adjudicated, SoundMateInOne, IsBest, IsChildOf, Linked;
      LinkedNode(State(), active, i);
      var best: Option<nat>;
      best, childPn, childDn := SelectBestChild(attacker, i, secondPn, secondDn);
      NumbersSelectable(rules, root, State(), active, i);
      c := best.value;
      BestIsSelected(rules, root, State(), active, i, secondPn, secondDn, c, childPn, childDn);
    }

    /** Summarizes the last node of the active path, whose children have changed. */
    method SummarizeParent(attacker: bool, i: nat, ghost active: set<nat>)
      requires Sized() && TreeInvariant(rules, root, State(), active + {i}) && i !in active
      requires Live(State(), i) && i <= pool.used && info[i].attacker == attacker && (i > 0 ==> info[i].parent in active)
      requires pool.nodes[i].IsOpen() && pool.nodes[i].HasChildren()
      modifies pool.nodes
      ensures Sized() && Kept(i) && Live(State(), i) && pool.nodes[i].HasChildren()
      ensures TreeInvariant(rules, root, State(), active) && AllGood(rules, root, State())
      ensures |OpenLeaves(State())| == old(|OpenLeaves(State())|)
    {
      hide TreeInvariant, AllGood, Linked, OpenLeaves, SummaryPn, SummaryDn, ChildrenTimed, RunOk, Timed, IsChildOf;
      LinkedNode(State(), active + {i}, i);
      ghost var t := State();
      SummarizeNode(attacker, i);
      SummarizeKeepsInvariant(rules, root, t, active, i, pool.nodes[i]);
      RenumberingKeepsLeaves(t, i, pool.nodes[i]);
      InvariantIsGood(rules, root, State(), active);
    }

    /** Closes the child on the board with an adjudicated verdict, takes the move back and
        summarizes the parent. */
    method CloseChild(attacker: bool, i: nat, c: nat, ply: nat, attackerWins: bool, ghost active: set<nat>)
      requires AtNode(active, i, attacker, ply) && pool.nodes[i].IsOpen() && pool.nodes[i].HasChildren()
      requires IsChildOf(rules, State(), i, c) && i < c <= pool.used && pool.nodes[c].IsOpen()
      requires Adjudicated(rules, root, info[c].run)
      requires attackerWins <==> AttackerWins(CheckRepetition(rules, info[c].run, REPETITION_LOOKBACK), !attacker)
      modifies pool.nodes
      ensures Kept(i) && Sized()
      ensures Live(State(), i) && i <= pool.used && pool.nodes[i].HasChildren()
      ensures TreeInvariant(rules, root, State(), active)
      ensures |OpenLeaves(State())| < old(|OpenLeaves(State())|)
    {
      hide TreeInvariant, AllGood, Good, Truthful, Adjudicated, SoundMateInOne, Linked, OpenLeaves, CheckRepetition, SummaryPn, SummaryDn;
      ghost var t := State();
      var n := if attackerWins then pool.nodes[c].SetMate(ply + 1) else pool.nodes[c].SetNoMate(ply + 1);
      n := n.(repeated := true);
      AdjudicateChild(rules, root, t, active, i, c, n, ply + 1);
      pool.nodes[c] := n;
      ghost var t1 := State();
      assert t1 == SetNode(t, c, n);
      SummarizeParent(attacker, i, active);
    }

    /** One pass of the search loop over an expanded node: the best child is adjudicated
        or searched, and the node summarized again. */
    method VisitBestChild(attacker: bool, i: nat, secondPn: nat, secondDn: nat, ply: nat, ghost active: set<nat>)
      returns (stop: bool)
      requires AtNode(active, i, attacker, ply) && path == run[root..]
      requires pool.nodes[i].IsOpen() && pool.nodes[i].HasChildren()
      requires pool.nodes[i].pn < secondPn <= INF && pool.nodes[i].dn < secondDn <= INF
      requires !pool.OutOfMemory() && nodesSearched < nodesLimit
      modifies this`polls, this`info, this`nodesSearched, this`run, this`path, pool, pool.nodes
      ensures polls >= old(polls) && Kept(i) && Sized() && run == old(run) && path == old(path)
      ensures AllGood(rules, root, State()) && Live(State(), i) && i <= pool.used && nodesSearched >= old(nodesSearched)
      ensures stop ==> Stopped()
      ensures !stop ==> TreeInvariant(rules, root, State(), active) && Progress() && pool.nodes[i].HasChildren()
      decreases pool.capacity + 1 - i, 0, 1
    {
      hide TreeInvariant, AllGood, Good, Truthful, Adjudicated, SoundMateInOne, Linked, OpenLeaves, CheckRepetition, SummaryPn, SummaryDn;
      var c, childPn, childDn := SelectOpenChild(attacker, i, secondPn, secondDn, ply, active);
      ChildOnBoard(State(), active, i, c);
      run := run + [rules.play(Last(run), pool.nodes[c].lastMove)];
      AdjudicatedOnBoard(rules, root, run, path);
      var repetition := CheckRepetition(rules, run, REPETITION_LOOKBACK);
      if repetition != NoRepetition || Last(run) in path {
        var attackerWins := AttackerWins(repetition, !attacker);
        run := run[..|run| - 1];
        CloseChild(attacker, i, c, ply, attackerWins, active);
        InvariantIsGood(rules, root, State(), active);
        return false;
      }
      stop := SearchChild(attacker, i, c, childPn, childDn, ply, active);
    }

    /** Searches the selected child, which is on the board, takes the move back and
        summarizes the parent again. */
    method SearchChild(attacker: bool, i: nat, c: nat, childPn: nat, childDn: nat, ply: nat, ghost active: set<nat>)
      returns (stop: bool)
      requires Sized() && SoundMateInOne(rules) && TreeInvariant(rules, root, State(), active)
      requires Live(State(), i) && i !in active && (i > 0 ==> info[i].parent in active) && (forall a | a in active :: a < i)
      requires IsSelected(i, c, childPn, childDn) && info[i].attacker == attacker
      requires pool.nodes[i].IsOpen() && pool.nodes[i].HasChildren()
      requires run == info[c].run && |run| == root + 2 + ply && !Adjudicated(rules, root, run) && path == run[..|run| - 1][root..]
      requires !pool.OutOfMemory() && nodesSearched < nodesLimit
      modifies this`polls, this`info, this`nodesSearched, this`run, this`path, pool, pool.nodes
      ensures polls >= old(polls) && Kept(i) && Sized() && run == old(run)[..|old(run)| - 1] && path == old(path)
      ensures AllGood(rules, root, State()) && Live(State(), i) && i <= pool.used && nodesSearched >= old(nodesSearched)
      ensures stop ==> Stopped()
      ensures !stop ==> TreeInvariant(rules, root, State(), active) && Progress() && pool.nodes[i].HasChildren()
      decreases pool.capacity + 1 - i, 0, 0
    {
      hide TreeInvariant, AllGood, Good, Truthful, Adjudicated, SoundMateInOne, Linked, OpenLeaves, SummaryPn, SummaryDn, IsChildOf, Summarized, IsLeaf;
      ChildOnBoard(State(), active, i, c);
      path := path + [Last(run)];
      assert path == run[root..];
      WidenActive(rules, root, State(), active, i);
      Search(!attacker, c, childPn, childDn, ply + 1, active + {i});
      path := path[..|path| - 1];
      run := run[..|run| - 1];
      stop := ShouldStop();
      if stop {
        return;
      }
      SummarizeParent(attacker, i, active);
    }

    lemma ChildOnBoard(t: Tree, active: set<nat>, i: nat, c: nat)
      requires TreeInvariant(rules, root, t, active) && IsChildOf(rules, t, i, c)
      ensures Live(t, c) && |t.info[c].run| <= root + 1 + c && c < |t.nodes| <= MAX_POOL_NODES + 1
      ensures t.nodes[c].IsExpanded() ==> !Adjudicated(rules, root, t.info[c].run)
      ensures Live(t, i) && t.info[c].parent == i && t.info[c].attacker == !t.info[i].attacker
    {
      GoodParts(rules, root, t, c);
    }

    method Search(attacker: bool, i: nat, secondPn: nat, secondDn: nat, ply: nat, ghost active: set<nat>)
      requires AtNode(active, i, attacker, ply) && path == run[root..]
      requires pool.nodes[i].IsOpen()
      requires pool.nodes[i].pn < secondPn <= INF && pool.nodes[i].dn < secondDn <= INF
      requires !pool.OutOfMemory() && nodesSearched < nodesLimit
      modifies this`polls, this`info, this`nodesSearched, this`run, this`path, pool, pool.nodes
      ensures polls >= old(polls) && Kept(i) && Sized() && run == old(run) && path == old(path)
      ensures AllGood(rules, root, State()) && Live(State(), i) && i <= pool.used && nodesSearched >= old(nodesSearched)
      ensures !Stopped() ==> TreeInvariant(rules, root, State(), active) && Progress()
      decreases pool.capacity + 1 - i, 1
    {
      hide TreeInvariant, AllGood, Good, Truthful, Adjudicated, SoundMateInOne, Checks, Linked, InRange, OpenLeaves, SummaryPn, SummaryDn;
      InvariantIsGood(rules, root, State(), active);
      OpenNode(State(), active, i);
      var stop := ShouldStop();
      if stop {
        return;
      }
      if !pool.nodes[i].IsExpanded() {
        FirstVisit(attacker, i, ply, active);
        return;
      }
      SearchLoop(attacker, i, secondPn, secondDn, ply, active);
    }

    /** The first visit of a node expands it and summarizes the result. */
    method FirstVisit(attacker: bool, i: nat, ply: nat, ghost active: set<nat>)
      requires AtNode(active, i, attacker, ply) && IsLeaf(State(), i) && pool.used < pool.capacity
      modifies this`polls, this`info, this`nodesSearched, pool, pool.nodes
      ensures polls >= old(polls) && Kept(i) && Sized()
      ensures AllGood(rules, root, State()) && Live(State(), i) && i <= pool.used && nodesSearched >= old(nodesSearched)
      ensures !Stopped() ==> TreeInvariant(rules, root, State(), active) && nodesSearched > old(nodesSearched)
    {
      hide TreeInvariant, AllGood, Good, Truthful, Adjudicated, SoundMateInOne, Checks, Linked, InRange, SummaryPn, SummaryDn, IsLeaf, RunOk, ChildrenTimed, Timed, IsChildOf, Summarized;
      ExpandNode(attacker, i, ply, active);
      var stop := ShouldStop();
      if stop {
        ExpandedIsGood(active, i);
        return;
      }
      nodesSearched := nodesSearched + 1;
      LinkedNode(State(), active + {i}, i);
      ghost var t := State();
      SummarizeNode(attacker, i);
      if t.nodes[i].HasChildren() {
        SummarizeKeepsInvariant(rules, root, t, active, i, pool.nodes[i]);
      }
      InvariantIsGood(rules, root, State(), active);
    }

    lemma ExpandedIsGood(active: set<nat>, i: nat)
      requires Sized() && Live(State(), i)
      ensures IsExpandedProperly(active, i) ==> AllGood(rules, root, State())
    {
    }

    lemma OpenNode(t: Tree, active: set<nat>, i: nat)
      requires TreeInvariant(rules, root, t, active) && Live(t, i) && t.nodes[i].IsOpen()
      ensures if t.nodes[i].IsExpanded() then t.nodes[i].HasChildren() else IsLeaf(t, i)
    {
      GoodParts(rules, root, t, i);
    }

    method SearchLoop(attacker: bool, i: nat, secondPn: nat, secondDn: nat, ply: nat, ghost active: set<nat>)
      requires AtNode(active, i, attacker, ply) && path == run[root..]
      requires pool.nodes[i].IsOpen() && pool.nodes[i].HasChildren()
      requires pool.nodes[i].pn < secondPn <= INF && pool.nodes[i].dn < secondDn <= INF
      requires !pool.OutOfMemory() && nodesSearched < nodesLimit
      modifies this`polls, this`info, this`nodesSearched, this`run, this`path, pool, pool.nodes
      ensures polls >= old(polls) && Kept(i) && Sized() && run == old(run) && path == old(path)
      ensures AllGood(rules, root, State()) && Live(State(), i) && i <= pool.used && nodesSearched >= old(nodesSearched)
      ensures !Stopped() ==> TreeInvariant(rules, root, State(), active) && Progress()
      decreases pool.capacity + 1 - i, 0, 2
    {
      hide TreeInvariant, AllGood, Good, Truthful, Adjudicated, SoundMateInOne, Checks, Linked, InRange, OpenLeaves;
      InvariantIsGood(rules, root, State(), active);
      ghost var moved := false;
      while true
        invariant AtNode(active, i, attacker, ply) && path == run[root..] && run == old(run) && path == old(path)
        invariant AllGood(rules, root, State()) && pool.nodes[i].HasChildren()
        invariant polls >= old(polls) && nodesSearched >= old(nodesSearched) && Kept(i)
        invariant moved ==> Progress()
        invariant !moved ==> pool.nodes[i] == old(pool.nodes[i]) && !pool.OutOfMemory() && nodesSearched == old(nodesSearched) < nodesLimit
        decreases nodesLimit - nodesSearched, |OpenLeaves(State())|
      {
        var node := pool.nodes[i];
        if !(node.pn < secondPn && node.dn < secondDn && node.pn != 0 && node.dn != 0 && !pool.OutOfMemory()) {
          break;
        }
        var stop := ShouldStop();
        if stop || nodesSearched >= nodesLimit {
          break;
        }
        stop := VisitBestChild(attacker, i, secondPn, secondDn, ply, active);
        if stop {
          return;
        }
        moved := true;
      }
    }

    // ----- the principal variation -----

    /** The proven child with the smallest distance at an attacker's node, the largest at
        a defender's. There always is one. */
    method BestProvenChild(attacker: bool, i: nat) returns (best: Option<nat>)
      requires Sized() && Live(State(), i) && Linked(rules, State(), i) && pool.nodes[i].HasChildren() && info[i].attacker == attacker
      requires RunOk(rules, root, State(), i) && ChildrenTimed(rules, root, State(), i) && SummaryPn(State(), i) == 0
      ensures best.Some?
      ensures pool.nodes[i].children.value <= best.value < pool.nodes[i].children.value + pool.nodes[i].childNum
      ensures best.value < pool.nodes.Length && pool.nodes[best.value].pn == 0
      ensures pool.nodes[best.value].mateDistance == DistanceAmong(attacker, Children(State(), i))
    {
      hide IsChildOf, RunOk, ChildrenTimed, SummaryPn, DistanceAmong, Children, Linked;
      ghost var nodes := Children(State(), i);
      ChildrenAre(i);
      AmongNone(attacker, nodes);
      ghost var proven := CloseProof(rules, root, State(), i);
      best := None;
      var node := pool.nodes[i];
      var bestDistance := if attacker then 0xFFFF else 0;
      for j := 0 to node.childNum
        invariant best.Some? ==>
                    && node.children.value <= best.value < node.children.value + node.childNum
                    && pool.nodes[best.value].pn == 0
                    && pool.nodes[best.value].mateDistance == bestDistance
        invariant best.None? ==> bestDistance == (if attacker then 0xFFFF else 0)
        invariant bestDistance == DistanceAmong(attacker, nodes[..j])
        invariant proven < j ==> best.Some?
      {
        var child := pool.nodes[node.children.value + j];
        AmongOneMore(attacker, nodes, j);
        if child.pn == 0 {
          var better := if attacker then child.mateDistance < bestDistance
                        else best.None? || child.mateDistance > bestDistance;
          if better {
            best := Some(node.children.value + j);
            bestDistance := child.mateDistance;
          }
        }
      }
      assert nodes[..node.childNum] == nodes;
    }

    /** The k-th move of the line can be played where it stands, and gives check if it is the
        attacker's. */
    ghost predicate IsPlayable(board: Run, moves: seq<Move>, k: nat)
      requires |board| > 0 && k < |moves|
    {
      var p := Last(PlayLine(rules, board, moves[..k]));
      moves[k] in rules.legal(p) && (Even(k) ==> rules.inCheck(rules.play(p, moves[k])))
    }

    ghost predicate AllPlayable(board: Run, moves: seq<Move>)
      requires |board| > 0
    {
      forall k: nat | k < |moves| :: IsPlayable(board, moves, k)
    }

    /** Walks the proven tree from the root: the line is legal, checks at every attacking move,
        is won at every point, and ends where the game is over, which after an attacking move
        and without a repetition is checkmate. While the distances have not overflowed it is the
        principal line: as short as the attacker and as long as the defender can make it within
        the proven tree. */
    method ExtractPV(board: Run)
      requires Sized() && TreeInvariant(rules, root, State(), {}) && SoundMateInOne(rules)
      requires board == info[0].run && pool.nodes[0].pn == 0 && |board| == root + 1
      modifies this`pv, this`matePly
      ensures matePly == |pv| && IsWinningLine(rules, board, pv) && AllPlayable(board, pv)
      ensures LineEnds(rules, root, PlayLine(rules, board, pv), Even(|pv|)) && pv != []
      ensures pool.used < 0xFFFF ==> forall k: nat :: Mates(State(), 0, k) <==> |pv| <= k
    {
      hide Mates, Children, DistanceAmong, AllGood, TreeInvariant, ForcedWin, SoundMateInOne, Good, IsChildOf, PlayLine, WinsAlong, IsWinningLine, Linked, AllPlayable, LineEnds, RunOk, ChildrenTimed, SummaryPn, Shape;
      pv, matePly := [], 0;
      var i, attacker := 0, true;
      InvariantIsGood(rules, root, State(), {});
      GoodShape(rules, root, State());
      NodeOnLine(State(), 0);
      LineStart(board);
      while pool.nodes[i].childNum > 0 && pool.nodes[i].children.Some?
        invariant i < |info| && Live(State(), i) && pool.nodes[i].pn == 0 && info[i].attacker == attacker
        invariant info[i].run == PlayLine(rules, board, pv) && attacker == Even(|pv|)
        invariant matePly == |pv| && IsWinningLine(rules, board, pv)
        invariant AllPlayable(board, pv)
        invariant pool.used < 0xFFFF ==> |pv| + pool.nodes[i].mateDistance == pool.nodes[0].mateDistance
        decreases pool.capacity - i
      {
        NodeOnLine(State(), i);
        ProvenNode(State(), i);
        var best := BestProvenChild(attacker, i);
        var c := best.value;
        LineStep(State(), i, c, board, pv);
        pv := pv + [pool.nodes[c].lastMove];
        matePly := matePly + 1;
        i := c;
        attacker := !attacker;
      }
      ProvenLeafEnds(State(), i);
      RootGoesOn(board);
      RootDistance(State());
    }

    /** One step along the line. */
    lemma LineStep(t: Tree, i: nat, c: nat, board: Run, moves: seq<Move>)
      requires TreeInvariant(rules, root, t, {}) && SoundMateInOne(rules) && Live(t, i) && t.nodes[i].HasChildren() && Linked(rules, t, i)
      requires t.nodes[i].children.value <= c < t.nodes[i].children.value + t.nodes[i].childNum && c < |t.nodes|
      requires |board| == root + 1 && t.info[i].run == PlayLine(rules, board, moves) && t.info[i].attacker == Even(|moves|)
      requires t.nodes[i].pn == t.nodes[c].pn == 0 && t.nodes[c].mateDistance == DistanceAmong(t.info[i].attacker, Children(t, i))
      requires IsWinningLine(rules, board, moves) && AllPlayable(board, moves)
      ensures var next := moves + [t.nodes[c].lastMove];
              && Live(t, c) && i < c && t.info[c].attacker == !t.info[i].attacker && t.info[c].attacker == Even(|next|)
              && t.info[c].run == PlayLine(rules, board, next) && IsWinningLine(rules, board, next) && AllPlayable(board, next)
      ensures t.used < 0xFFFF ==> t.nodes[i].mateDistance == t.nodes[c].mateDistance + 1
    {
      hide TreeInvariant, SoundMateInOne, Linked, AllGood, Good, IsWinningLine, AllPlayable, WinsAlong, PlayLine, DistanceAmong, Children;
      InvariantIsGood(rules, root, t, {});
      NodeOnLine(t, i);
      ProvenChild(t, i, c, board, moves);
      NextDistance(t, i, c);
      ExtendLine(rules, board, moves, t.nodes[c].lastMove);
      PlayableExtends(board, moves, t.nodes[c].lastMove, t.info[i].run);
      assert |moves + [t.nodes[c].lastMove]| == |moves| + 1;
    }

    lemma PlayableExtends(board: Run, moves: seq<Move>, m: Move, run: Run)
      requires |board| > 0 && AllPlayable(board, moves) && run == PlayLine(rules, board, moves) && |run| > 0
      requires m in rules.legal(Last(run)) && (Even(|moves|) ==> rules.inCheck(rules.play(Last(run), m)))
      ensures AllPlayable(board, moves + [m])
    {
      hide PlayLine, Even;
      forall k: nat | k < |moves + [m]|
        ensures IsPlayable(board, moves + [m], k)
      {
        if k < |moves| {
          assert IsPlayable(board, moves, k);
          assert (moves + [m])[..k] == moves[..k];
        } else {
          assert (moves + [m])[..k] == moves;
        }
      }
    }

    lemma ProvenNode(t: Tree, i: nat)
      requires TreeInvariant(rules, root, t, {}) && Live(t, i) && t.nodes[i].HasChildren() && t.nodes[i].pn == 0
      ensures RunOk(rules, root, t, i) && ChildrenTimed(rules, root, t, i) && SummaryPn(t, i) == 0
    {
      hide AllGood, RunOk, ChildrenTimed;
      assert Summarized(t, i);
      GoodChildrenTimed(rules, root, t, i);
    }

    /** The child read off is one ply closer to the end. */
    lemma NextDistance(t: Tree, i: nat, c: nat)
      requires TreeInvariant(rules, root, t, {}) && Live(t, i) && Live(t, c) && t.nodes[i].HasChildren()
      requires t.nodes[i].pn == t.nodes[c].pn == 0 && t.nodes[c].mateDistance == DistanceAmong(t.info[i].attacker, Children(t, i))
      ensures t.used < 0xFFFF ==> t.nodes[i].mateDistance == t.nodes[c].mateDistance + 1
    {
      hide AllGood, DistanceAmong, Children;
      GoodParts(rules, root, t, c);
      assert Summarized(t, i);
    }

    lemma RootDistance(t: Tree)
      requires TreeInvariant(rules, root, t, {}) && Live(t, 0) && t.nodes[0].pn == 0
      ensures |t.nodes| == |t.info| && (t.used < 0xFFFF ==> forall k: nat :: Mates(t, 0, k) <==> t.nodes[0].mateDistance <= k)
    {
      hide TreeInvariant, Mates, AllGood;
      InvariantIsGood(rules, root, t, {});
      GoodShape(rules, root, t);
      if t.used < 0xFFFF {
        forall k: nat
          ensures Mates(t, 0, k) <==> t.nodes[0].mateDistance <= k
        {
          DistanceIsExact(rules, root, t, 0, k);
        }
      }
    }

    lemma ProvenLeafEnds(t: Tree, i: nat)
      requires AllGood(rules, root, t) && Live(t, i) && t.nodes[i].pn == 0 && !(t.nodes[i].childNum > 0 && t.nodes[i].children.Some?)
      ensures |t.info[i].run| > 0 && LineEnds(rules, root, t.info[i].run, t.info[i].attacker) && t.nodes[i].mateDistance == 0
    {
      hide LineEnds, ForcedWin;
      GoodParts(rules, root, t, i);
    }

    lemma LineStart(board: Run)
      requires |board| == root + 1 && ForcedWin(rules, MAX_CHILDREN, root, board, true)
      ensures PlayLine(rules, board, []) == board && IsWinningLine(rules, board, []) && AllPlayable(board, [])
    {
      assert WinsAlong(rules, board, []);
    }

    lemma NodeOnLine(t: Tree, i: nat)
      requires AllGood(rules, root, t) && Live(t, i)
      ensures Linked(rules, t, i) && |t.info[i].run| > 0 && i <= t.used
      ensures t.nodes[i].children.Some? ==> t.nodes[i].HasChildren()
      ensures t.nodes[i].pn == 0 ==> ForcedWin(rules, MAX_CHILDREN, root, t.info[i].run, t.info[i].attacker)
    {
      GoodParts(rules, root, t, i);
    }

    lemma ProvenChild(t: Tree, i: nat, c: nat, board: Run, moves: seq<Move>)
      requires AllGood(rules, root, t) && SoundMateInOne(rules) && Live(t, i) && t.nodes[i].HasChildren() && Linked(rules, t, i)
      requires t.nodes[i].children.value <= c < t.nodes[i].children.value + t.nodes[i].childNum
      requires |board| == root + 1 && t.info[i].run == PlayLine(rules, board, moves) && t.info[i].attacker == Even(|moves|)
      requires c < |t.nodes| && t.nodes[c].pn == 0
      ensures Live(t, c) && i < c && t.info[c].attacker == !t.info[i].attacker
      ensures t.info[c].run == PlayLine(rules, board, moves + [t.nodes[c].lastMove])
      ensures WinsAlong(rules, board, moves + [t.nodes[c].lastMove])
      ensures var m := t.nodes[c].lastMove;
              && m in rules.legal(Last(t.info[i].run))
              && (t.info[i].attacker ==> rules.inCheck(rules.play(Last(t.info[i].run), m)))
    {
      hide ForcedWin, Checks, Adjudicated, PlayLine, AllGood, Covered, InRange, Linked, IsLegalRun, WinsAlong, LineEnds;
      ChildOfProven(t, i, c);
      LineContinues(board, moves, t.nodes[c].lastMove, t.info[i].run, t.info[c].run, t.info[c].attacker);
      if t.info[i].attacker {
        ListedMoveChecks(t, i, c);
      } else {
        ListedMoveIsLegal(t, i, c);
      }
    }

    lemma ListedMoveIsLegal(t: Tree, i: nat, c: nat)
      requires Live(t, i) && t.nodes[i].HasChildren() && Linked(rules, t, i) && Covered(rules, t, i)
      requires t.nodes[i].children.value <= c < t.nodes[i].children.value + t.nodes[i].childNum
      requires |t.info[i].run| > 0 && !t.info[i].attacker && c < |t.nodes|
      ensures t.nodes[c].lastMove in rules.legal(Last(t.info[i].run))
    {
      hide Checks, IsChildOf;
      var moves := Capped(MAX_CHILDREN, rules.legal(Last(t.info[i].run)));
      var j := c - t.nodes[i].children.value;
      assert t.nodes[t.nodes[i].children.value + j].lastMove == moves[j];
      assert moves[j] == rules.legal(Last(t.info[i].run))[j];
    }

    lemma LineContinues(board: Run, moves: seq<Move>, m: Move, before: Run, after: Run, attacker: bool)
      requires |board| == root + 1 && before == PlayLine(rules, board, moves) && after == before + [rules.play(Last(before), m)]
      requires attacker == !Even(|moves|)
      ensures after == PlayLine(rules, board, moves + [m])
      ensures ForcedWin(rules, MAX_CHILDREN, root, after, attacker) ==> WinsAlong(rules, board, moves + [m])
    {
      hide ForcedWin, PlayLine;
      PlayOne(rules, board, moves, m);
      assert |moves + [m]| == |moves| + 1;
    }

    lemma ChildOfProven(t: Tree, i: nat, c: nat)
      requires AllGood(rules, root, t) && Live(t, i) && t.nodes[i].HasChildren() && Linked(rules, t, i)
      requires t.nodes[i].children.value <= c < t.nodes[i].children.value + t.nodes[i].childNum
      ensures |t.info[i].run| > 0 && Covered(rules, t, i) && IsChildOf(rules, t, i, c) && i < c
      ensures |t.info[c].run| > 0 && Truthful(rules, root, t, c)
    {
      hide AllGood, Covered;
      assert IsChildOf(rules, t, i, c);
      GoodParts(rules, root, t, i);
      GoodParts(rules, root, t, c);
    }

    lemma ListedMoveChecks(t: Tree, i: nat, c: nat)
      requires SoundMateInOne(rules) && Live(t, i) && t.nodes[i].HasChildren() && Linked(rules, t, i) && Covered(rules, t, i)
      requires t.nodes[i].children.value <= c < t.nodes[i].children.value + t.nodes[i].childNum
      requires |t.info[i].run| > 0 && t.info[i].attacker && c < |t.nodes|
      ensures var m := t.nodes[c].lastMove;
              m in rules.legal(Last(t.info[i].run)) && rules.inCheck(rules.play(Last(t.info[i].run), m))
    {
      hide Checks, IsChildOf;
      FilterGivesChecksOf(rules, Last(t.info[i].run));
      var first := t.nodes[i].children.value;
      var p := Last(t.info[i].run);
      var j := c - first;
      if rules.mateInOne(p) == NULL_MOVE {
        var moves := Capped(MAX_CHILDREN, Checks(rules, p));
        assert t.nodes[first + j].lastMove == moves[j];
        assert moves[j] == Checks(rules, p)[j];
      }
    }

    // ----- the entry point -----

    /** Searches for a forced checkmate from the last position of `board`, whose side to
        move is the attacker. A reported mate is a legal check that wins by force, with a line
        to its end; a reported no-mate means no win can be forced; and the search only gives up
        when it was stopped or ran out of nodes or memory. */
    method SearchPosition(board: Run, limit: nat) returns (r: SearchResult)
      requires IsLegalRun(rules, board) && SoundMateInOne(rules) && pool.Valid()
      modifies this, pool, pool.nodes
      ensures match r
              case Mate(m) =>
                && m in rules.legal(Last(board)) && rules.inCheck(rules.play(Last(board), m))
                && ForcedAfter(rules, MAX_CHILDREN, |board| - 1, board, m, false)
                && pv != [] && pv[0] == m && matePly == |pv| && IsWinningLine(rules, board, pv) && AllPlayable(board, pv)
                && LineEnds(rules, |board| - 1, PlayLine(rules, board, pv), Even(|pv|))
                && Sized() && (limit <= 8191 ==> forall k: nat :: Mates(State(), 0, k) <==> |pv| <= k)
              case NoMate => !ForcedWin(rules, MAX_CHILDREN, |board| - 1, board, true)
              case Unsolved => Stopped() || pool.OutOfMemory() || nodesSearched >= limit
    {
      hide AllGood, TreeInvariant, SoundMateInOne, ForcedWin, ForcedAfter, IsWinningLine, AllPlayable, LineEnds, PlayLine, Mates, AttackerWins, Checks, Shape, Good, Summarized, Even;
      nodesSearched, nodesLimit := 0, limit;
      matePly, pv, path := 0, [], [];
      var stop := ShouldStop();
      if stop {
        return Unsolved;
      }
      var scaled := if limit >= MAX_POOL_NODES / 8 then MAX_POOL_NODES else limit * 8;
      var poolSize := if scaled < 1024 then 1024 else if scaled > MAX_POOL_NODES then MAX_POOL_NODES else scaled;
      pool.Alloc(poolSize);
      SearchRoot(board);
      stop := ShouldStop();
      if stop {
        return Unsolved;
      }
      r := ReadResult(board);
    }

    /** What the root's numbers say once the search has ended. */
    method ReadResult(board: Run) returns (r: SearchResult)
      requires Sized() && TreeInvariant(rules, root, State(), {}) && AllGood(rules, root, State()) && SoundMateInOne(rules)
      requires |board| == root + 1 && board == info[0].run
      modifies this`polls, this`pv, this`matePly
      ensures polls >= old(polls)
      ensures match r
              case Mate(m) =>
                && m in rules.legal(Last(board)) && rules.inCheck(rules.play(Last(board), m))
                && ForcedAfter(rules, MAX_CHILDREN, |board| - 1, board, m, false)
                && pv != [] && pv[0] == m && matePly == |pv| && IsWinningLine(rules, board, pv) && AllPlayable(board, pv)
                && LineEnds(rules, |board| - 1, PlayLine(rules, board, pv), Even(|pv|))
                && (pool.used < 0xFFFF ==> forall k: nat :: Mates(State(), 0, k) <==> |pv| <= k)
              case NoMate => !ForcedWin(rules, MAX_CHILDREN, |board| - 1, board, true)
              case Unsolved => Stopped() || (pool.nodes[0].pn != 0 && pool.nodes[0].dn != 0)
    {
      hide AllGood, TreeInvariant, SoundMateInOne, ForcedWin, ForcedAfter, IsWinningLine, AllPlayable, LineEnds, PlayLine, Mates, AttackerWins, Checks, Shape, Good, Summarized, Even;
      RootVerdict(State(), board);
      if pool.nodes[0].pn == 0 {
        ExtractPV(board);
        var stop := ShouldStop();
        if stop {
          pv, matePly := [], 0;
          return Unsolved;
        }
        FirstMoveWins(board, pv);
        FirstMovePlayable(board, pv);
        return Mate(pv[0]);
      } else if pool.nodes[0].dn == 0 {
        return NoMate;
      }
      return Unsolved;
    }

    /** The line cannot end where it starts. */
    lemma RootGoesOn(board: Run)
      requires |board| > 0
      ensures !LineEnds(rules, |board| - 1, PlayLine(rules, board, []), Even(0))
    {
      assert PlayLine(rules, board, []) == board;
    }

    lemma FirstMovePlayable(board: Run, moves: seq<Move>)
      requires |board| > 0 && moves != [] && AllPlayable(board, moves)
      ensures moves[0] in rules.legal(Last(board)) && rules.inCheck(rules.play(Last(board), moves[0]))
    {
      assert IsPlayable(board, moves, 0);
      assert moves[..0] == [];
      assert PlayLine(rules, board, []) == board;
    }

    lemma FirstMoveWins(board: Run, moves: seq<Move>)
      requires |board| > 0 && moves != [] && IsWinningLine(rules, board, moves)
      ensures ForcedAfter(rules, MAX_CHILDREN, |board| - 1, board, moves[0], false)
    {
      assert WinsAlong(rules, board, moves[..1]);
      assert moves[..1] == [] + [moves[0]];
      PlayOne(rules, board, [], moves[0]);
    }

    lemma RootVerdict(t: Tree, board: Run)
      requires AllGood(rules, root, t) && |t.nodes| == |t.info| > 0 && t.info[0].run == board
      ensures |board| == root + 1
      ensures t.nodes[0].pn == 0 ==> ForcedWin(rules, MAX_CHILDREN, root, board, true)
      ensures t.nodes[0].dn == 0 ==> !ForcedWin(rules, MAX_CHILDREN, root, board, true)
    {
      hide ForcedWin, Adjudicated;
      GoodShape(rules, root, t);
      GoodParts(rules, root, t, 0);
    }

    /** The root loop: searches until the root is solved or a resource runs out. */
    method SearchRoot(board: Run)
      requires |board| > 0 && IsLegalRun(rules, board) && SoundMateInOne(rules)
      requires pool.Valid() && 0 < pool.capacity <= MAX_POOL_NODES && pool.used == 0 && !pool.exhausted && nodesSearched == 0
      requires forall k: nat | 0 < k < pool.nodes.Length :: pool.nodes[k] == FRESH
      modifies this`polls, this`info, this`nodesSearched, this`run, this`path, this`root, pool, pool.nodes
      ensures Sized() && AllGood(rules, root, State()) && info[0].run == board && root == |board| - 1
      ensures !Stopped() ==> TreeInvariant(rules, root, State(), {})
      ensures pool.nodes == old(pool.nodes) && pool.capacity == old(pool.capacity)
      ensures || Stopped() || pool.OutOfMemory() || nodesSearched >= nodesLimit
              || pool.nodes[0].pn == 0 || pool.nodes[0].dn == 0
    {
      hide TreeInvariant, AllGood, Good, Truthful, Adjudicated, OpenLeaves, IsLegalRun;
      pool.nodes[0] := FRESH;
      root := |board| - 1;
      run, path := board, [Last(board)];
      info := seq(pool.capacity + 1, k => if k == 0 then Info(board, true, 0, true) else Info([], false, 0, false));
      InitialTree(rules, root, State(), board);
      InvariantIsGood(rules, root, State(), {});
      assert AtNode({}, 0, true, 0);
      while true
        invariant Sized() && AllGood(rules, root, State()) && Live(State(), 0) && info[0].run == board && run == board
        invariant pool.nodes == old(pool.nodes) && pool.capacity == old(pool.capacity) && root == |board| - 1 && path == run[root..]
        invariant Stopped() || AtNode({}, 0, true, 0)
        decreases if Stopped() then 0 else 1, nodesLimit - nodesSearched, |OpenLeaves(State())|
      {
        if !(pool.nodes[0].pn != 0 && pool.nodes[0].dn != 0 && !pool.OutOfMemory()) {
          break;
        }
        var stop := ShouldStop();
        if stop || nodesSearched >= nodesLimit {
          break;
        }
        RootBelowInfinity(rules, root, State());
        Search(true, 0, INF, INF, 0, {});
      }
      path := path[..|path| - 1];
    }
  }

  /** The smallest value (or infinity) at the other positions. */
  ghost predicate IsRunnerUp(vals: seq<nat>, best: nat, runnerUp: nat) {
    && runnerUp <= INF
    && (forall k: nat | k < |vals| && k != best :: runnerUp <= vals[k])
    && (runnerUp == INF || exists k: nat :: k < |vals| && k != best && vals[k] == runnerUp)
  }

  /** `c` is a child with the smallest selecting number; its selecting threshold is one
      more than the runner-up, the other threshold is the parent's. */
  ghost predicate IsBest(t: Tree, i: nat, c: nat, secondPn: nat, secondDn: nat, childPn: nat, childDn: nat)
    requires Live(t, i)
  {
    t.nodes[i].children.Some? &&
    exists j: nat, runnerUp: nat ::
      && j < t.nodes[i].childNum == |Selecting(t, i)| && c == t.nodes[i].children.value + j
      && Selecting(t, i)[j] == MinOf(Selecting(t, i))
      && IsRunnerUp(Selecting(t, i), j, runnerUp)
      && childPn == (if t.info[i].attacker then Min(secondPn, SatAdd(runnerUp, 1, INF)) else secondPn)
      && childDn == (if t.info[i].attacker then secondDn else Min(secondDn, SatAdd(runnerUp, 1, INF)))
  }

  /** The best child of an unresolved node is unresolved and its thresholds exceed its
      numbers. */
  lemma {:induction false} BestIsSelected(rules: Rules, root: nat, t: Tree, active: set<nat>, i: nat, secondPn: nat, secondDn: nat,
                       c: nat, childPn: nat, childDn: nat)
    requires TreeInvariant(rules, root, t, active) && Live(t, i) && i !in active && (forall a | a in active :: a < i)
    requires t.nodes[i].IsOpen() && t.nodes[i].HasChildren() && t.nodes[i].pn < secondPn <= INF && t.nodes[i].dn < secondDn <= INF
    requires IsBest(t, i, c, secondPn, secondDn, childPn, childDn)
    ensures IsChildOf(rules, t, i, c) && i < c <= t.used && t.used < |t.nodes|
    ensures t.nodes[c].IsOpen() && (t.nodes[c].IsExpanded() ==> t.nodes[c].HasChildren())
    ensures t.nodes[c].pn < childPn <= INF && t.nodes[c].dn < childDn <= INF
  {
    hide TreeInvariant, Pns, Dns, IsChildOf, IsRunnerUp;
    InvariantNode(rules, root, t, active, i);
    var j: nat, runnerUp: nat :|
      && j < t.nodes[i].childNum == |Selecting(t, i)| && c == t.nodes[i].children.value + j
      && Selecting(t, i)[j] == MinOf(Selecting(t, i))
      && IsRunnerUp(Selecting(t, i), j, runnerUp)
      && childPn == (if t.info[i].attacker then Min(secondPn, SatAdd(runnerUp, 1, INF)) else secondPn)
      && childDn == (if t.info[i].attacker then secondDn else Min(secondDn, SatAdd(runnerUp, 1, INF)));
    SelectingSlots(rules, t, i, j);
    RunnerUpIsNoLess(Selecting(t, i), j, runnerUp);
    BestChildIsOpen(rules, root, t, active, i, j);
  }

  /** The rule-aware check and the path guard together are the adjudication of the game. */
  lemma AdjudicatedOnBoard(rules: Rules, root: nat, run: Run, path: seq<Pos>)
    requires |run| > root + 1 && path == run[..|run| - 1][root..]
    ensures Adjudicated(rules, root, run) <==>
              CheckRepetition(rules, run, REPETITION_LOOKBACK) != NoRepetition || Last(run) in path
  {
    assert run[root..|run| - 1] == path;
  }

  /** An adjudicated child is a leaf; closing it keeps the invariant below the parent. */
  lemma {:induction false} AdjudicateChild(rules: Rules, root: nat, t: Tree, active: set<nat>, i: nat, c: nat, n: DfpnNode, ply: nat)
    requires TreeInvariant(rules, root, t, active) && IsChildOf(rules, t, i, c) && t.nodes[c].IsOpen() && i < c
    requires Adjudicated(rules, root, t.info[c].run) && ply <= MAX_POOL_NODES + 1
    requires var wins := AttackerWins(CheckRepetition(rules, t.info[c].run, REPETITION_LOOKBACK), t.info[c].attacker);
             n == (if wins then t.nodes[c].SetMate(ply) else t.nodes[c].SetNoMate(ply)).(repeated := true)
    ensures TreeInvariant(rules, root, SetNode(t, c, n), active + {i})
    ensures |OpenLeaves(SetNode(t, c, n))| == |OpenLeaves(t)| - 1
  {
    hide TreeInvariant, Adjudicated, CheckRepetition, OpenLeaves;
    InvariantNode(rules, root, t, active, c);
    AdjudicatedIsLeaf(rules, root, t, active, c);
    WidenActive(rules, root, t, active, i);
    AdjudicatedWinEnds(rules, root, t, c);
    AdjudicatedVerdict(rules, MAX_CHILDREN, root, t.info[c].run, t.info[c].attacker);
    CloseLeaf(rules, root, t, active + {i}, c, n, ply);
    ClosingALeaf(t, c, n);
  }

  /** The attacker, who always checks, wins by repetition with the move only where the
      repetition reaches back beyond the root. */
  lemma AdjudicatedWinEnds(rules: Rules, root: nat, t: Tree, c: nat)
    requires Live(t, c) && RunOk(rules, root, t, c)
    ensures AttackerWins(CheckRepetition(rules, t.info[c].run, REPETITION_LOOKBACK), t.info[c].attacker) ==> EndsAt(Depth(root, t.info[c].run))
  {
    hide TrailingChecks, IsLegalRun, ChecksAlong, Returns, RepetitionFrom;
    var run := t.info[c].run;
    var depth := Depth(root, run);
    if t.info[c].attacker && depth > 0 && CheckRepetition(rules, run, REPETITION_LOOKBACK) == RepetitionWin {
      AttackerChecks(rules, root, run, |run| - 2);
      WinIsOlder(rules, run, 4, if 0 < REPETITION_LOOKBACK < |run| - 1 then REPETITION_LOOKBACK else |run| - 1);
    }
  }

  lemma {:induction false} AttackerChecks(rules: Rules, root: nat, run: Run, i: nat)
    requires root < i < |run| && (i - root) % 2 == 1 && ChecksAlong(rules, root, run)
    ensures 2 * TrailingChecks(rules, run, i) >= i - root + 1
    decreases i
  {
    if i > root + 2 {
      AttackerChecks(rules, root, run, i - 2);
    }
  }

  lemma {:induction false} WinIsOlder(rules: Rules, run: Run, dist: nat, limit: nat)
    requires limit < |run| && |run| > 1 && RepetitionFrom(rules, run, dist, limit) == RepetitionWin
    ensures 2 * TrailingChecks(rules, run, |run| - 2) < limit
    decreases limit + 2 - dist
  {
    if !Returns(run, dist) {
      WinIsOlder(rules, run, dist + 2, limit);
    }
  }

  lemma AdjudicatedIsLeaf(rules: Rules, root: nat, t: Tree, active: set<nat>, c: nat)
    requires TreeInvariant(rules, root, t, active) && Live(t, c) && |t.info[c].run| > 0
    requires Adjudicated(rules, root, t.info[c].run) && t.nodes[c].IsOpen()
    ensures IsLeaf(t, c) && !t.nodes[c].HasChildren() && t.nodes[c].children.None? && RunOk(rules, root, t, c)
  {
    GoodParts(rules, root, t, c);
  }

  // ----- the root -----

  /** A fresh pool with an open root satisfies the invariant. */
  lemma InitialTree(rules: Rules, root: nat, t: Tree, board: Run)
    requires IsLegalRun(rules, board) && |board| == root + 1
    requires |t.nodes| == |t.info| && 1 < |t.nodes| <= MAX_POOL_NODES + 1 && t.used == 0
    requires forall k: nat | k < |t.nodes| :: t.nodes[k] == FRESH
    requires t.info[0] == Info(board, true, 0, true)
    requires forall k: nat | 0 < k < |t.info| :: !t.info[k].live
    ensures TreeInvariant(rules, root, t, {}) && Live(t, 0) && !Adjudicated(rules, root, board)
  {
    hide ForcedWin, IsLegalRun;
    assert forall i: nat :: Live(t, i) ==> i == 0;
    assert Good(rules, root, t, 0);
  }

  lemma RootBelowInfinity(rules: Rules, root: nat, t: Tree)
    requires TreeInvariant(rules, root, t, {}) && Live(t, 0) && t.nodes[0].IsOpen()
    ensures t.nodes[0].pn < INF && t.nodes[0].dn < INF
  {
    hide AllGood, Good, Summarized, LeavesBelow;
    InvariantNode(rules, root, t, {}, 0);
    NumbersAreBounded(rules, root, t, {}, 0);
    FewLeaves(t, 0);
  }

  // ----- lines of play -----

  ghost function PlayLine(rules: Rules, run: Run, moves: seq<Move>): (r: Run)
    requires |run| > 0
    ensures |r| == |run| + |moves|
  {
    if moves == [] then run
    else
      var before := PlayLine(rules, run, moves[..|moves| - 1]);
      before + [rules.play(Last(before), moves[|moves| - 1])]
  }

  predicate Even(n: nat) {
    n == 0 || !Even(n - 1)
  }

  /** The attacker has a forced win after the line. */
  ghost predicate WinsAlong(rules: Rules, board: Run, moves: seq<Move>)
    requires |board| > 0
  {
    ForcedWin(rules, MAX_CHILDREN, |board| - 1, PlayLine(rules, board, moves), Even(|moves|))
  }

  /** The attacker keeps a forced win after every prefix of the line. */
  ghost predicate IsWinningLine(rules: Rules, board: Run, moves: seq<Move>)
    requires |board| > 0
  {
    forall k: nat | k <= |moves| :: WinsAlong(rules, board, moves[..k])
  }

  lemma ExtendLine(rules: Rules, board: Run, moves: seq<Move>, m: Move)
    requires |board| > 0 && IsWinningLine(rules, board, moves) && WinsAlong(rules, board, moves + [m])
    ensures IsWinningLine(rules, board, moves + [m])
  {
    hide WinsAlong;
    forall k: nat | k <= |moves + [m]|
      ensures WinsAlong(rules, board, (moves + [m])[..k])
    {
      if k <= |moves| {
        assert (moves + [m])[..k] == moves[..k];
      } else {
        assert (moves + [m])[..k] == moves + [m];
      }
    }
  }

  lemma PlayOne(rules: Rules, run: Run, moves: seq<Move>, m: Move)
    requires |run| > 0
    ensures PlayLine(rules, run, moves + [m]) ==
            PlayLine(rules, run, moves) + [rules.play(Last(PlayLine(rules, run, moves)), m)]
  {
    assert (moves + [m])[..|moves|] == moves;
  }

  ghost predicate SelectedSoFar(vals: seq<nat>, j: nat, bestIdx: int, bestVal: nat, secondBest: nat) {
    && j <= |vals| && bestVal == MinOf(vals[..j])
    && if bestIdx < 0 then bestVal == INF && secondBest == INF
       else bestIdx < j && vals[bestIdx] == bestVal < INF && bestVal <= secondBest && IsRunnerUp(vals[..j], bestIdx, secondBest)
  }

  lemma RunnerUpIsNoLess(vals: seq<nat>, best: nat, runnerUp: nat)
    requires best < |vals| && vals[best] == MinOf(vals) && IsRunnerUp(vals, best, runnerUp)
    ensures MinOf(vals) <= runnerUp <= INF
  {
    MinOfIsMinimum(vals);
  }

  /** The numbers of an unresolved node are far from saturation. */
  lemma NumbersSelectable(rules: Rules, root: nat, t: Tree, active: set<nat>, i: nat)
    requires TreeInvariant(rules, root, t, active) && Live(t, i) && i !in active && (forall a | a in active :: a < i)
    requires t.nodes[i].IsOpen() && t.nodes[i].HasChildren()
    ensures MinOf(Selecting(t, i)) < LARGE
  {
    hide AllGood, Good, LeavesBelow;
    InvariantNode(rules, root, t, active, i);
    NumbersAreBounded(rules, root, t, active, i);
    FewLeaves(t, i);
  }

  lemma SelectStep(vals: seq<nat>, j: nat, bestIdx: int, bestVal: nat, secondBest: nat)
    requires j < |vals| && SelectedSoFar(vals, j, bestIdx, bestVal, secondBest)
    ensures var v := vals[j];
            if v < bestVal then SelectedSoFar(vals, j + 1, j, v, bestVal)
            else if v < secondBest then SelectedSoFar(vals, j + 1, bestIdx, bestVal, v)
            else SelectedSoFar(vals, j + 1, bestIdx, bestVal, secondBest)
  {
    var s, s' := vals[..j], vals[..j + 1];
    assert s'[..j] == s;
    MinOfIsMinimum(s);
    assert forall k: nat | k < j :: s'[k] == s[k];
  }

  lemma SelectDone(vals: seq<nat>, bestIdx: int, bestVal: nat, secondBest: nat)
    requires SelectedSoFar(vals, |vals|, bestIdx, bestVal, secondBest)
    ensures bestVal == MinOf(vals)
    ensures bestIdx < 0 ==> bestVal == INF
    ensures bestIdx >= 0 ==> bestIdx < |vals| && vals[bestIdx] == bestVal < INF && IsRunnerUp(vals, bestIdx, secondBest)
  {
    assert vals[..|vals|] == vals;
  }
}
