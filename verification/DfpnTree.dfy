/** The df-pn search tree: nodes in a linear pool, their saturating proof numbers, and
    the invariant that ties the numbers to the truth of the game. */
module DfpnTree {
  import opened Arithmetic
  import opened Wrappers
  import opened MateGame

  const INF: nat := 0xFFFF_FFF0
  const NOT_EXPANDED: nat := 255
  const MAX_CHILDREN: nat := 254
  const MAX_POOL_NODES: nat := 2_000_000

  /** `children` is the pool slot of the first child. */
  datatype DfpnNode = DfpnNode(children: Option<nat>, pn: nat, dn: nat, lastMove: Move, childNum: nat,
                               repeated: bool, mateDistance: nat)
  {
    predicate IsExpanded() { childNum != NOT_EXPANDED }

    predicate HasChildren() { 1 <= childNum <= MAX_CHILDREN }

    predicate IsOpen() { pn != 0 && dn != 0 }

    function SetMate(ply: nat): DfpnNode
      requires ply <= INF
    {
      this.(pn := 0, dn := INF - ply, mateDistance := 0)
    }

    function SetNoMate(ply: nat): DfpnNode
      requires ply <= INF
    {
      this.(pn := INF - ply, dn := 0, mateDistance := 0)
    }
  }

  const FRESH: DfpnNode := DfpnNode(None, 1, 1, NULL_MOVE, NOT_EXPANDED, false, 0)

  // ----- saturating arithmetic -----

  function MinOf(s: seq<nat>): nat {
    if s == [] then INF else Min(MinOf(s[..|s| - 1]), s[|s| - 1])
  }

  function SatSum(s: seq<nat>): nat {
    if s == [] then 0 else SatAdd(SatSum(s[..|s| - 1]), s[|s| - 1], INF)
  }

  ghost function Sum(s: seq<nat>): nat {
    if s == [] then 0 else Sum(s[..|s| - 1]) + s[|s| - 1]
  }

  lemma {:induction false} MinOfIsMinimum(s: seq<nat>)
    ensures MinOf(s) <= INF && forall j: nat | j < |s| :: MinOf(s) <= s[j]
    ensures MinOf(s) == INF || exists j: nat :: j < |s| && s[j] == MinOf(s)
  {
    if s != [] {
      var t := s[..|s| - 1];
      MinOfIsMinimum(t);
      assert forall j: nat | j < |t| :: s[j] == t[j];
    }
  }

  lemma {:induction false} SatSumBounds(s: seq<nat>)
    ensures SatSum(s) <= INF
    ensures forall j: nat | j < |s| && s[j] <= INF :: s[j] <= SatSum(s)
    ensures SatSum(s) == 0 ==> forall j: nat | j < |s| :: s[j] == 0
    ensures (forall j: nat | j < |s| :: s[j] == 0) ==> SatSum(s) == 0
    ensures SatSum(s) == Min(Sum(s), INF)
  {
    if s != [] {
      var t := s[..|s| - 1];
      SatSumBounds(t);
      assert forall j: nat | j < |t| :: s[j] == t[j];
    }
  }

  // ----- distances -----

  /** The shortest (attacker) or longest (defender) distance among the proven ones of these
      nodes; without any, the largest or the smallest there is. */
  function DistanceAmong(attacker: bool, nodes: seq<DfpnNode>): nat {
    if nodes == [] then if attacker then 0xFFFF else 0
    else
      var rest, n := DistanceAmong(attacker, nodes[..|nodes| - 1]), nodes[|nodes| - 1];
      if n.pn != 0 then rest
      else if attacker then Min(rest, n.mateDistance)
      else if rest < n.mateDistance then n.mateDistance
      else rest
  }

  /** A ply more, in 16 bits: the largest distance is followed by zero. */
  function OneMore(distance: nat): nat { if distance == 0xFFFF then 0 else distance + 1 }

  lemma AmongNone(attacker: bool, nodes: seq<DfpnNode>)
    ensures DistanceAmong(attacker, nodes[..0]) == if attacker then 0xFFFF else 0
  {
  }

  lemma AmongOneMore(attacker: bool, nodes: seq<DfpnNode>, j: nat)
    requires j < |nodes|
    ensures var rest := DistanceAmong(attacker, nodes[..j]);
            DistanceAmong(attacker, nodes[..j + 1]) ==
            if nodes[j].pn != 0 then rest
            else if attacker then Min(rest, nodes[j].mateDistance)
            else if rest < nodes[j].mateDistance then nodes[j].mateDistance
            else rest
  {
    assert nodes[..j + 1][..j] == nodes[..j];
  }

  ghost predicate IsAmong(nodes: seq<DfpnNode>, distance: nat) {
    exists j: nat :: j < |nodes| && nodes[j].pn == 0 && nodes[j].mateDistance == distance
  }

  lemma {:induction false} DistanceAmongIs(attacker: bool, nodes: seq<DfpnNode>)
    ensures var d := DistanceAmong(attacker, nodes);
            && (forall j: nat | j < |nodes| && nodes[j].pn == 0 :: if attacker then d <= nodes[j].mateDistance else nodes[j].mateDistance <= d)
            && if attacker then d <= 0xFFFF && (d < 0xFFFF ==> IsAmong(nodes, d)) else d > 0 ==> IsAmong(nodes, d)
  {
    if nodes != [] {
      var rest := nodes[..|nodes| - 1];
      DistanceAmongIs(attacker, rest);
      var d := DistanceAmong(attacker, rest);
      if IsAmong(rest, d) {
        var j: nat :| j < |rest| && rest[j].pn == 0 && rest[j].mateDistance == d;
        assert nodes[j] == rest[j];
      }
      assert forall j: nat | j < |rest| :: rest[j] == nodes[j];
    }
  }

  // ----- the tree -----

  /** What the tree shape remembers about a slot: the run of positions that leads to it,
      who moves, its parent, and whether it is part of the tree. */
  datatype Info = Info(run: Run, attacker: bool, parent: nat, live: bool)

  /** Slot 0 is the root, which the solver keeps outside the pool; the pool proper is
      slots 1 to `used`. */
  datatype Tree = Tree(nodes: seq<DfpnNode>, used: nat, info: seq<Info>)

  ghost predicate Shape(root: nat, t: Tree) {
    && |t.info| == |t.nodes| && t.used < |t.nodes| <= MAX_POOL_NODES + 1
    && t.info[0].live && t.info[0].attacker && |t.info[0].run| == root + 1
    && (forall i: nat | t.used < i < |t.nodes| :: t.nodes[i] == FRESH && !t.info[i].live)
  }

  ghost predicate Live(t: Tree, i: nat) {
    i < |t.nodes| && i < |t.info| && t.info[i].live
  }

  function Pns(t: Tree, i: nat): seq<nat>
    requires i < |t.nodes|
  {
    var n := t.nodes[i];
    if n.children.Some? && n.children.value + n.childNum <= |t.nodes| then
      seq<nat>(n.childNum, j requires 0 <= j < n.childNum => t.nodes[n.children.value + j].pn)
    else []
  }

  function Dns(t: Tree, i: nat): seq<nat>
    requires i < |t.nodes|
  {
    var n := t.nodes[i];
    if n.children.Some? && n.children.value + n.childNum <= |t.nodes| then
      seq<nat>(n.childNum, j requires 0 <= j < n.childNum => t.nodes[n.children.value + j].dn)
    else []
  }

  function Children(t: Tree, i: nat): seq<DfpnNode>
    requires i < |t.nodes|
  {
    var n := t.nodes[i];
    if n.children.Some? && n.children.value + n.childNum <= |t.nodes| then
      t.nodes[n.children.value..n.children.value + n.childNum]
    else []
  }

  // ----- local conditions on a live slot -----

  ghost predicate IsChildOf(rules: Rules, t: Tree, i: nat, k: nat) {
    && Live(t, i) && Live(t, k) && |t.info[i].run| > 0
    && t.info[k] == Info(t.info[i].run + [rules.play(Last(t.info[i].run), t.nodes[k].lastMove)], !t.info[i].attacker, i, true)
  }

  lemma ChildIsLive(rules: Rules, t: Tree, i: nat, k: nat)
    requires IsChildOf(rules, t, i, k)
    ensures Live(t, k)
  {
  }

  ghost predicate Linked(rules: Rules, t: Tree, i: nat)
    requires Live(t, i)
  {
    var n := t.nodes[i];
    && n.childNum <= NOT_EXPANDED
    && (n.children.Some? ==> n.HasChildren())
    && (n.HasChildren() ==>
          && n.children.Some? && i < n.children.value && n.children.value + n.childNum <= t.used + 1 <= |t.nodes|
          && forall k: nat | n.children.value <= k < n.children.value + n.childNum :: IsChildOf(rules, t, i, k))
  }

  ghost predicate RunOk(rules: Rules, root: nat, t: Tree, i: nat)
    requires Live(t, i)
  {
    var run := t.info[i].run;
    && root < |run| <= root + 1 + i
    && (i > 0 ==> |run| > root + 1)
    && IsLegalRun(rules, run)
    && ChecksAlong(rules, root, run) && t.info[i].attacker == (Depth(root, run) % 2 == 0)
    && (t.nodes[i].IsExpanded() ==> !Adjudicated(rules, root, run))
  }

  /** The children are the considered moves; a node closed by the mate-in-one routine
      has that one mated child. */
  ghost predicate Covered(rules: Rules, t: Tree, i: nat)
    requires Live(t, i)
  {
    var n := t.nodes[i];
    n.HasChildren() && n.children.Some? && n.children.value + n.childNum <= |t.nodes| && |t.info[i].run| > 0 ==>
      var p := Last(t.info[i].run);
      if t.info[i].attacker then
        if rules.mateInOne(p) != NULL_MOVE then
          n.childNum == 1 && t.nodes[n.children.value].lastMove == rules.mateInOne(p) && t.nodes[n.children.value].pn == 0
        else Lists(t, n, Capped(MAX_CHILDREN, Checks(rules, p)))
      else Lists(t, n, Capped(MAX_CHILDREN, rules.legal(p)))
  }

  ghost predicate Lists(t: Tree, n: DfpnNode, moves: seq<Move>) {
    && n.childNum == |moves|
    && n.children.Some? && n.children.value + n.childNum <= |t.nodes|
    && forall j: nat | j < |moves| :: t.nodes[n.children.value + j].lastMove == moves[j]
  }

  /** The claim a node's numbers make about the game; a proven node without children ends
      its line. */
  ghost predicate Truthful(rules: Rules, root: nat, t: Tree, i: nat)
    requires Live(t, i)
  {
    |t.info[i].run| > 0 ==>
      && (t.nodes[i].pn == 0 ==> ForcedWin(rules, MAX_CHILDREN, root, t.info[i].run, t.info[i].attacker))
      && (t.nodes[i].dn == 0 ==> !ForcedWin(rules, MAX_CHILDREN, root, t.info[i].run, t.info[i].attacker))
      && (t.nodes[i].pn == 0 && !t.nodes[i].HasChildren() ==> LineEnds(rules, root, t.info[i].run, t.info[i].attacker))
  }

  /** Larger than any number of an open node can be. */
  const LARGE: nat := INF - MAX_POOL_NODES - 1

  ghost predicate InRange(n: DfpnNode) {
    && (n.pn == 0 ==> LARGE <= n.dn <= INF)
    && (n.dn == 0 ==> LARGE <= n.pn <= INF)
    && (n.IsOpen() && !n.HasChildren() ==> n.pn == 1 && n.dn == 1 && !n.IsExpanded())
    && n.pn <= INF && n.dn <= INF
  }

  /** The numbers, and the distance of a proof, are the summary of the children. */
  ghost predicate Summarized(t: Tree, i: nat)
    requires Live(t, i)
  {
    t.nodes[i].HasChildren() ==>
      && (t.nodes[i].pn == 0 ==> t.nodes[i].mateDistance == OneMore(DistanceAmong(t.info[i].attacker, Children(t, i))))
      && if t.info[i].attacker then t.nodes[i].pn == MinOf(Pns(t, i)) && t.nodes[i].dn == SatSum(Dns(t, i))
      else t.nodes[i].pn == SatSum(Pns(t, i)) && t.nodes[i].dn == MinOf(Dns(t, i))
  }

  /** The plies played since the root. */
  function Depth(root: nat, run: Run): nat
    requires |run| > root
  {
    |run| - root - 1
  }

  /** Every move of the attacker since the root has given check. */
  ghost predicate ChecksAlong(rules: Rules, root: nat, run: Run) {
    forall j: nat | root < j < |run| && (j - root) % 2 == 1 :: rules.inCheck(run[j])
  }

  /** Where a proven line may end: with the defender to move, or so early that a repetition can
      reach back beyond the root. */
  predicate EndsAt(depth: nat) { depth % 2 == 1 || depth < REPETITION_LOOKBACK }

  /** The distance of a proof fits its 16 bits and counts the plies to such an end. Children are
      allocated behind their parent, so it also counts slots in use. */
  ghost predicate Timed(root: nat, t: Tree, i: nat)
    requires Live(t, i)
  {
    |t.info[i].run| > root && t.nodes[i].pn == 0 ==>
      && t.nodes[i].mateDistance <= 0xFFFF && EndsAt(Depth(root, t.info[i].run) + t.nodes[i].mateDistance)
      && i + t.nodes[i].mateDistance <= t.used && (!t.nodes[i].HasChildren() ==> t.nodes[i].mateDistance == 0)
  }

  ghost predicate Good(rules: Rules, root: nat, t: Tree, i: nat)
    requires Live(t, i)
  {
    && Linked(rules, t, i) && RunOk(rules, root, t, i) && Covered(rules, t, i)
    && Truthful(rules, root, t, i) && InRange(t.nodes[i]) && Timed(root, t, i)
  }

  ghost predicate AllGood(rules: Rules, root: nat, t: Tree) {
    Shape(root, t) && forall k: nat | Live(t, k) :: Good(rules, root, t, k)
  }

  /** What holds in every state of the search. The numbers of the nodes in `active`, the
      path being searched, may be out of date. */
  ghost predicate TreeInvariant(rules: Rules, root: nat, t: Tree, active: set<nat>) {
    && AllGood(rules, root, t)
    && (forall i: nat | Live(t, i) && i !in active :: Summarized(t, i))
  }

  // ----- the summary of a node is sound -----

  lemma ChildSlots(rules: Rules, t: Tree, i: nat)
    requires Live(t, i) && Linked(rules, t, i) && t.nodes[i].HasChildren()
    ensures var n := t.nodes[i];
            && |Pns(t, i)| == |Dns(t, i)| == n.childNum
            && forall j: nat | j < n.childNum ::
                 && IsChildOf(rules, t, i, n.children.value + j)
                 && Pns(t, i)[j] == t.nodes[n.children.value + j].pn
                 && Dns(t, i)[j] == t.nodes[n.children.value + j].dn
  {
  }

  lemma ChildClaim(rules: Rules, root: nat, t: Tree, i: nat, k: nat)
    requires Live(t, i) && IsChildOf(rules, t, i, k) && Truthful(rules, root, t, k)
    ensures t.nodes[k].pn == 0 ==>
              ForcedAfter(rules, MAX_CHILDREN, root, t.info[i].run, t.nodes[k].lastMove, !t.info[i].attacker)
    ensures t.nodes[k].dn == 0 ==>
              !ForcedAfter(rules, MAX_CHILDREN, root, t.info[i].run, t.nodes[k].lastMove, !t.info[i].attacker)
  {
  }

  lemma ChildrenClaim(rules: Rules, root: nat, t: Tree, i: nat)
    requires AllGood(rules, root, t) && Live(t, i) && t.nodes[i].HasChildren()
    ensures Good(rules, root, t, i) && |t.info[i].run| > 0
    ensures t.nodes[i].children.Some? && t.nodes[i].children.value + t.nodes[i].childNum <= |t.nodes|
    ensures var n := t.nodes[i];
            forall k: nat | n.children.value <= k < n.children.value + n.childNum ::
              && InRange(t.nodes[k])
              && (t.nodes[k].pn == 0 ==>
                    ForcedAfter(rules, MAX_CHILDREN, root, t.info[i].run, t.nodes[k].lastMove, !t.info[i].attacker))
              && (t.nodes[k].dn == 0 ==>
                    !ForcedAfter(rules, MAX_CHILDREN, root, t.info[i].run, t.nodes[k].lastMove, !t.info[i].attacker))
  {
    hide Covered, RunOk, ForcedAfter, ForcedWin, InRange;
    GoodParts(rules, root, t, i);
    var n := t.nodes[i];
    forall k: nat | n.children.value <= k < n.children.value + n.childNum
      ensures InRange(t.nodes[k])
      ensures t.nodes[k].pn == 0 ==>
                ForcedAfter(rules, MAX_CHILDREN, root, t.info[i].run, t.nodes[k].lastMove, !t.info[i].attacker)
      ensures t.nodes[k].dn == 0 ==>
                !ForcedAfter(rules, MAX_CHILDREN, root, t.info[i].run, t.nodes[k].lastMove, !t.info[i].attacker)
    {
      assert IsChildOf(rules, t, i, k);
      ChildClaim(rules, root, t, i, k);
    }
  }

  lemma GoodShape(rules: Rules, root: nat, t: Tree)
    requires AllGood(rules, root, t)
    ensures Shape(root, t)
  {
  }

  lemma GoodParts(rules: Rules, root: nat, t: Tree, i: nat)
    requires AllGood(rules, root, t) && Live(t, i)
    ensures Good(rules, root, t, i) && |t.info[i].run| > 0
  {
  }

  /** Whatever the children claim truthfully, their summary claims truthfully. */
  lemma {:induction false} SummaryIsTruthful(rules: Rules, root: nat, t: Tree, i: nat, pn: nat, dn: nat)
    requires AllGood(rules, root, t) && Live(t, i) && t.nodes[i].HasChildren()
    requires if t.info[i].attacker then pn == MinOf(Pns(t, i)) && dn == SatSum(Dns(t, i))
             else pn == SatSum(Pns(t, i)) && dn == MinOf(Dns(t, i))
    ensures |t.info[i].run| > 0
    ensures pn == 0 ==> ForcedWin(rules, MAX_CHILDREN, root, t.info[i].run, t.info[i].attacker)
    ensures dn == 0 ==> !ForcedWin(rules, MAX_CHILDREN, root, t.info[i].run, t.info[i].attacker)
  {
    hide ForcedWin, ForcedAfter, AllGood, Covered, InRange, Adjudicated, Options, Truthful;
    ChildrenClaim(rules, root, t, i);
    var run := t.info[i].run;
    if t.info[i].attacker {
      AttackerForces(rules, MAX_CHILDREN, root, run);
      if pn == 0 {
        AttackerProved(rules, root, t, i);
      }
      if dn == 0 {
        AttackerDisproved(rules, root, t, i);
      }
    } else {
      DefenderForces(rules, MAX_CHILDREN, root, run);
      if pn == 0 {
        DefenderProved(rules, root, t, i);
      }
      if dn == 0 {
        DefenderDisproved(rules, root, t, i);
      }
    }
  }

  lemma AttackerProved(rules: Rules, root: nat, t: Tree, i: nat)
    requires Live(t, i) && Linked(rules, t, i) && Covered(rules, t, i) && t.nodes[i].HasChildren() && t.info[i].attacker
    requires |t.info[i].run| > 0 && MinOf(Pns(t, i)) == 0
    requires var n := t.nodes[i]; forall k: nat | n.children.value <= k < n.children.value + n.childNum ::
               t.nodes[k].pn == 0 ==> ForcedAfter(rules, MAX_CHILDREN, root, t.info[i].run, t.nodes[k].lastMove, false)
    ensures exists m :: m in Options(rules, MAX_CHILDREN, Last(t.info[i].run), true)
                        && ForcedAfter(rules, MAX_CHILDREN, root, t.info[i].run, m, false)
  {
    hide ForcedAfter, Checks;
    ChildSlots(rules, t, i);
    MinOfIsMinimum(Pns(t, i));
    var n := t.nodes[i];
    var options := Options(rules, MAX_CHILDREN, Last(t.info[i].run), true);
    var j: nat :| j < |Pns(t, i)| && Pns(t, i)[j] == 0;
    assert t.nodes[n.children.value + j].pn == 0;
    var listed := Capped(MAX_CHILDREN, Checks(rules, Last(t.info[i].run)));
    if rules.mateInOne(Last(t.info[i].run)) != NULL_MOVE {
      assert options[|listed|] == rules.mateInOne(Last(t.info[i].run));
    } else {
      assert options == listed;
      assert t.nodes[n.children.value + j].lastMove == listed[j];
    }
    assert t.nodes[n.children.value + j].lastMove in options;
  }

  lemma AttackerDisproved(rules: Rules, root: nat, t: Tree, i: nat)
    requires Live(t, i) && Linked(rules, t, i) && Covered(rules, t, i) && t.nodes[i].HasChildren() && t.info[i].attacker
    requires |t.info[i].run| > 0 && SatSum(Dns(t, i)) == 0
    requires var n := t.nodes[i]; forall k: nat | n.children.value <= k < n.children.value + n.childNum ::
               && InRange(t.nodes[k])
               && (t.nodes[k].dn == 0 ==> !ForcedAfter(rules, MAX_CHILDREN, root, t.info[i].run, t.nodes[k].lastMove, false))
    ensures forall m | m in Options(rules, MAX_CHILDREN, Last(t.info[i].run), true) ::
              !ForcedAfter(rules, MAX_CHILDREN, root, t.info[i].run, m, false)
  {
    hide ForcedAfter, Checks;
    ChildSlots(rules, t, i);
    SatSumBounds(Dns(t, i));
    var n := t.nodes[i];
    var options := Options(rules, MAX_CHILDREN, Last(t.info[i].run), true);
    assert Dns(t, i)[0] == t.nodes[n.children.value + 0].dn;
    assert options == Capped(MAX_CHILDREN, Checks(rules, Last(t.info[i].run)));
    forall m | m in options
      ensures !ForcedAfter(rules, MAX_CHILDREN, root, t.info[i].run, m, false)
    {
      var j: nat :| j < |options| && options[j] == m;
      assert Dns(t, i)[j] == t.nodes[n.children.value + j].dn == 0;
    }
  }

  lemma DefenderProved(rules: Rules, root: nat, t: Tree, i: nat)
    requires Live(t, i) && Linked(rules, t, i) && Covered(rules, t, i) && t.nodes[i].HasChildren() && !t.info[i].attacker
    requires |t.info[i].run| > 0 && SatSum(Pns(t, i)) == 0
    requires var n := t.nodes[i]; forall k: nat | n.children.value <= k < n.children.value + n.childNum ::
               t.nodes[k].pn == 0 ==> ForcedAfter(rules, MAX_CHILDREN, root, t.info[i].run, t.nodes[k].lastMove, true)
    ensures forall m | m in Options(rules, MAX_CHILDREN, Last(t.info[i].run), false) ::
              ForcedAfter(rules, MAX_CHILDREN, root, t.info[i].run, m, true)
  {
    hide ForcedAfter, Checks, IsChildOf, Dns, MinOf, DistanceAmong;
    ChildSlots(rules, t, i);
    SatSumBounds(Pns(t, i));
    var n := t.nodes[i];
    var options := Options(rules, MAX_CHILDREN, Last(t.info[i].run), false);
    forall m | m in options
      ensures ForcedAfter(rules, MAX_CHILDREN, root, t.info[i].run, m, true)
    {
      var j: nat :| j < |options| && options[j] == m;
      assert Pns(t, i)[j] == t.nodes[n.children.value + j].pn == 0;
    }
  }

  lemma DefenderDisproved(rules: Rules, root: nat, t: Tree, i: nat)
    requires Live(t, i) && Linked(rules, t, i) && Covered(rules, t, i) && t.nodes[i].HasChildren() && !t.info[i].attacker
    requires |t.info[i].run| > 0 && MinOf(Dns(t, i)) == 0
    requires var n := t.nodes[i]; forall k: nat | n.children.value <= k < n.children.value + n.childNum ::
               t.nodes[k].dn == 0 ==> !ForcedAfter(rules, MAX_CHILDREN, root, t.info[i].run, t.nodes[k].lastMove, true)
    ensures exists m :: m in Options(rules, MAX_CHILDREN, Last(t.info[i].run), false)
                        && !ForcedAfter(rules, MAX_CHILDREN, root, t.info[i].run, m, true)
  {
    hide ForcedAfter, Checks, IsChildOf, Pns, SatSum, DistanceAmong;
    ChildSlots(rules, t, i);
    MinOfIsMinimum(Dns(t, i));
    var n := t.nodes[i];
    var options := Options(rules, MAX_CHILDREN, Last(t.info[i].run), false);
    var j: nat :| j < |Dns(t, i)| && Dns(t, i)[j] == 0;
    assert t.nodes[n.children.value + j].dn == 0;
    assert t.nodes[n.children.value + j].lastMove == options[j];
  }

  // ----- replacing one node -----

  function SetNode(t: Tree, i: nat, n: DfpnNode): Tree
    requires i < |t.nodes|
  {
    t.(nodes := t.nodes[i := n])
  }

  lemma OthersStayGood(rules: Rules, root: nat, t: Tree, i: nat, n: DfpnNode, k: nat)
    requires Live(t, i) && (t.nodes[i].pn == 0 ==> n.pn == 0) && n.lastMove == t.nodes[i].lastMove
    requires Live(t, k) && k != i && Good(rules, root, t, k) && Shape(root, t)
    ensures Good(rules, root, SetNode(t, i, n), k)
  {
    hide LineEnds, Adjudicated, ForcedWin, IsLegalRun, InRange, Capped, Checks;
    var t' := SetNode(t, i, n);
    var m := t.nodes[k];
    if m.HasChildren() {
      forall c: nat | m.children.value <= c < m.children.value + m.childNum
        ensures IsChildOf(rules, t', k, c)
      {
        assert IsChildOf(rules, t, k, c);
      }
    }
  }

  /** Replacing a node by a locally good one keeps every node good, as long as a proof is
      not withdrawn. */
  lemma SetNodeKeepsGood(rules: Rules, root: nat, t: Tree, i: nat, n: DfpnNode)
    requires AllGood(rules, root, t) && Live(t, i) && (t.nodes[i].pn == 0 ==> n.pn == 0) && n.lastMove == t.nodes[i].lastMove
    requires Live(SetNode(t, i, n), i) && Good(rules, root, SetNode(t, i, n), i)
    ensures AllGood(rules, root, SetNode(t, i, n))
  {
    hide Good;
    var t' := SetNode(t, i, n);
    forall k: nat | Live(t', k)
      ensures Good(rules, root, t', k)
    {
      if k != i {
        assert Live(t, k);
        OthersStayGood(rules, root, t, i, n, k);
      }
    }
  }

  /** Replacing a node that is not a child of node `k` leaves the numbers `k` summarizes. */
  lemma SameNumbers(t: Tree, i: nat, n: DfpnNode, k: nat)
    requires i < |t.nodes| && k < |t.nodes| && (k == i ==> n.children == t.nodes[i].children && n.childNum == t.nodes[i].childNum)
    requires var m := t.nodes[k]; m.children.Some? ==> !(m.children.value <= i < m.children.value + m.childNum)
    ensures Pns(SetNode(t, i, n), k) == Pns(t, k) && Dns(SetNode(t, i, n), k) == Dns(t, k) && Children(SetNode(t, i, n), k) == Children(t, k)
  {
    assert Pns(SetNode(t, i, n), k) == Pns(t, k);
    assert Dns(SetNode(t, i, n), k) == Dns(t, k);
    assert Children(SetNode(t, i, n), k) == Children(t, k);
  }

  /** Only the parent's summary looks at a node's numbers. */
  lemma OthersStaySummarized(rules: Rules, t: Tree, i: nat, n: DfpnNode, k: nat)
    requires Live(t, i) && Live(t, k) && k != i && k != t.info[i].parent && Linked(rules, t, k) && Summarized(t, k)
    ensures Live(SetNode(t, i, n), k) && Summarized(SetNode(t, i, n), k)
  {
    hide Pns, Dns, Children;
    if t.nodes[k].HasChildren() {
      var m := t.nodes[k];
      assert m.children.value <= i < m.children.value + m.childNum ==> IsChildOf(rules, t, k, i);
      SameNumbers(t, i, n, k);
    }
  }

  lemma {:induction false} SetNodeKeepsInvariant(rules: Rules, root: nat, t: Tree, active: set<nat>, i: nat, n: DfpnNode)
    requires TreeInvariant(rules, root, t, active) && Live(t, i) && (t.nodes[i].pn == 0 ==> n.pn == 0) && n.lastMove == t.nodes[i].lastMove
    requires i > 0 ==> t.info[i].parent in active
    requires Live(SetNode(t, i, n), i) && Good(rules, root, SetNode(t, i, n), i)
    ensures TreeInvariant(rules, root, SetNode(t, i, n), active + {i})
    ensures Summarized(SetNode(t, i, n), i) && i !in active ==> TreeInvariant(rules, root, SetNode(t, i, n), active)
  {
    hide AllGood, Good, Summarized;
    var t' := SetNode(t, i, n);
    SetNodeKeepsGood(rules, root, t, i, n);
    forall k: nat | Live(t', k) && k !in active && k != i
      ensures Summarized(t', k)
    {
      assert Live(t, k);
      AllGoodLinked(rules, root, t, k);
      if i == 0 {
        NotChildOfRoot(rules, root, t, k);
        OthersStaySummarizedRoot(rules, t, n, k);
      } else {
        OthersStaySummarized(rules, t, i, n, k);
      }
    }
  }

  lemma AllGoodLinked(rules: Rules, root: nat, t: Tree, k: nat)
    requires AllGood(rules, root, t) && Live(t, k)
    ensures Good(rules, root, t, k) && Linked(rules, t, k)
  {
  }

  lemma NotChildOfRoot(rules: Rules, root: nat, t: Tree, k: nat)
    requires AllGood(rules, root, t) && Live(t, k)
    ensures t.nodes[k].HasChildren() ==> t.nodes[k].children.Some? && t.nodes[k].children.value > 0
  {
    AllGoodLinked(rules, root, t, k);
  }

  /** Nobody is the root's parent. */
  lemma OthersStaySummarizedRoot(rules: Rules, t: Tree, n: DfpnNode, k: nat)
    requires Live(t, 0) && Live(t, k) && k != 0 && Linked(rules, t, k) && Summarized(t, k)
    ensures Live(SetNode(t, 0, n), k) && Summarized(SetNode(t, 0, n), k)
  {
    hide Pns, Dns, Children;
    if t.nodes[k].HasChildren() {
      SameNumbers(t, 0, n, k);
    }
  }

  // ----- summarizing a node -----

  ghost function SummaryPn(t: Tree, i: nat): nat
    requires Live(t, i)
  {
    if t.info[i].attacker then MinOf(Pns(t, i)) else SatSum(Pns(t, i))
  }

  ghost function SummaryDn(t: Tree, i: nat): nat
    requires Live(t, i)
  {
    if t.info[i].attacker then SatSum(Dns(t, i)) else MinOf(Dns(t, i))
  }

  /** The numbers of the children are in range, hence so are the node's. */
  lemma SummaryInRange(pns: seq<nat>, dns: seq<nat>)
    requires |pns| == |dns| > 0
    requires forall j: nat | j < |pns| ::
               && (pns[j] == 0 ==> LARGE <= dns[j] <= INF) && (dns[j] == 0 ==> LARGE <= pns[j] <= INF)
               && pns[j] <= INF && dns[j] <= INF
    ensures MinOf(pns) <= INF && SatSum(dns) <= INF
    ensures MinOf(pns) == 0 ==> LARGE <= SatSum(dns)
    ensures SatSum(dns) == 0 ==> LARGE <= MinOf(pns)
  {
    MinOfIsMinimum(pns);
    SatSumBounds(dns);
    if MinOf(pns) == 0 {
      var j: nat :| j < |pns| && pns[j] == 0;
      assert dns[j] <= SatSum(dns);
    }
  }

  lemma ChildrenInRange(rules: Rules, root: nat, t: Tree, i: nat)
    requires AllGood(rules, root, t) && Live(t, i) && t.nodes[i].HasChildren()
    ensures |Pns(t, i)| == |Dns(t, i)| > 0
    ensures forall j: nat | j < |Pns(t, i)| ::
              && (Pns(t, i)[j] == 0 ==> LARGE <= Dns(t, i)[j] <= INF) && (Dns(t, i)[j] == 0 ==> LARGE <= Pns(t, i)[j] <= INF)
              && Pns(t, i)[j] <= INF && Dns(t, i)[j] <= INF
  {
    hide ForcedAfter, AllGood;
    ChildrenClaim(rules, root, t, i);
    ChildSlots(rules, t, i);
  }

  /** The node with the summary of its children as numbers, and as distance when it is proven. */
  ghost predicate IsSummaryOf(t: Tree, i: nat, n: DfpnNode)
    requires Live(t, i)
  {
    && (n.pn == 0 ==> n.mateDistance == OneMore(DistanceAmong(t.info[i].attacker, Children(t, i))))
    && n == t.nodes[i].(pn := SummaryPn(t, i), dn := SummaryDn(t, i), repeated := n.repeated, mateDistance := n.mateDistance)
  }

  lemma SummaryIsGood(rules: Rules, root: nat, t: Tree, i: nat, n: DfpnNode)
    requires AllGood(rules, root, t) && Live(t, i) && t.nodes[i].HasChildren() && IsSummaryOf(t, i, n)
    ensures Live(SetNode(t, i, n), i) && Good(rules, root, SetNode(t, i, n), i) && Summarized(SetNode(t, i, n), i)
  {
    hide LineEnds, AllGood, ForcedWin, Adjudicated, IsLegalRun, Checks, Capped, Pns, Dns, Children, DistanceAmong, Summarized, Timed, Linked, Covered, ChecksAlong, MinOf, SatSum;
    GoodParts(rules, root, t, i);
    SummaryIsTruthful(rules, root, t, i, n.pn, n.dn);
    ChildrenInRange(rules, root, t, i);
    if t.info[i].attacker {
      SummaryInRange(Pns(t, i), Dns(t, i));
    } else {
      SummaryInRange(Dns(t, i), Pns(t, i));
    }
    SummaryKeepsLocal(rules, t, i, n);
    SummaryIsTimed(rules, root, t, i, n);
  }

  lemma SummaryKeepsLocal(rules: Rules, t: Tree, i: nat, n: DfpnNode)
    requires Live(t, i) && Linked(rules, t, i) && Covered(rules, t, i) && t.nodes[i].HasChildren() && IsSummaryOf(t, i, n)
    ensures var t' := SetNode(t, i, n);
            Live(t', i) && Linked(rules, t', i) && Covered(rules, t', i) && Summarized(t', i)
  {
    hide Checks, Capped, Pns, Dns, Children;
    var t' := SetNode(t, i, n);
    SameNumbers(t, i, n, i);
    forall k: nat | n.children.value <= k < n.children.value + n.childNum
      ensures IsChildOf(rules, t', i, k) && k != i
    {
      assert IsChildOf(rules, t, i, k);
    }
  }

  /** Summarizing the node at the end of the active path makes it consistent again. */
  lemma {:induction false} SummarizeKeepsInvariant(rules: Rules, root: nat, t: Tree, active: set<nat>, i: nat, n: DfpnNode)
    requires TreeInvariant(rules, root, t, active + {i}) && i !in active
    requires Live(t, i) && t.nodes[i].HasChildren() && IsSummaryOf(t, i, n) && (t.nodes[i].pn == 0 ==> n.pn == 0)
    requires i > 0 ==> t.info[i].parent in active
    ensures TreeInvariant(rules, root, SetNode(t, i, n), active)
  {
    hide AllGood, Good, Summarized;
    SummaryIsGood(rules, root, t, i, n);
    SetNodeKeepsInvariant(rules, root, t, active + {i}, i, n);
  }

  // ----- the distance of a summary -----

  /** A proven node of the attacker has a proven child; all children of a proven node of the
      defender are. */
  lemma ProvenChildren(rules: Rules, t: Tree, i: nat)
    requires Live(t, i) && Linked(rules, t, i) && t.nodes[i].HasChildren() && SummaryPn(t, i) == 0
    ensures var n := t.nodes[i];
            if t.info[i].attacker then exists c: nat :: n.children.value <= c < n.children.value + n.childNum && t.nodes[c].pn == 0
            else forall c: nat | n.children.value <= c < n.children.value + n.childNum :: t.nodes[c].pn == 0
  {
    hide IsChildOf, Pns, Dns;
    ChildSlots(rules, t, i);
    MinOfIsMinimum(Pns(t, i));
    SatSumBounds(Pns(t, i));
    var n := t.nodes[i];
    assert Pns(t, i)[0] == t.nodes[n.children.value + 0].pn;
    if t.info[i].attacker {
      var j: nat :| j < |Pns(t, i)| && Pns(t, i)[j] == 0;
      assert t.nodes[n.children.value + j].pn == 0;
    } else {
      forall c: nat | n.children.value <= c < n.children.value + n.childNum
        ensures t.nodes[c].pn == 0
      {
        assert Pns(t, i)[c - n.children.value] == t.nodes[n.children.value + (c - n.children.value)].pn;
      }
    }
  }

  ghost predicate ChildrenTimed(rules: Rules, root: nat, t: Tree, i: nat)
    requires Live(t, i)
  {
    forall c: nat | IsChildOf(rules, t, i, c) :: Live(t, c) && Timed(root, t, c)
  }

  lemma GoodChildrenTimed(rules: Rules, root: nat, t: Tree, i: nat)
    requires AllGood(rules, root, t) && Live(t, i)
    ensures Linked(rules, t, i) && RunOk(rules, root, t, i) && ChildrenTimed(rules, root, t, i)
  {
    hide Good, RunOk, Linked;
    GoodParts(rules, root, t, i);
    forall c: nat | IsChildOf(rules, t, i, c)
      ensures Live(t, c) && Timed(root, t, c)
    {
      ChildIsLive(rules, t, i, c);
      GoodParts(rules, root, t, c);
    }
  }

  /** A proven child of the attacker's never has the distance that stands for "none": the line
      behind it would have to end with the attacker to move, deep below the root. */
  lemma ChildDistance(rules: Rules, root: nat, t: Tree, i: nat, c: nat)
    requires Live(t, i) && RunOk(rules, root, t, i) && ChildrenTimed(rules, root, t, i) && IsChildOf(rules, t, i, c) && t.nodes[c].pn == 0
    ensures t.nodes[c].mateDistance <= 0xFFFF && EndsAt(Depth(root, t.info[i].run) + 1 + t.nodes[c].mateDistance)
    ensures c + t.nodes[c].mateDistance <= t.used
    ensures t.info[i].attacker ==> t.nodes[c].mateDistance < 0xFFFF
  {
    hide ChecksAlong, Adjudicated, IsLegalRun;
    assert Timed(root, t, c);
  }

  lemma ChildAt(rules: Rules, t: Tree, i: nat, j: nat)
    requires Live(t, i) && Linked(rules, t, i) && t.nodes[i].HasChildren() && j < t.nodes[i].childNum
    ensures var c := t.nodes[i].children.value + j;
            && i < c && IsChildOf(rules, t, i, c) && |Children(t, i)| == t.nodes[i].childNum && Children(t, i)[j] == t.nodes[c]
  {
    hide IsChildOf;
  }

  /** The distance found is that of a proven child. */
  lemma DistanceIsAttained(rules: Rules, root: nat, t: Tree, i: nat) returns (c: nat)
    requires Live(t, i) && Linked(rules, t, i) && RunOk(rules, root, t, i) && ChildrenTimed(rules, root, t, i)
    requires t.nodes[i].HasChildren() && SummaryPn(t, i) == 0
    ensures t.nodes[i].children.Some? && t.nodes[i].children.value <= c < t.nodes[i].children.value + t.nodes[i].childNum
    ensures IsChildOf(rules, t, i, c) && i < c && t.nodes[c].pn == 0 && t.nodes[c].mateDistance == DistanceAmong(t.info[i].attacker, Children(t, i))
  {
    hide *;
    var j := CloseProof(rules, root, t, i);
    ChildAt(rules, t, i, j);
    DistanceAmongIs(t.info[i].attacker, Children(t, i));
    var d := DistanceAmong(t.info[i].attacker, Children(t, i));
    if Children(t, i)[j].mateDistance != d {
      j := SomeAmong(Children(t, i), d);
      ChildAt(rules, t, i, j);
    }
    c := t.nodes[i].children.value + j;
  }

  lemma SomeAmong(nodes: seq<DfpnNode>, d: nat) returns (j: nat)
    requires IsAmong(nodes, d)
    ensures j < |nodes| && nodes[j].pn == 0 && nodes[j].mateDistance == d
  {
    j :| j < |nodes| && nodes[j].pn == 0 && nodes[j].mateDistance == d;
  }

  /** A proven node has a proven child, the attacker's with a distance that is not the one that
      marks "none". */
  lemma CloseProof(rules: Rules, root: nat, t: Tree, i: nat) returns (j: nat)
    requires Live(t, i) && Linked(rules, t, i) && t.nodes[i].HasChildren() && RunOk(rules, root, t, i)
    requires ChildrenTimed(rules, root, t, i) && SummaryPn(t, i) == 0
    ensures t.nodes[i].children.Some? && t.nodes[i].children.value + t.nodes[i].childNum <= |t.nodes| && i < |t.info|
    ensures j < t.nodes[i].childNum && t.nodes[t.nodes[i].children.value + j].pn == 0
    ensures t.info[i].attacker ==> t.nodes[t.nodes[i].children.value + j].mateDistance < 0xFFFF
  {
    hide IsChildOf, RunOk, ChildrenTimed, SummaryPn;
    ProvenChildren(rules, t, i);
    var first := t.nodes[i].children.value;
    var c: nat :| first <= c < first + t.nodes[i].childNum && t.nodes[c].pn == 0;
    assert IsChildOf(rules, t, i, c);
    ChildDistance(rules, root, t, i, c);
    j := c - first;
  }

  /** The distance a summary writes keeps its node timed. */
  lemma {:induction false} SummaryIsTimed(rules: Rules, root: nat, t: Tree, i: nat, n: DfpnNode)
    requires AllGood(rules, root, t) && Live(t, i) && t.nodes[i].HasChildren() && IsSummaryOf(t, i, n)
    ensures Live(SetNode(t, i, n), i) && Timed(root, SetNode(t, i, n), i)
  {
    hide IsChildOf, Pns, Dns, ChildrenTimed, Linked, ChecksAlong, IsLegalRun, Adjudicated, AllGood, SummaryPn, SummaryDn, DistanceAmong;
    if n.pn == 0 {
      GoodChildrenTimed(rules, root, t, i);
      var c := DistanceIsAttained(rules, root, t, i);
      ChildDistance(rules, root, t, i, c);
    }
  }

  // ----- closing a leaf -----

  ghost predicate IsLeaf(t: Tree, k: nat) {
    Live(t, k) && !t.nodes[k].IsExpanded() && t.nodes[k].IsOpen()
  }

  /** A leaf closed with the verdict of its line, either by adjudication or because the
      side to move has no move. */
  lemma {:induction false} CloseLeaf(rules: Rules, root: nat, t: Tree, active: set<nat>, k: nat, n: DfpnNode, ply: nat)
    requires TreeInvariant(rules, root, t, active) && IsLeaf(t, k) && (k > 0 ==> t.info[k].parent in active)
    requires ply <= MAX_POOL_NODES + 1
    requires n.mateDistance == 0 && (n.pn == 0 && |t.info[k].run| > root ==> EndsAt(Depth(root, t.info[k].run)))
    requires n.lastMove == t.nodes[k].lastMove && !n.HasChildren() && n.children.None? && n.childNum <= NOT_EXPANDED
    requires (n.pn == 0 && n.dn == INF - ply) || (n.dn == 0 && n.pn == INF - ply)
    requires |t.info[k].run| > 0
    requires n.IsExpanded() ==> !Adjudicated(rules, root, t.info[k].run)
    requires n.pn == 0 <==> ForcedWin(rules, MAX_CHILDREN, root, t.info[k].run, t.info[k].attacker)
    requires n.pn == 0 ==> LineEnds(rules, root, t.info[k].run, t.info[k].attacker)
    ensures TreeInvariant(rules, root, SetNode(t, k, n), active)
  {
    hide LineEnds, AllGood, ForcedWin, Adjudicated, IsLegalRun;
    GoodShape(rules, root, t);
    GoodParts(rules, root, t, k);
    assert Good(rules, root, SetNode(t, k, n), k);
    assert Summarized(SetNode(t, k, n), k);
    SetNodeKeepsInvariant(rules, root, t, active, k, n);
    if k in active {
      DropSummarized(rules, root, SetNode(t, k, n), active, k);
    }
  }

  lemma DropSummarized(rules: Rules, root: nat, t: Tree, active: set<nat>, k: nat)
    requires TreeInvariant(rules, root, t, active + {k}) && k in active
    ensures TreeInvariant(rules, root, t, active)
  {
    assert active + {k} == active;
  }

  // ----- allocating children -----

  /** The tree with `|moves|` new pool slots under leaf `i`, the first 254 of them live;
      the leaf itself is not yet linked to them. */
  function Allocate(rules: Rules, t: Tree, i: nat, moves: seq<Move>): Tree
    requires i < |t.info| == |t.nodes| && |t.info[i].run| > 0 && t.used + |moves| < |t.nodes|
  {
    var n := Min(|moves|, MAX_CHILDREN);
    Tree(seq(|t.nodes|, k requires 0 <= k < |t.nodes| =>
             if t.used < k <= t.used + n then FRESH.(lastMove := moves[k - t.used - 1]) else t.nodes[k]),
         t.used + |moves|,
         seq(|t.nodes|, k requires 0 <= k < |t.nodes| =>
             if t.used < k <= t.used + n then
               Info(t.info[i].run + [rules.play(Last(t.info[i].run), moves[k - t.used - 1])], !t.info[i].attacker, i, true)
             else t.info[k]))
  }

  lemma AllocateKeepsGood(rules: Rules, root: nat, t: Tree, i: nat, moves: seq<Move>)
    requires AllGood(rules, root, t) && Live(t, i) && |t.info[i].run| > 0 && t.used + |moves| < |t.nodes|
    requires forall m | m in moves :: m in rules.legal(Last(t.info[i].run))
    requires t.info[i].attacker ==> forall m | m in moves :: rules.inCheck(rules.play(Last(t.info[i].run), m))
    requires i <= t.used
    ensures AllGood(rules, root, Allocate(rules, t, i, moves))
  {
    hide LineEnds, Adjudicated, ForcedWin, IsLegalRun, Good, Capped, Checks;
    var t' := Allocate(rules, t, i, moves);
    forall k: nat | Live(t', k)
      ensures Good(rules, root, t', k)
    {
      if k <= t.used {
        AllocateKeepsOld(rules, root, t, i, moves, k);
      } else {
        AllocateNewIsGood(rules, root, t, i, moves, k);
      }
    }
  }

  lemma AllocateKeepsOld(rules: Rules, root: nat, t: Tree, i: nat, moves: seq<Move>, k: nat)
    requires AllGood(rules, root, t) && Live(t, i) && |t.info[i].run| > 0 && t.used + |moves| < |t.nodes|
    requires k <= t.used && Live(Allocate(rules, t, i, moves), k)
    ensures Live(t, k) && Good(rules, root, Allocate(rules, t, i, moves), k)
    ensures Summarized(t, k) ==> Summarized(Allocate(rules, t, i, moves), k)
  {
    hide LineEnds, Adjudicated, ForcedWin, IsLegalRun, AllGood, Capped, Checks, IsChildOf, Pns, Dns, Children, ChecksAlong, Allocate, EndsAt, DistanceAmong;
    GoodShape(rules, root, t);
    AllocateKeepsSlots(rules, t, i, moves);
    assert Live(t, k);
    GoodParts(rules, root, t, k);
    var m := t.nodes[k];
    if m.HasChildren() {
      assert forall c: nat | m.children.value <= c < m.children.value + m.childNum :: IsChildOf(rules, t, k, c);
      AllocateKeepsChildren(rules, root, t, i, moves, k);
    }
  }

  lemma AllocateKeepsSlots(rules: Rules, t: Tree, i: nat, moves: seq<Move>)
    requires i < |t.info| == |t.nodes| && |t.info[i].run| > 0 && t.used + |moves| < |t.nodes|
    ensures var t' := Allocate(rules, t, i, moves);
            && |t'.nodes| == |t'.info| == |t.nodes| && t'.used == t.used + |moves|
            && forall k: nat | k <= t.used :: t'.nodes[k] == t.nodes[k] && t'.info[k] == t.info[k]
  {
  }

  lemma AllocateKeepsChildren(rules: Rules, root: nat, t: Tree, i: nat, moves: seq<Move>, k: nat)
    requires Shape(root, t) && Live(t, i) && |t.info[i].run| > 0 && t.used + |moves| < |t.nodes|
    requires Live(t, k) && t.nodes[k].HasChildren() && t.nodes[k].children.Some? && t.nodes[k].children.value + t.nodes[k].childNum <= t.used + 1
    requires forall c: nat | t.nodes[k].children.value <= c < t.nodes[k].children.value + t.nodes[k].childNum :: IsChildOf(rules, t, k, c)
    ensures var t' := Allocate(rules, t, i, moves);
            && (forall c: nat | t.nodes[k].children.value <= c < t.nodes[k].children.value + t.nodes[k].childNum :: IsChildOf(rules, t', k, c))
            && Pns(t', k) == Pns(t, k) && Dns(t', k) == Dns(t, k) && Children(t', k) == Children(t, k)
  {
    hide Checks, Capped, Allocate;
    AllocateKeepsSlots(rules, t, i, moves);
    var t', m := Allocate(rules, t, i, moves), t.nodes[k];
    forall c: nat | m.children.value <= c < m.children.value + m.childNum
      ensures IsChildOf(rules, t', k, c)
    {
      assert IsChildOf(rules, t, k, c);
    }
    assert Pns(t', k) == Pns(t, k);
    assert Dns(t', k) == Dns(t, k);
    assert Children(t', k) == Children(t, k);
  }

  lemma ExtendChecks(rules: Rules, root: nat, run: Run, p: Pos)
    requires |run| > root && ChecksAlong(rules, root, run) && (Depth(root, run) % 2 == 0 ==> rules.inCheck(p))
    ensures ChecksAlong(rules, root, run + [p])
  {
  }

  lemma AllocateNewIsGood(rules: Rules, root: nat, t: Tree, i: nat, moves: seq<Move>, k: nat)
    requires AllGood(rules, root, t) && Live(t, i) && |t.info[i].run| > 0 && t.used + |moves| < |t.nodes|
    requires forall m | m in moves :: m in rules.legal(Last(t.info[i].run))
    requires t.info[i].attacker ==> forall m | m in moves :: rules.inCheck(rules.play(Last(t.info[i].run), m))
    requires i <= t.used < k && Live(Allocate(rules, t, i, moves), k)
    ensures Good(rules, root, Allocate(rules, t, i, moves), k)
    ensures Summarized(Allocate(rules, t, i, moves), k)
  {
    hide LineEnds, Adjudicated, ForcedWin, AllGood, Capped, Checks, ChecksAlong;
    GoodParts(rules, root, t, i);
    AllocateLive(rules, root, t, i, moves, k);
    var m := moves[k - t.used - 1];
    assert m in moves;
    ExtendRun(rules, t.info[i].run, m);
    ExtendChecks(rules, root, t.info[i].run, rules.play(Last(t.info[i].run), m));
  }

  lemma AllocateLive(rules: Rules, root: nat, t: Tree, i: nat, moves: seq<Move>, k: nat)
    requires AllGood(rules, root, t) && Live(t, i) && |t.info[i].run| > 0 && t.used + |moves| < |t.nodes|
    requires t.used < k && Live(Allocate(rules, t, i, moves), k)
    ensures k <= t.used + Min(|moves|, MAX_CHILDREN)
  {
  }

  lemma AllocateKeepsInvariant(rules: Rules, root: nat, t: Tree, active: set<nat>, i: nat, moves: seq<Move>)
    requires TreeInvariant(rules, root, t, active) && Live(t, i) && |t.info[i].run| > 0 && t.used + |moves| < |t.nodes|
    requires forall m | m in moves :: m in rules.legal(Last(t.info[i].run))
    requires t.info[i].attacker ==> forall m | m in moves :: rules.inCheck(rules.play(Last(t.info[i].run), m))
    requires i <= t.used
    ensures TreeInvariant(rules, root, Allocate(rules, t, i, moves), active)
  {
    hide AllGood, Good, Summarized, Allocate;
    GoodShape(rules, root, t);
    AllocateKeepsGood(rules, root, t, i, moves);
    forall k: nat | Live(Allocate(rules, t, i, moves), k) && k !in active
      ensures Summarized(Allocate(rules, t, i, moves), k)
    {
      if k <= t.used {
        AllocateKeepsOld(rules, root, t, i, moves, k);
      } else {
        AllocateNewIsGood(rules, root, t, i, moves, k);
      }
    }
  }

  // ----- expanding a leaf -----

  function LinkTo(n: DfpnNode, first: nat, moves: seq<Move>): DfpnNode {
    n.(children := Some(first), childNum := Min(|moves|, MAX_CHILDREN))
  }

  /** The freshly allocated slots become the children of the leaf. */
  lemma {:induction false} LinkChildren(rules: Rules, root: nat, t: Tree, active: set<nat>, i: nat, moves: seq<Move>)
    requires TreeInvariant(rules, root, t, active) && IsLeaf(t, i) && i !in active && i <= t.used && (i > 0 ==> t.info[i].parent in active)
    requires |t.info[i].run| > 0 && t.used + |moves| < |t.nodes| && moves != []
    requires !Adjudicated(rules, root, t.info[i].run)
    requires var p := Last(t.info[i].run);
             if t.info[i].attacker then rules.mateInOne(p) == NULL_MOVE && moves == Checks(rules, p) else moves == rules.legal(p)
    ensures var t' := Allocate(rules, t, i, moves); var n := LinkTo(t.nodes[i], t.used + 1, moves);
            i < |t'.nodes| && TreeInvariant(rules, root, SetNode(t', i, n), active + {i})
  {
    hide LineEnds, AllGood, Adjudicated, ForcedWin, IsLegalRun, Checks, Summarized;
    GoodShape(rules, root, t);
    GoodParts(rules, root, t, i);
    FilterGivesChecksOf(rules, Last(t.info[i].run));
    AllocateKeepsInvariant(rules, root, t, active, i, moves);
    var t' := Allocate(rules, t, i, moves);
    var n := LinkTo(t.nodes[i], t.used + 1, moves);
    assert t'.nodes[i] == t.nodes[i] && t'.info[i] == t.info[i];
    LinkedToNew(rules, root, t, i, moves);
    assert Good(rules, root, SetNode(t', i, n), i);
    SetNodeKeepsInvariant(rules, root, t', active, i, n);
  }

  lemma FilterGivesChecksOf(rules: Rules, p: Pos)
    ensures forall m :: m in Checks(rules, p) ==> m in rules.legal(p) && rules.inCheck(rules.play(p, m))
  {
    FilterGivesChecks(rules, p, rules.legal(p));
  }

  lemma AllocatedSlot(rules: Rules, t: Tree, i: nat, moves: seq<Move>, j: nat)
    requires i <= t.used && i < |t.info| == |t.nodes| && |t.info[i].run| > 0 && t.used + |moves| < |t.nodes|
    requires j < |Capped(MAX_CHILDREN, moves)|
    ensures var t' := Allocate(rules, t, i, moves); var k := t.used + 1 + j;
            && k < |t'.nodes| == |t'.info| && t'.info[i] == t.info[i] && t'.nodes[i] == t.nodes[i]
            && t'.nodes[k] == FRESH.(lastMove := Capped(MAX_CHILDREN, moves)[j])
            && t'.info[k] == Info(t.info[i].run + [rules.play(Last(t.info[i].run), moves[j])], !t.info[i].attacker, i, true)
  {
  }

  lemma LinkedToNew(rules: Rules, root: nat, t: Tree, i: nat, moves: seq<Move>)
    requires Shape(root, t) && IsLeaf(t, i) && i <= t.used && |t.info[i].run| > 0 && t.used + |moves| < |t.nodes| && moves != []
    ensures var t' := Allocate(rules, t, i, moves); var n := LinkTo(t.nodes[i], t.used + 1, moves);
            && Live(SetNode(t', i, n), i)
            && Linked(rules, SetNode(t', i, n), i)
            && Lists(SetNode(t', i, n), n, Capped(MAX_CHILDREN, moves))
  {
    hide Allocate;
    AllocateShape(rules, t, i, moves);
    var t' := Allocate(rules, t, i, moves);
    var n := LinkTo(t.nodes[i], t.used + 1, moves);
    var t'' := SetNode(t', i, n);
    forall k: nat | t.used + 1 <= k < t.used + 1 + n.childNum
      ensures IsChildOf(rules, t'', i, k)
    {
      AllocatedSlot(rules, t, i, moves, k - (t.used + 1));
    }
    forall j: nat | j < n.childNum
      ensures t''.nodes[t.used + 1 + j].lastMove == Capped(MAX_CHILDREN, moves)[j]
    {
      AllocatedSlot(rules, t, i, moves, j);
    }
  }

  lemma AllocateShape(rules: Rules, t: Tree, i: nat, moves: seq<Move>)
    requires i <= t.used && i < |t.info| == |t.nodes| && |t.info[i].run| > 0 && t.used + |moves| < |t.nodes|
    ensures var t' := Allocate(rules, t, i, moves);
            && |t'.nodes| == |t'.info| == |t.nodes| && t'.used == t.used + |moves|
            && t'.info[i] == t.info[i] && t'.nodes[i] == t.nodes[i]
  {
  }

  /** The node and child written by the mate-in-one shortcut. */
  function MatedChild(move: Move, ply: nat): DfpnNode
    requires ply < INF
  {
    FRESH.(lastMove := move).SetMate(ply + 1).(childNum := 0)
  }

  function MateInOneNode(n: DfpnNode, first: nat, ply: nat): DfpnNode
    requires ply < INF
  {
    n.SetMate(ply).(mateDistance := 1, childNum := 1, children := Some(first))
  }

  /** A leaf linked to its mated child. */
  lemma MateInOneIsGood(rules: Rules, root: nat, t: Tree, i: nat, c: nat, ply: nat)
    requires IsLeaf(t, i) && Good(rules, root, t, i) && i < c <= t.used < |t.nodes| && Live(t, c) && ply <= MAX_POOL_NODES
    requires |t.info[i].run| > 0 && t.info[i].attacker && !Adjudicated(rules, root, t.info[i].run)
    requires var m := rules.mateInOne(Last(t.info[i].run));
             && m != NULL_MOVE && t.nodes[c] == MatedChild(m, ply)
             && t.info[c] == Info(t.info[i].run + [rules.play(Last(t.info[i].run), m)], false, i, true)
    requires ForcedWin(rules, MAX_CHILDREN, root, t.info[i].run, true)
    ensures var t' := SetNode(t, i, MateInOneNode(t.nodes[i], c, ply)); Live(t', i) && Good(rules, root, t', i)
  {
    hide LineEnds, Adjudicated, ForcedWin, IsLegalRun, Checks, Options, ChecksAlong;
    var t' := SetNode(t, i, MateInOneNode(t.nodes[i], c, ply));
    assert IsChildOf(rules, t', i, c);
    assert Linked(rules, t', i);
    assert Covered(rules, t', i);
  }

  /** The mate-in-one shortcut proves the leaf through a single mated child. */
  lemma {:induction false} CloseByMateInOne(rules: Rules, root: nat, t: Tree, active: set<nat>, i: nat, ply: nat)
    requires SoundMateInOne(rules) && TreeInvariant(rules, root, t, active)
    requires IsLeaf(t, i) && i !in active && i <= t.used && (i > 0 ==> t.info[i].parent in active)
    requires |t.info[i].run| > 0 && t.info[i].attacker && t.used + 1 < |t.nodes| && ply <= MAX_POOL_NODES
    requires !Adjudicated(rules, root, t.info[i].run)
    requires rules.mateInOne(Last(t.info[i].run)) != NULL_MOVE
    ensures var m := rules.mateInOne(Last(t.info[i].run)); var t1 := Allocate(rules, t, i, [m]);
            && i < t.used + 1 < |t1.nodes|
            && TreeInvariant(rules, root, SetNode(SetNode(t1, t.used + 1, MatedChild(m, ply)), i, MateInOneNode(t.nodes[i], t.used + 1, ply)), active + {i})
  {
    hide LineEnds, AllGood, Adjudicated, ForcedWin, IsLegalRun, Checks, Summarized, Options, ChecksAlong;
    GoodShape(rules, root, t);
    GoodParts(rules, root, t, i);
    var run := t.info[i].run;
    var m := rules.mateInOne(Last(run));
    AllocateKeepsInvariant(rules, root, t, active, i, [m]);
    var c := t.used + 1;
    var t1 := Allocate(rules, t, i, [m]);
    assert t1.nodes[i] == t.nodes[i] && t1.info[i] == t.info[i];
    assert t1.nodes[c] == FRESH.(lastMove := m);
    assert t1.info[c] == Info(run + [rules.play(Last(run), m)], false, i, true);
    CheckmateIsForced(rules, MAX_CHILDREN, root, run, m);
    MatedChildIsForced(rules, root, run, m);
    WidenActive(rules, root, t1, active, i);
    CloseLeaf(rules, root, t1, active + {i}, c, MatedChild(m, ply), ply + 1);
    var t2 := SetNode(t1, c, MatedChild(m, ply));
    var n := MateInOneNode(t.nodes[i], c, ply);
    var t3 := SetNode(t2, i, n);
    MateInOneIsForced(rules, root, run);
    MateInOneIsGood(rules, root, t2, i, c, ply);
    SetNodeKeepsInvariant(rules, root, t2, active + {i}, i, n);
    assert active + {i} + {i} == active + {i};
  }

  lemma WidenActive(rules: Rules, root: nat, t: Tree, active: set<nat>, i: nat)
    requires TreeInvariant(rules, root, t, active)
    ensures TreeInvariant(rules, root, t, active + {i})
  {
    hide AllGood, Summarized;
  }

  lemma InvariantIsGood(rules: Rules, root: nat, t: Tree, active: set<nat>)
    requires TreeInvariant(rules, root, t, active)
    ensures AllGood(rules, root, t)
  {
  }

  lemma MatedChildIsForced(rules: Rules, root: nat, run: Run, m: Move)
    requires |run| > 0 && ForcedAfter(rules, MAX_CHILDREN, root, run, m, false)
    ensures ForcedWin(rules, MAX_CHILDREN, root, run + [rules.play(Last(run), m)], false)
  {
  }

  lemma MateInOneIsForced(rules: Rules, root: nat, run: Run)
    requires SoundMateInOne(rules) && IsLegalRun(rules, run) && !Adjudicated(rules, root, run)
    requires rules.mateInOne(Last(run)) != NULL_MOVE
    ensures ForcedWin(rules, MAX_CHILDREN, root, run, true)
  {
    hide Adjudicated, Checks, ForcedAfter;
    var m := rules.mateInOne(Last(run));
    CheckmateIsForced(rules, MAX_CHILDREN, root, run, m);
    AttackerForces(rules, MAX_CHILDREN, root, run);
    var options := Options(rules, MAX_CHILDREN, Last(run), true);
    assert options[|options| - 1] == m;
  }

  /** Running out of moves decides the line: no check is no mate, no evasion is mate. */
  lemma {:induction false} NoMoves(rules: Rules, root: nat, run: Run, attacker: bool)
    requires |run| > 0 && !Adjudicated(rules, root, run)
    requires if attacker then rules.mateInOne(Last(run)) == NULL_MOVE && Checks(rules, Last(run)) == [] else rules.legal(Last(run)) == []
    ensures ForcedWin(rules, MAX_CHILDREN, root, run, attacker) <==> !attacker
    ensures !attacker ==> LineEnds(rules, root, run, attacker)
  {
    hide Adjudicated, Checks;
    if attacker {
      AttackerForces(rules, MAX_CHILDREN, root, run);
    } else {
      DefenderForces(rules, MAX_CHILDREN, root, run);
    }
  }
}
