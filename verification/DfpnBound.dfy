/** The numeric bound: the numbers of an unresolved node never exceed the number of open
    leaves below it, so nothing saturates and the selected child always makes progress. */
module DfpnBound {
  import opened Counting
  import opened MateGame
  import opened DfpnTree

  ghost function OpenLeaves(t: Tree): set<nat> {
    set l: nat | l < |t.nodes| && IsLeaf(t, l)
  }

  /** `a` is `l` or one of its ancestors. */
  ghost predicate Above(t: Tree, a: nat, l: nat)
    decreases l
  {
    l == a || (l < |t.info| && t.info[l].parent < l && Above(t, a, t.info[l].parent))
  }

  ghost function LeavesBelow(t: Tree, a: nat): set<nat> {
    set l: nat | l < |t.nodes| && IsLeaf(t, l) && Above(t, a, l)
  }

  lemma {:induction false} AboveIsSmaller(t: Tree, a: nat, l: nat)
    requires Above(t, a, l)
    ensures a <= l
    decreases l
  {
    if l != a {
      AboveIsSmaller(t, a, t.info[l].parent);
    }
  }

  /** The ancestors of a slot form a chain. */
  lemma {:induction false} AboveIsChain(t: Tree, a: nat, b: nat, l: nat)
    requires Above(t, a, l) && Above(t, b, l) && a <= b
    ensures Above(t, a, b)
    decreases l
  {
    AboveIsSmaller(t, a, l);
    AboveIsSmaller(t, b, l);
    if l != b {
      AboveIsChain(t, a, b, t.info[l].parent);
    }
  }

  lemma {:induction false} AboveThroughChild(t: Tree, i: nat, c: nat, l: nat)
    requires c < |t.info| && t.info[c].parent == i < c && Above(t, c, l)
    ensures Above(t, i, l)
    decreases l
  {
    if l != c {
      AboveThroughChild(t, i, c, t.info[l].parent);
    }
  }

  /** Different children have different leaves below them. */
  lemma SiblingsAreDisjoint(t: Tree, i: nat, c: nat, d: nat)
    requires i < c < d < |t.info| && t.info[c].parent == i && t.info[d].parent == i
    ensures LeavesBelow(t, c) !! LeavesBelow(t, d)
  {
    forall l | l in LeavesBelow(t, c)
      ensures l !in LeavesBelow(t, d)
    {
      if Above(t, d, l) {
        AboveIsChain(t, c, d, l);
        AboveIsSmaller(t, c, i);
      }
    }
  }

  ghost function LeavesBelowAny(t: Tree, first: nat, m: nat): set<nat> {
    if m == 0 then {} else LeavesBelowAny(t, first, m - 1) + LeavesBelow(t, first + m - 1)
  }

  lemma {:induction false} LaterSiblingIsDisjoint(t: Tree, i: nat, first: nat, m: nat, d: nat)
    requires i < first && first + m <= d < |t.info| && t.info[d].parent == i
    requires forall c: nat | first <= c < first + m :: t.info[c].parent == i
    ensures LeavesBelowAny(t, first, m) !! LeavesBelow(t, d)
  {
    hide LeavesBelow;
    if m > 0 {
      LaterSiblingIsDisjoint(t, i, first, m - 1, d);
      SiblingsAreDisjoint(t, i, first + m - 1, d);
    }
  }

  lemma {:induction false} ChildLeavesAreBelow(t: Tree, i: nat, first: nat, m: nat)
    requires i < first && first + m <= |t.info|
    requires forall c: nat | first <= c < first + m :: t.info[c].parent == i
    ensures LeavesBelowAny(t, first, m) <= LeavesBelow(t, i)
  {
    if m > 0 {
      ChildLeavesAreBelow(t, i, first, m - 1);
      var c := first + m - 1;
      forall l | l in LeavesBelow(t, c)
        ensures l in LeavesBelow(t, i)
      {
        AboveThroughChild(t, i, c, l);
      }
    }
  }

  /** Numbers bounded by the leaves of their own child sum to at most all leaves. */
  lemma {:induction false} SumOfChildren(t: Tree, i: nat, first: nat, values: seq<nat>)
    requires i < first && first + |values| <= |t.info|
    requires forall c: nat | first <= c < first + |values| :: t.info[c].parent == i
    requires forall j: nat | j < |values| :: values[j] <= |LeavesBelow(t, first + j)|
    ensures Sum(values) <= |LeavesBelowAny(t, first, |values|)|
  {
    hide LeavesBelow;
    if values != [] {
      var m := |values| - 1;
      SumOfChildren(t, i, first, values[..m]);
      LaterSiblingIsDisjoint(t, i, first, m, first + m);
      assert values[m] <= |LeavesBelow(t, first + m)|;
    }
  }

  lemma ChildSum(t: Tree, i: nat, first: nat, values: seq<nat>)
    requires i < first && first + |values| <= |t.info|
    requires forall c: nat | first <= c < first + |values| :: t.info[c].parent == i
    requires forall j: nat | j < |values| :: values[j] <= |LeavesBelow(t, first + j)|
    ensures Sum(values) <= |LeavesBelow(t, i)|
  {
    hide LeavesBelow;
    SumOfChildren(t, i, first, values);
    ChildLeavesAreBelow(t, i, first, |values|);
    SubsetIsSmaller(LeavesBelowAny(t, first, |values|), LeavesBelow(t, i));
  }

  lemma FewLeaves(t: Tree, i: nat)
    ensures |LeavesBelow(t, i)| <= |t.nodes|
    ensures |OpenLeaves(t)| <= |t.nodes|
  {
    SubsetIsSmaller(LeavesBelow(t, i), Below(|t.nodes|));
    SubsetIsSmaller(OpenLeaves(t), Below(|t.nodes|));
  }

  ghost predicate Bounded(t: Tree, i: nat)
    requires Live(t, i)
  {
    t.nodes[i].IsOpen() ==>
      1 <= t.nodes[i].pn <= |LeavesBelow(t, i)| && 1 <= t.nodes[i].dn <= |LeavesBelow(t, i)|
  }

  /** In a consistent subtree every unresolved node is bounded by its open leaves. */
  lemma {:induction false} NumbersAreBounded(rules: Rules, root: nat, t: Tree, active: set<nat>, i: nat)
    requires TreeInvariant(rules, root, t, active) && Live(t, i) && forall a | a in active :: a < i
    ensures Bounded(t, i)
    decreases |t.nodes| - i
  {
    hide AllGood, Good, Summarized, LeavesBelow;
    if t.nodes[i].IsOpen() {
      GoodParts(rules, root, t, i);
      InvariantNode(rules, root, t, active, i);
      if t.nodes[i].HasChildren() {
        ChildrenBounded(rules, root, t, active, i);
        SummaryBounded(rules, t, i);
      } else {
        OwnLeaf(t, i);
      }
    }
  }

  lemma OwnLeaf(t: Tree, i: nat)
    requires IsLeaf(t, i)
    ensures |LeavesBelow(t, i)| >= 1
  {
    assert i in LeavesBelow(t, i);
  }

  /** The local facts about one node. */
  lemma InvariantNode(rules: Rules, root: nat, t: Tree, active: set<nat>, i: nat)
    requires TreeInvariant(rules, root, t, active) && Live(t, i)
    ensures Shape(root, t) && Linked(rules, t, i) && InRange(t.nodes[i])
    ensures i !in active ==> Summarized(t, i)
    ensures t.nodes[i].IsOpen() && !t.nodes[i].HasChildren() ==> IsLeaf(t, i) && t.nodes[i].pn == t.nodes[i].dn == 1
  {
    GoodParts(rules, root, t, i);
  }

  lemma ChildrenBounded(rules: Rules, root: nat, t: Tree, active: set<nat>, i: nat)
    requires TreeInvariant(rules, root, t, active) && Live(t, i) && forall a | a in active :: a < i
    requires t.nodes[i].HasChildren()
    ensures Linked(rules, t, i)
    ensures var n := t.nodes[i];
            forall c: nat | n.children.value <= c < n.children.value + n.childNum ::
              Live(t, c) && t.info[c].parent == i && Bounded(t, c) && InRange(t.nodes[c])
    decreases |t.nodes| - i, 0
  {
    hide AllGood, Good, Summarized, LeavesBelow, InRange, Bounded;
    InvariantNode(rules, root, t, active, i);
    var n := t.nodes[i];
    forall c: nat | n.children.value <= c < n.children.value + n.childNum
      ensures Live(t, c) && t.info[c].parent == i && Bounded(t, c) && InRange(t.nodes[c])
    {
      assert IsChildOf(rules, t, i, c);
      InvariantNode(rules, root, t, active, c);
      NumbersAreBounded(rules, root, t, active, c);
    }
  }

  /** The children's bounds, as facts about the two sequences of numbers. */
  lemma ChildNumbers(rules: Rules, t: Tree, i: nat, j: nat)
    requires Live(t, i) && Linked(rules, t, i) && t.nodes[i].HasChildren() && j < t.nodes[i].childNum
    requires var c := t.nodes[i].children.value + j; Live(t, c) && t.info[c].parent == i && Bounded(t, c) && InRange(t.nodes[c])
    ensures j < |Pns(t, i)| == |Dns(t, i)|
    ensures var c := t.nodes[i].children.value + j; var p := Pns(t, i)[j]; var d := Dns(t, i)[j];
            && (p == 0 ==> d >= LARGE) && (d == 0 ==> p >= LARGE)
            && (p != 0 && d != 0 ==> p <= |LeavesBelow(t, c)| && d <= |LeavesBelow(t, c)|)
  {
    hide LeavesBelow;
    ChildSlots(rules, t, i);
  }

  lemma SummaryBounded(rules: Rules, t: Tree, i: nat)
    requires Live(t, i) && Linked(rules, t, i) && Summarized(t, i) && t.nodes[i].HasChildren() && t.nodes[i].IsOpen()
    requires |t.info| == |t.nodes| <= MAX_POOL_NODES + 1
    requires var n := t.nodes[i];
             forall c: nat | n.children.value <= c < n.children.value + n.childNum ::
               Live(t, c) && t.info[c].parent == i && Bounded(t, c) && InRange(t.nodes[c])
    ensures Bounded(t, i)
  {
    hide LeavesBelow, InRange, Pns, Dns, IsChildOf;
    assert |Pns(t, i)| == |Dns(t, i)| == t.nodes[i].childNum by { ChildSlots(rules, t, i); }
    var first := t.nodes[i].children.value;
    forall j: nat | j < |Pns(t, i)|
      ensures var p := Pns(t, i)[j]; var d := Dns(t, i)[j];
              && (p == 0 ==> d >= LARGE) && (d == 0 ==> p >= LARGE)
              && (p != 0 && d != 0 ==> p <= |LeavesBelow(t, first + j)| && d <= |LeavesBelow(t, first + j)|)
    {
      ChildNumbers(rules, t, i, j);
    }
    if t.info[i].attacker {
      OpenSummaryBounded(t, i, first, Pns(t, i), Dns(t, i));
    } else {
      OpenSummaryBounded(t, i, first, Dns(t, i), Pns(t, i));
    }
  }

  /** The shared argument for both node kinds: `mins` is minimized, `sums` is summed, and
      neither result is zero. */
  lemma OpenSummaryBounded(t: Tree, i: nat, first: nat, mins: seq<nat>, sums: seq<nat>)
    requires i < first && |mins| == |sums| && first + |mins| <= |t.info| == |t.nodes| <= MAX_POOL_NODES + 1
    requires forall c: nat | first <= c < first + |mins| :: t.info[c].parent == i
    requires forall j: nat | j < |mins| ::
               && (mins[j] == 0 ==> sums[j] >= LARGE) && (sums[j] == 0 ==> mins[j] >= LARGE)
               && (mins[j] != 0 && sums[j] != 0 ==>
                     mins[j] <= |LeavesBelow(t, first + j)| && sums[j] <= |LeavesBelow(t, first + j)|)
    requires MinOf(mins) != 0 && SatSum(sums) != 0
    ensures 1 <= MinOf(mins) <= |LeavesBelow(t, i)|
    ensures 1 <= SatSum(sums) <= |LeavesBelow(t, i)|
  {
    hide LeavesBelow;
    MinOfIsMinimum(mins);
    SatSumBounds(sums);
    ChildSum(t, i, first, sums);
    FewLeaves(t, i);
    var j: nat :| j < |sums| && sums[j] != 0;
    SumAtLeast(sums, j);
    OneChildBelow(t, i, first, |mins|, j);
  }

  lemma {:induction false} SumAtLeast(s: seq<nat>, j: nat)
    requires j < |s|
    ensures s[j] <= Sum(s)
  {
    if j < |s| - 1 {
      SumAtLeast(s[..|s| - 1], j);
    }
  }

  lemma OneChildBelow(t: Tree, i: nat, first: nat, m: nat, j: nat)
    requires i < first && first + m <= |t.info| && j < m
    requires forall c: nat | first <= c < first + m :: t.info[c].parent == i
    ensures |LeavesBelow(t, first + j)| <= |LeavesBelow(t, i)|
  {
    forall l | l in LeavesBelow(t, first + j)
      ensures l in LeavesBelow(t, i)
    {
      AboveThroughChild(t, i, first + j, l);
    }
    SubsetIsSmaller(LeavesBelow(t, first + j), LeavesBelow(t, i));
  }

  // ----- selection -----

  /** A child with the smallest selecting number of an unresolved node is unresolved, and
      both its numbers are at most the node's own. */
  lemma {:induction false} BestChildIsOpen(rules: Rules, root: nat, t: Tree, active: set<nat>, i: nat, j: nat)
    requires TreeInvariant(rules, root, t, active) && Live(t, i) && forall a | a in active :: a < i
    requires t.nodes[i].IsOpen() && t.nodes[i].HasChildren() && Linked(rules, t, i) && j < t.nodes[i].childNum
    requires var c := t.nodes[i].children.value + j;
             if t.info[i].attacker then t.nodes[c].pn == MinOf(Pns(t, i)) else t.nodes[c].dn == MinOf(Dns(t, i))
    ensures var c := t.nodes[i].children.value + j;
            && Live(t, c) && IsChildOf(rules, t, i, c) && t.nodes[c].IsOpen() && t.nodes[c].IsExpanded() == t.nodes[c].HasChildren()
            && t.nodes[c].pn <= t.nodes[i].pn < LARGE && t.nodes[c].dn <= t.nodes[i].dn < LARGE
  {
    hide TreeInvariant, IsChildOf, AllGood, Good, LeavesBelow, Pns, Dns, Linked, MinOf, SatSum;
    InvariantNode(rules, root, t, active, i);
    NumbersAreBounded(rules, root, t, active, i);
    FewLeaves(t, i);
    ChildSlots(rules, t, i);
    var c := t.nodes[i].children.value + j;
    ChildIsLive(rules, t, i, c);
    InvariantNode(rules, root, t, active, c);
    SatSumBounds(Pns(t, i));
    SatSumBounds(Dns(t, i));
    assert Pns(t, i)[j] == t.nodes[c].pn && Dns(t, i)[j] == t.nodes[c].dn;
  }

  // ----- progress -----

  lemma ClosingALeaf(t: Tree, k: nat, n: DfpnNode)
    requires IsLeaf(t, k) && k < |t.nodes| && !n.IsOpen()
    ensures OpenLeaves(SetNode(t, k, n)) == OpenLeaves(t) - {k}
    ensures |OpenLeaves(SetNode(t, k, n))| == |OpenLeaves(t)| - 1
  {
    assert k in OpenLeaves(t);
  }

  lemma RenumberingKeepsLeaves(t: Tree, k: nat, n: DfpnNode)
    requires k < |t.nodes| && t.nodes[k].IsExpanded() && n.IsExpanded()
    ensures OpenLeaves(SetNode(t, k, n)) == OpenLeaves(t)
  {
  }
}
