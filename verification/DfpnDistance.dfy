/** What the distances of a finished search mean: the length of the principal mate in the proven
    tree. */
module DfpnDistance {
  import opened MateGame
  import opened DfpnTree

  ghost predicate IsSlotOf(t: Tree, i: nat, c: nat) {
    && i < |t.nodes| && t.nodes[i].children.Some? && c < |t.nodes|
    && t.nodes[i].children.value <= c < t.nodes[i].children.value + t.nodes[i].childNum
  }

  /** Along the proven nodes below slot `i` the attacker mates within `k` plies, whatever the
      defender plays. */
  ghost predicate Mates(t: Tree, i: nat, k: nat)
    requires i < |t.nodes| == |t.info|
    decreases k
  {
    && t.nodes[i].pn == 0
    && (|| t.nodes[i].children.None?
        || (k > 0 && if t.info[i].attacker then exists c: nat :: IsSlotOf(t, i, c) && Mates(t, c, k - 1)
                     else forall c: nat | IsSlotOf(t, i, c) :: Mates(t, c, k - 1)))
  }

  /** With fewer slots in use than distances can count, a proof's distance is the least number of
      plies its subtree mates within. */
  lemma {:induction false} DistanceIsExact(rules: Rules, root: nat, t: Tree, i: nat, k: nat)
    requires TreeInvariant(rules, root, t, {}) && Live(t, i) && t.nodes[i].pn == 0 && t.used < 0xFFFF && |t.nodes| == |t.info|
    ensures Mates(t, i, k) <==> t.nodes[i].mateDistance <= k
    decreases k
  {
    hide TreeInvariant, IsChildOf, Children, DistanceAmong;
    NodeDistance(rules, root, t, i);
    if t.nodes[i].children.Some? && k > 0 {
      forall c: nat | IsSlotOf(t, i, c) && t.nodes[c].pn == 0
        ensures Mates(t, c, k - 1) <==> t.nodes[c].mateDistance <= k - 1
      {
        DistanceIsExact(rules, root, t, c, k - 1);
      }
    }
  }

  lemma NodeFacts(rules: Rules, root: nat, t: Tree, i: nat)
    requires TreeInvariant(rules, root, t, {}) && Live(t, i) && t.nodes[i].pn == 0
    ensures Linked(rules, t, i) && RunOk(rules, root, t, i) && ChildrenTimed(rules, root, t, i)
    ensures t.nodes[i].children.Some? <==> t.nodes[i].HasChildren()
    ensures t.nodes[i].HasChildren() ==>
              && SummaryPn(t, i) == 0 && t.nodes[i].mateDistance == OneMore(DistanceAmong(t.info[i].attacker, Children(t, i)))
              && t.nodes[i].children.value + t.nodes[i].childNum <= |t.nodes|
    ensures !t.nodes[i].HasChildren() ==> t.nodes[i].mateDistance == 0
  {
    hide ChildrenTimed, DistanceAmong, Children, AllGood, Adjudicated, IsLegalRun, ChecksAlong, Covered, Truthful, Pns, Dns;
    assert Summarized(t, i);
    GoodChildrenTimed(rules, root, t, i);
    GoodParts(rules, root, t, i);
  }

  lemma SlotIsChild(rules: Rules, root: nat, t: Tree, i: nat, c: nat)
    requires Live(t, i) && Linked(rules, t, i) && RunOk(rules, root, t, i) && ChildrenTimed(rules, root, t, i) && t.nodes[i].HasChildren() && IsSlotOf(t, i, c)
    ensures Live(t, c) && IsChildOf(rules, t, i, c) && t.nodes[i].children.value + t.nodes[i].childNum <= |t.nodes|
    ensures var j := c - t.nodes[i].children.value; 0 <= j < |Children(t, i)| && Children(t, i)[j] == t.nodes[c]
  {
    hide IsChildOf, ChildrenTimed, RunOk;
    ChildAt(rules, t, i, c - t.nodes[i].children.value);
    ChildIsLive(rules, t, i, c);
  }

  /** A node's distance is one more than the best of its children's. */
  lemma NodeDistance(rules: Rules, root: nat, t: Tree, i: nat)
    requires TreeInvariant(rules, root, t, {}) && Live(t, i) && t.nodes[i].pn == 0 && t.used < 0xFFFF && |t.nodes| == |t.info|
    ensures t.nodes[i].children.None? ==> t.nodes[i].mateDistance == 0
    ensures t.nodes[i].children.Some? ==>
              var d := t.nodes[i].mateDistance;
              && d > 0 && (exists c: nat :: IsSlotOf(t, i, c) && Live(t, c) && t.nodes[c].pn == 0 && t.nodes[c].mateDistance == d - 1)
              && forall c: nat | IsSlotOf(t, i, c) :: Live(t, c) &&
                   if t.info[i].attacker then t.nodes[c].pn == 0 ==> d - 1 <= t.nodes[c].mateDistance
                   else t.nodes[c].pn == 0 && t.nodes[c].mateDistance <= d - 1
  {
    hide TreeInvariant, Linked, RunOk, ChildrenTimed, IsChildOf, Children, DistanceAmong, SummaryPn;
    NodeFacts(rules, root, t, i);
    if t.nodes[i].children.Some? {
      var best := DistanceIsAttained(rules, root, t, i);
      ChildDistance(rules, root, t, i, best);
      DistanceAmongIs(t.info[i].attacker, Children(t, i));
      ProvenChildren(rules, t, i);
      forall c: nat | IsSlotOf(t, i, c)
        ensures Live(t, c) && IsChildOf(rules, t, i, c)
        ensures var j := c - t.nodes[i].children.value; 0 <= j < |Children(t, i)| && Children(t, i)[j] == t.nodes[c]
      {
        SlotIsChild(rules, root, t, i, c);
      }
      ChildIsLive(rules, t, i, best);
    }
  }
}
