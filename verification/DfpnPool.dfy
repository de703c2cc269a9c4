/** The linear node allocator of the df-pn solver. */
module DfpnPool {
  import opened Wrappers
  import opened DfpnTree

  class DfpnNodePool {
    // Slot 0 stands for the root node, which lives outside the pool; the pool is the rest.
    var nodes: array<DfpnNode>
    var capacity: nat
    var used: nat
    var exhausted: bool

    ghost predicate Valid()
      reads this, nodes
    {
      && used <= capacity < nodes.Length
      && forall k: nat | used < k < nodes.Length :: nodes[k] == FRESH
    }

    constructor ()
      ensures Valid() && fresh(nodes) && used == 0 && capacity == 0
    {
      nodes := new DfpnNode[1](_ => FRESH);
      capacity, used, exhausted := 0, 0, false;
    }

    /** Starts a search with `numNodes` fresh slots. Reusing a large enough allocation only
        has to restore the slots that were used. */
    method Alloc(numNodes: nat)
      requires Valid()
      modifies this, nodes
      ensures Valid() && capacity == numNodes && used == 0 && !exhausted
      ensures nodes == old(nodes) || fresh(nodes)
      ensures forall k: nat | 0 < k < nodes.Length :: nodes[k] == FRESH
    {
      if nodes.Length > numNodes {
        var k := 1;
        while k <= used
          modifies nodes
          invariant 1 <= k <= used + 1
          invariant forall j: nat | 0 < j < k :: nodes[j] == FRESH
          invariant forall j: nat | used < j < nodes.Length :: nodes[j] == FRESH
        {
          nodes[k] := FRESH;
          k := k + 1;
        }
      } else {
        nodes := new DfpnNode[numNodes + 1](_ => FRESH);
      }
      capacity := numNodes;
      used := 0;
      exhausted := false;
    }

    /** Reserves `count` consecutive slots, or reports exhaustion and reserves nothing. */
    method NewNodes(count: nat) returns (first: Option<nat>)
      requires Valid()
      modifies this`used, this`exhausted
      ensures first.Some? <==> old(used) + count <= capacity
      ensures first.Some? ==> first.value == old(used) + 1 && used == old(used) + count && exhausted == old(exhausted)
      ensures first.None? ==> used == old(used) && exhausted
      ensures used <= capacity
    {
      if used + count > capacity {
        exhausted := true;
        return None;
      }
      first := Some(used + 1);
      used := used + count;
    }

    predicate OutOfMemory()
      reads this
    {
      exhausted || used >= capacity
    }
  }
}
