/** Search tree nodes in memory: who owns which node, how many bytes they take, and what each
    pointer operation keeps. */
module NodeStore {
  import opened Shogi

  datatype Slot = Null | Ptr(id: nat)

  datatype NodeState = Fresh | Evaluated | Expanded

  /** An edge with its statistics and the child it owns. */
  datatype Edge = Edge(move: Move, child: Slot, rate: real, count: int, win: real, flags: nat)

  datatype Node = Node(state: NodeState, count: int, win: real, visitedRate: real, edges: seq<Edge>)

  datatype Cell = Freed | Live(node: Node)

  type Memory = seq<Cell>

  const FRESH := Node(NodeState.Fresh, 0, 0.0, 0.0, [])

  function NewEdge(m: Move): Edge { Edge(m, Null, 0.0, 0, 0.0, 0) }

  predicate IsLive(mem: Memory, p: nat) { p < |mem| && mem[p].Live? }

  function Edges(mem: Memory, p: nat): seq<Edge>
    requires IsLive(mem, p)
  {
    mem[p].node.edges
  }

  // ----- ownership -----

  /** Top nodes are held by the tree or the deletion queue, all others by one slot. */
  datatype Owner = Top | Of(parent: nat, index: nat)

  ghost predicate HoldsChild(mem: Memory, p: nat, i: nat, c: nat) {
    IsLive(mem, p) && i < |Edges(mem, p)| && Edges(mem, p)[i].child == Ptr(c)
  }

  /** Every node has one owner, every pointer leads to a node that knows it, and parents are
      older than their children. */
  ghost predicate Forest(mem: Memory, owner: map<nat, Owner>) {
    && (forall p: nat :: p in owner <==> IsLive(mem, p))
    && (forall p: nat, i: nat, c: nat | HoldsChild(mem, p, i, c) :: p < c && c in owner && owner[c] == Of(p, i))
    && (forall c: nat | c in owner && owner[c].Of? :: HoldsChild(mem, owner[c].parent, owner[c].index, c))
  }

  /** The nodes without a parent. */
  ghost predicate TopsAre(owner: map<nat, Owner>, tops: set<nat>) {
    forall c: nat :: c in tops <==> c in owner && owner[c] == Top
  }

  /** The topmost node above a node. */
  ghost function TopOf(mem: Memory, owner: map<nat, Owner>, q: nat): (t: nat)
    requires Forest(mem, owner) && q in owner
    ensures t in owner && owner[t] == Top
    decreases q
  {
    if owner[q] == Top then q
    else
      assert HoldsChild(mem, owner[q].parent, owner[q].index, q);
      TopOf(mem, owner, owner[q].parent)
  }

  // ----- bytes -----

  function Size(cell: Cell, nodeBytes: nat, childBytes: nat): nat {
    if cell.Live? then nodeBytes + |cell.node.edges| * childBytes else 0
  }

  /** The bytes of all allocated nodes. */
  function Total(mem: Memory, nodeBytes: nat, childBytes: nat): nat {
    if mem == [] then 0 else Total(mem[..|mem| - 1], nodeBytes, childBytes) + Size(mem[|mem| - 1], nodeBytes, childBytes)
  }

  lemma {:induction false} TotalUpdate(mem: Memory, p: nat, cell: Cell, nodeBytes: nat, childBytes: nat)
    requires p < |mem|
    ensures Total(mem[p := cell], nodeBytes, childBytes) == Total(mem, nodeBytes, childBytes) - Size(mem[p], nodeBytes, childBytes) + Size(cell, nodeBytes, childBytes)
    decreases |mem|
  {
    hide Size;
    var last := |mem| - 1;
    if p < last {
      TotalUpdate(mem[..last], p, cell, nodeBytes, childBytes);
      assert mem[p := cell][..last] == mem[..last][p := cell];
    } else {
      assert mem[p := cell][..last] == mem[..last];
    }
  }

  lemma TotalPush(mem: Memory, cell: Cell, nodeBytes: nat, childBytes: nat)
    ensures Total(mem + [cell], nodeBytes, childBytes) == Total(mem, nodeBytes, childBytes) + Size(cell, nodeBytes, childBytes)
  {
    assert (mem + [cell])[..|mem|] == mem;
  }

  // ----- what pointer operations keep -----

  function WithEdges(mem: Memory, p: nat, edges: seq<Edge>): (r: Memory)
    requires IsLive(mem, p)
    ensures |r| == |mem|
  {
    mem[p := Live(mem[p].node.(edges := edges))]
  }

  function WithChild(mem: Memory, p: nat, i: nat, slot: Slot): (r: Memory)
    requires IsLive(mem, p) && i < |Edges(mem, p)|
    ensures |r| == |mem|
  {
    WithEdges(mem, p, Edges(mem, p)[i := Edges(mem, p)[i].(child := slot)])
  }

  predicate NoChildren(edges: seq<Edge>) { forall i: nat | i < |edges| :: edges[i].child == Null }

  lemma AllocKeeps(mem: Memory, owner: map<nat, Owner>)
    requires Forest(mem, owner)
    ensures Forest(mem + [Live(FRESH)], owner[|mem| := Top])
  {
    var mem', owner' := mem + [Live(FRESH)], owner[|mem| := Top];
    forall p: nat, i: nat, c: nat
      ensures HoldsChild(mem', p, i, c) <==> HoldsChild(mem, p, i, c)
    {
    }
  }

  lemma AttachKeeps(mem: Memory, owner: map<nat, Owner>, p: nat, i: nat, c: nat)
    requires Forest(mem, owner) && IsLive(mem, p) && i < |Edges(mem, p)| && Edges(mem, p)[i].child == Null
    requires c in owner && owner[c] == Top && p < c
    ensures Forest(WithChild(mem, p, i, Ptr(c)), owner[c := Of(p, i)])
  {
    var mem' := WithChild(mem, p, i, Ptr(c));
    forall q: nat, j: nat, d: nat
      ensures HoldsChild(mem', q, j, d) <==> HoldsChild(mem, q, j, d) || (q == p && j == i && d == c)
    {
    }
  }

  lemma DetachKeeps(mem: Memory, owner: map<nat, Owner>, p: nat, i: nat, c: nat)
    requires Forest(mem, owner) && HoldsChild(mem, p, i, c)
    ensures Forest(WithChild(mem, p, i, Null), owner[c := Top])
  {
    var mem' := WithChild(mem, p, i, Null);
    forall q: nat, j: nat, d: nat
      ensures HoldsChild(mem', q, j, d) <==> HoldsChild(mem, q, j, d) && !(q == p && j == i)
    {
    }
  }

  /** Replacing a list of edges without children by another such list. */
  lemma RelistKeeps(mem: Memory, owner: map<nat, Owner>, p: nat, edges: seq<Edge>)
    requires Forest(mem, owner) && IsLive(mem, p) && NoChildren(Edges(mem, p)) && NoChildren(edges)
    ensures Forest(WithEdges(mem, p, edges), owner)
  {
    var mem' := WithEdges(mem, p, edges);
    forall q: nat, j: nat, d: nat
      ensures HoldsChild(mem', q, j, d) <==> HoldsChild(mem, q, j, d)
    {
    }
  }

  /** Keeping only the edge whose child is the last one left. */
  lemma {:induction false} KeepOneKeeps(mem: Memory, owner: map<nat, Owner>, p: nat, i: nat, c: nat)
    requires Forest(mem, owner) && HoldsChild(mem, p, i, c)
    requires forall j: nat | j < |Edges(mem, p)| && j != i :: Edges(mem, p)[j].child == Null
    ensures Forest(WithEdges(mem, p, [Edges(mem, p)[i]]), owner[c := Of(p, 0)])
  {
    var mem' := WithEdges(mem, p, [Edges(mem, p)[i]]);
    forall q: nat, j: nat, d: nat
      ensures HoldsChild(mem', q, j, d) <==> if q == p then j == 0 && d == c else HoldsChild(mem, q, j, d)
    {
    }
  }

  /** Whatever changes in a node but its children's slots. */
  lemma StatisticsKeep(mem: Memory, owner: map<nat, Owner>, p: nat, node: Node)
    requires Forest(mem, owner) && IsLive(mem, p) && SameSlots(Edges(mem, p), node.edges)
    ensures Forest(mem[p := Live(node)], owner)
  {
    var mem' := mem[p := Live(node)];
    forall q: nat, j: nat, d: nat
      ensures HoldsChild(mem', q, j, d) <==> HoldsChild(mem, q, j, d)
    {
    }
  }

  predicate SameSlots(a: seq<Edge>, b: seq<Edge>) {
    |a| == |b| && forall i: nat | i < |a| :: a[i].child == b[i].child && a[i].move == b[i].move
  }

  ghost function ChildrenOf(mem: Memory, owner: map<nat, Owner>, p: nat): set<nat> {
    set c: nat | c in owner && owner[c].Of? && owner[c].parent == p
  }

  /** A node's children are on their own once it is gone. */
  ghost function Orphaned(owner: map<nat, Owner>, p: nat): map<nat, Owner> {
    map c: nat | c in owner && c != p :: if owner[c].Of? && owner[c].parent == p then Top else owner[c]
  }

  lemma FreeKeeps(mem: Memory, owner: map<nat, Owner>, p: nat)
    requires Forest(mem, owner) && p in owner && owner[p] == Top
    ensures Forest(mem[p := Freed], Orphaned(owner, p))
    ensures forall c: nat :: c in Orphaned(owner, p) && Orphaned(owner, p)[c] == Top <==> c != p && c in owner && (owner[c] == Top || c in ChildrenOf(mem, owner, p))
  {
    var mem' := mem[p := Freed];
    forall q: nat, j: nat, d: nat
      ensures HoldsChild(mem', q, j, d) <==> HoldsChild(mem, q, j, d) && q != p
    {
    }
    forall q: nat, j: nat, d: nat | HoldsChild(mem', q, j, d)
      ensures d != p
    {
      assert HoldsChild(mem, q, j, d);
    }
  }
}
