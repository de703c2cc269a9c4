/** The search tree kept from move to move: walking the head along the game, dropping what can
    no longer be reached, and counting bytes. */
module NodeTrees {
  import opened Shogi
  import opened NodeStore

  // ----- what is stored -----

  function SlotSet(s: Slot): set<nat> { if s.Ptr? then {s.id} else {} }

  ghost predicate NoRepeats(s: seq<nat>) { forall i: nat, j: nat | i < j < |s| :: s[i] != s[j] }

  ghost function Members(s: seq<nat>): set<nat> { set x: nat | x in s }

  /** The nodes without a parent are the tree's first node, those waiting for deletion, and the
      ones an operation holds at the moment; each is held once. */
  ghost predicate Held(owner: map<nat, Owner>, root: Slot, pending: seq<nat>, loose: set<nat>) {
    && TopsAre(owner, SlotSet(root) + Members(pending) + loose) && NoRepeats(pending)
    && SlotSet(root) !! Members(pending) && SlotSet(root) !! loose && Members(pending) !! loose
  }

  /** Unvisited edges for a list of moves. */
  function NewEdges(list: seq<Move>): (edges: seq<Edge>)
    ensures |edges| == |list|
  {
    seq(|list|, (i: nat) requires i < |list| => NewEdge(list[i]))
  }

  // ----- the path to the head -----

  /** The node has one child, reached by this move. */
  ghost predicate OneStep(mem: Memory, p: nat, m: Move, q: nat) {
    IsLive(mem, p) && |Edges(mem, p)| == 1 && Edges(mem, p)[0].move == m && Edges(mem, p)[0].child == Ptr(q)
  }

  ghost predicate Spine(mem: Memory, nodes: seq<nat>, path: seq<Move>) {
    |nodes| == |path| + 1 && IsLive(mem, nodes[|path|]) && forall k: nat | k < |path| :: OneStep(mem, nodes[k], path[k], nodes[k + 1])
  }

  lemma {:induction false} SpineAscends(mem: Memory, owner: map<nat, Owner>, nodes: seq<nat>, path: seq<Move>, k: nat)
    requires Forest(mem, owner) && Spine(mem, nodes, path) && k < |path|
    ensures nodes[k] < nodes[|path|]
    decreases |path| - k
  {
    assert OneStep(mem, nodes[k], path[k], nodes[k + 1]);
    assert HoldsChild(mem, nodes[k], 0, nodes[k + 1]);
    if k + 1 < |path| {
      SpineAscends(mem, owner, nodes, path, k + 1);
    }
  }

  // ----- nodes that are still whole -----

  /** Not expanded yet, or with every legal move. */
  ghost predicate Whole(node: Node, legal: seq<Move>) {
    || (node.edges == [] && !node.state.Expanded?)
    || (|node.edges| == |legal| && forall i: nat | i < |legal| :: node.edges[i].move == legal[i])
  }

  /** The named nodes are closed under children and whole; the head is one of them and its
      parent is not. `lines` gives the moves from the start to each. */
  ghost predicate Open(mem: Memory, owner: map<nat, Owner>, lines: map<nat, seq<Move>>, head: nat, path: seq<Move>, legal: seq<Move> -> seq<Move>) {
    && head in lines && lines[head] == path && (head in owner && owner[head].Of? ==> owner[head].parent !in lines)
    && (forall q: nat | q in lines :: IsLive(mem, q) && Whole(mem[q].node, legal(lines[q])))
    && (forall q: nat, i: nat, c: nat | q in lines && HoldsChild(mem, q, i, c) :: c in lines && lines[c] == lines[q] + [Edges(mem, q)[i].move])
  }

  // ----- releasing all children but one -----

  /** The first edge with this move, or the length of the list. */
  function FirstEdge(edges: seq<Edge>, m: Move): (j: nat)
    ensures j <= |edges| && (j < |edges| ==> edges[j].move == m) && forall i: nat | i < j :: edges[i].move != m
  {
    if edges == [] || edges[0].move == m then 0
    else
      assert forall i: nat | 0 < i < |edges| :: edges[i] == edges[1..][i - 1];
      1 + FirstEdge(edges[1..], m)
  }

  /** The child behind a move, if there is one yet. */
  function ChildBehind(node: Node, m: Move): Slot {
    var j := FirstEdge(node.edges, m);
    if j < |node.edges| then node.edges[j].child else Null
  }

  /** What releasing leaves: the node has the one edge for this move with the statistics it had,
      leading to the child it had or else to a new node; all other nodes are as they were. */
  ghost predicate Released(was: Memory, now: Memory, p: nat, m: Move, c: nat) {
    && IsLive(was, p) && p < |was| <= |now| && OneStep(now, p, m, c) && IsLive(now, c)
    && (forall q: nat | q < |was| && q != p :: now[q] == was[q])
    && (if ChildBehind(was[p].node, m) == Null then c == |was| && now[c] == Live(FRESH) else ChildBehind(was[p].node, m) == Ptr(c) && c < |was|)
    && (var j := FirstEdge(Edges(was, p), m);
        Edges(now, p)[0].(child := Null) == if j < |Edges(was, p)| then Edges(was, p)[j].(child := Null) else NewEdge(m))
  }

  lemma ReleasedMeans(was: Memory, now: Memory, p: nat, m: Move, c: nat)
    requires Released(was, now, p, m, c)
    ensures IsLive(was, p) && |was| <= |now| && HoldsChild(now, p, 0, c) && IsLive(now, c) && forall q: nat | q < |was| && q != p :: now[q] == was[q]
    ensures c < |was| ==> exists j: nat :: HoldsChild(was, p, j, c) && Edges(was, p)[j].move == m
    ensures c >= |was| ==> now[c] == Live(FRESH)
  {
    if c < |was| {
      BehindHolds(was, p, m);
    }
  }

  /** The head's whole subtree moves on with the head. */
  lemma {:induction false} OpenMovesOn(was: Memory, owner: map<nat, Owner>, now: Memory, owner': map<nat, Owner>, lines: map<nat, seq<Move>>,
                    p: nat, path: seq<Move>, m: Move, c: nat, legal: seq<Move> -> seq<Move>)
    requires Forest(was, owner) && Forest(now, owner') && Open(was, owner, lines, p, path, legal) && Released(was, now, p, m, c)
    ensures Open(now, owner', (lines - {p})[c := path + [m]], c, path + [m], legal)
  {
    hide Released, Whole;
    ReleasedMeans(was, now, p, m, c);
    var lines' := (lines - {p})[c := path + [m]];
    assert owner'[c] == Of(p, 0) && c != p;
    forall q: nat | q in lines'
      ensures IsLive(now, q) && Whole(now[q].node, legal(lines'[q]))
    {
      if q == c {
        HeadIsWhole(was, owner, now, lines, p, path, m, c, legal);
      }
    }
    forall q: nat, i: nat, d: nat | q in lines' && HoldsChild(now, q, i, d)
      ensures d in lines' && lines'[d] == lines'[q] + [Edges(now, q)[i].move]
    {
      if q != c || c < |was| {
        assert HoldsChild(was, q, i, d);
        assert d != p && d != c;
      }
    }
  }

  lemma HeadIsWhole(was: Memory, owner: map<nat, Owner>, now: Memory, lines: map<nat, seq<Move>>, p: nat, path: seq<Move>, m: Move, c: nat,
                    legal: seq<Move> -> seq<Move>)
    requires Forest(was, owner) && Open(was, owner, lines, p, path, legal) && Released(was, now, p, m, c)
    ensures IsLive(now, c) && Whole(now[c].node, legal(path + [m]))
  {
    ReleasedMeans(was, now, p, m, c);
    hide Released, FirstEdge, ChildBehind;
    if c < |was| {
      var j: nat :| HoldsChild(was, p, j, c) && Edges(was, p)[j].move == m;
      assert c in lines && lines[c] == path + [m];
      assert c != p;
    }
  }

  lemma BehindHolds(mem: Memory, p: nat, m: Move)
    requires IsLive(mem, p) && ChildBehind(mem[p].node, m).Ptr?
    ensures HoldsChild(mem, p, FirstEdge(Edges(mem, p), m), ChildBehind(mem[p].node, m).id)
  {
  }

  lemma SpineMovesOn(was: Memory, owner: map<nat, Owner>, now: Memory, nodes: seq<nat>, path: seq<Move>, m: Move, c: nat)
    requires Forest(was, owner) && Spine(was, nodes, path) && Released(was, now, nodes[|path|], m, c)
    ensures Spine(now, nodes + [c], path + [m])
  {
    forall k: nat | k < |path|
      ensures OneStep(now, nodes[k], path[k], nodes[k + 1])
    {
      SpineAscends(was, owner, nodes, path, k);
    }
  }

  lemma FreshStep(was: Memory, mid: Memory, now: Memory, p: nat, m: Move, c: nat)
    requires IsLive(mid, p) && |mid| == |was| && forall q: nat | q < |mid| && q != p :: mid[q] == was[q]
    requires IsLive(was, p) && FirstEdge(Edges(was, p), m) == |Edges(was, p)|
    requires Edges(mid, p) == [NewEdge(m)] && c == |mid| && now == WithChild(mid + [Live(FRESH)], p, 0, Ptr(c))
    ensures Released(was, now, p, m, c)
  {
  }

  /** What getting or making the child of a slot does. */
  ghost predicate Created(was: Memory, now: Memory, p: nat, i: nat, c: nat) {
    && HoldsChild(now, p, i, c) && IsLive(was, p) && i < |Edges(was, p)| && p < |was|
    && if Edges(was, p)[i].child.Ptr? then now == was else c == |was| && now == WithChild(was + [Live(FRESH)], p, i, Ptr(c))
  }

  lemma CreatedAt(was: Memory, now: Memory, p: nat, i: nat, c: nat)
    requires IsLive(was, p) && i < |Edges(was, p)| && HoldsChild(now, p, i, c)
    requires if Edges(was, p)[i].child.Ptr? then now == was && c == Edges(was, p)[i].child.id
             else c == |was| && now == WithChild(was + [Live(FRESH)], p, i, Ptr(c))
    ensures Created(was, now, p, i, c) && IsLive(now, p) && |Edges(now, p)| == |Edges(was, p)| && i < |Edges(now, p)|
  {
  }

  lemma OnlyStep(was: Memory, now: Memory, p: nat, m: Move, c: nat)
    requires IsLive(was, p) && |Edges(was, p)| == 1 && Edges(was, p)[0].move == m && HoldsChild(now, p, 0, c)
    requires if Edges(was, p)[0].child.Ptr? then now == was && c == Edges(was, p)[0].child.id && IsLive(was, c)
             else c == |was| && now == WithChild(was + [Live(FRESH)], p, 0, Ptr(c))
    ensures Released(was, now, p, m, c)
  {
    assert FirstEdge(Edges(was, p), m) == 0;
  }

  lemma SlotKept(made: Memory, mid: Memory, p: nat, i: nat, c: nat)
    requires HoldsChild(made, p, i, c) && IsLive(mid, p) && |Edges(mid, p)| == |Edges(made, p)| && Edges(mid, p)[i] == Edges(made, p)[i]
    ensures HoldsChild(mid, p, i, c)
  {
  }

  lemma KeptStep(was: Memory, made: Memory, mid: Memory, now: Memory, p: nat, i: nat, m: Move, c: nat)
    requires Created(was, made, p, i, c) && IsLive(made, c) && c != p && Edges(was, p)[i].move == m
    requires IsLive(made, p) && IsLive(mid, p) && |mid| == |made| && |Edges(mid, p)| == |Edges(made, p)| && Edges(mid, p)[i] == Edges(made, p)[i]
    requires forall q: nat | q < |mid| && q != p :: mid[q] == made[q]
    requires now == WithEdges(mid, p, [Edges(mid, p)[i]]) && i == FirstEdge(Edges(was, p), m) && c < |now|
    ensures Released(was, now, p, m, c)
  {
  }

  // ----- following the old tree -----

  /** The node reached from p along existing children. */
  function Descend(mem: Memory, p: nat, line: seq<Move>): Slot {
    if line == [] then Ptr(p)
    else
      var last := |line| - 1;
      match Descend(mem, p, line[..last])
      case Null => Null
      case Ptr(q) => if IsLive(mem, q) then ChildBehind(mem[q].node, line[last]) else Null
  }

  /** The walk stands on the old node for its line, or on a new one if there was none. */
  ghost predicate Tracked(was: Memory, mem: Memory, head: nat, line: seq<Move>, current: nat) {
    match Descend(was, head, line)
    case Ptr(q) => q == current && current < |was|
    case Null => |was| <= current < |mem| && mem[current] == Live(FRESH)
  }

  /** Past the end of the old game: the subtree is whole and as it was, and the walk is where
      the old tree leads. */
  ghost predicate Follows(was: Memory, mem: Memory, owner: map<nat, Owner>, head: nat, moves: seq<Move>, game: seq<Move>, current: nat,
                          names: map<nat, seq<Move>>, legal: seq<Move> -> seq<Move>)
  {
    && |moves| <= |game| && |was| <= |mem| && Open(mem, owner, names, current, game, legal)
    && (forall q: nat | q in names && q < |was| :: q < |mem| && mem[q] == was[q])
    && Tracked(was, mem, head, game[|moves|..], current)
  }

  lemma StartFollows(mem: Memory, owner: map<nat, Owner>, head: nat, moves: seq<Move>, game: seq<Move>, names: map<nat, seq<Move>>, legal: seq<Move> -> seq<Move>)
    requires Open(mem, owner, names, head, moves, legal) && game == moves
    ensures Follows(mem, mem, owner, head, moves, game, head, names, legal)
  {
    HeadNamed(mem, owner, names, head, moves, legal);
    hide Open;
    assert game[|moves|..] == [];
  }

  lemma HeadNamed(mem: Memory, owner: map<nat, Owner>, names: map<nat, seq<Move>>, head: nat, path: seq<Move>, legal: seq<Move> -> seq<Move>)
    requires Open(mem, owner, names, head, path, legal)
    ensures head in names && head < |mem|
  {
  }

  lemma TrackStep(was: Memory, wasOwner: map<nat, Owner>, at: Memory, now: Memory, head: nat, line: seq<Move>, m: Move, current: nat, c: nat)
    requires Forest(was, wasOwner) && |was| <= |at| && Tracked(was, at, head, line, current)
    requires current < |was| ==> current < |at| && at[current] == was[current]
    requires Released(at, now, current, m, c)
    ensures Tracked(was, now, head, line + [m], c)
  {
    assert (line + [m])[..|line|] == line;
    if current < |was| {
      if ChildBehind(was[current].node, m).Ptr? {
        BehindHolds(was, current, m);
      }
    }
  }

  lemma StillThere(was: Memory, at: Memory, atOwner: map<nat, Owner>, now: Memory, names: map<nat, seq<Move>>, current: nat, path: seq<Move>, m: Move, c: nat,
                   legal: seq<Move> -> seq<Move>)
    requires Forest(at, atOwner) && Open(at, atOwner, names, current, path, legal) && Released(at, now, current, m, c) && |was| <= |at|
    requires forall q: nat | q in names && q < |was| :: q < |at| && at[q] == was[q]
    ensures |was| <= |now| && forall q: nat | q in (names - {current})[c := path + [m]] && q < |was| :: q < |now| && now[q] == was[q]
  {
    ReleasedMeans(at, now, current, m, c);
    hide Released, Whole;
    if c < |at| {
      var j: nat :| HoldsChild(at, current, j, c);
      assert c in names && c != current;
    }
  }

  // ----- open nodes and the head's ancestors -----

  lemma {:induction false} OpenStaysBelow(mem: Memory, owner: map<nat, Owner>, lines: map<nat, seq<Move>>, head: nat, path: seq<Move>, legal: seq<Move> -> seq<Move>,
                                         nodes: seq<nat>, k: nat)
    requires Forest(mem, owner) && Open(mem, owner, lines, head, path, legal) && Spine(mem, nodes, path) && nodes[|path|] == head && k < |path|
    ensures nodes[k] !in lines
    decreases |path| - k
  {
    assert OneStep(mem, nodes[k], path[k], nodes[k + 1]);
    assert HoldsChild(mem, nodes[k], 0, nodes[k + 1]);
    if k + 1 < |path| {
      OpenStaysBelow(mem, owner, lines, head, path, legal, nodes, k + 1);
    }
  }

  lemma OpenNodeChanges(was: Memory, now: Memory, owner: map<nat, Owner>, lines: map<nat, seq<Move>>, head: nat, path: seq<Move>, legal: seq<Move> -> seq<Move>,
                        p: nat, node: Node)
    requires Forest(was, owner) && Open(was, owner, lines, head, path, legal) && p in lines && IsLive(was, p) && now == was[p := Live(node)]
    requires Whole(node, legal(lines[p])) && (SameSlots(Edges(was, p), node.edges) || NoChildren(node.edges))
    ensures Open(now, owner, lines, head, path, legal)
  {
    hide Whole;
    forall q: nat, i: nat, c: nat | q in lines && HoldsChild(now, q, i, c)
      ensures c in lines && lines[c] == lines[q] + [Edges(now, q)[i].move]
    {
      assert HoldsChild(was, q, i, c);
    }
  }

  lemma SpineUnchanged(was: Memory, now: Memory, nodes: seq<nat>, path: seq<Move>, p: nat, node: Node)
    requires Spine(was, nodes, path) && IsLive(was, p) && now == was[p := Live(node)] && forall k: nat | k < |path| :: nodes[k] != p
    ensures Spine(now, nodes, path)
  {
    forall k: nat | k < |path|
      ensures OneStep(now, nodes[k], path[k], nodes[k + 1])
    {
      assert OneStep(was, nodes[k], path[k], nodes[k + 1]);
    }
  }

  lemma OpenHasChild(mem: Memory, owner: map<nat, Owner>, lines: map<nat, seq<Move>>, head: nat, path: seq<Move>, legal: seq<Move> -> seq<Move>, p: nat, i: nat, c: nat)
    requires Open(mem, owner, lines, head, path, legal) && p in lines && HoldsChild(mem, p, i, c)
    ensures c in lines
  {
    hide Whole;
  }

  lemma OpenNewChild(was: Memory, wasOwner: map<nat, Owner>, now: Memory, owner: map<nat, Owner>, lines: map<nat, seq<Move>>, head: nat, path: seq<Move>,
                     legal: seq<Move> -> seq<Move>, p: nat, i: nat, c: nat)
    requires Forest(was, wasOwner) && Forest(now, owner) && Open(was, wasOwner, lines, head, path, legal)
    requires p in lines && IsLive(was, p) && i < |Edges(was, p)| && c == |was| && now == WithChild(was + [Live(FRESH)], p, i, Ptr(c))
    requires HoldsChild(now, p, i, c) && head < |was|
    ensures Open(now, owner, lines[c := lines[p] + [Edges(was, p)[i].move]], head, path, legal)
  {
    var lines' := lines[c := lines[p] + [Edges(was, p)[i].move]];
    forall q: nat, j: nat, d: nat | HoldsChild(now, q, j, d)
      ensures HoldsChild(was, q, j, d) || (q == p && j == i && d == c)
    {
    }
    forall q: nat | q in lines
      ensures Whole(now[q].node, legal(lines[q]))
    {
      assert Whole(was[q].node, legal(lines[q]));
    }
    if owner[head].Of? {
      assert HoldsChild(now, owner[head].parent, owner[head].index, head);
      assert HoldsChild(was, owner[head].parent, owner[head].index, head);
    }
  }

  lemma SpineGainsNode(was: Memory, now: Memory, nodes: seq<nat>, path: seq<Move>, p: nat, i: nat, c: nat)
    requires Spine(was, nodes, path) && IsLive(was, p) && i < |Edges(was, p)| && now == WithChild(was + [Live(FRESH)], p, i, Ptr(c))
    requires forall k: nat | k < |path| :: nodes[k] != p
    ensures Spine(now, nodes, path)
  {
    forall k: nat | k < |path|
      ensures OneStep(now, nodes[k], path[k], nodes[k + 1])
    {
      assert OneStep(was, nodes[k], path[k], nodes[k + 1]);
    }
  }

  // ----- deletion -----

  /** Some nodes are freed; the others are as they were. */
  ghost predicate Shrunk(was: Memory, now: Memory) {
    |now| == |was| && forall q: nat | q < |was| :: now[q] == was[q] || now[q] == Freed
  }

  ghost function LiveSet(mem: Memory): set<nat> { set q: nat | q < |mem| && mem[q].Live? }

  lemma ShrinksOn(a: Memory, b: Memory, c: Memory)
    requires Shrunk(a, b) && Shrunk(b, c)
    ensures Shrunk(a, c)
  {
  }

  lemma FewerAlive(was: Memory, p: nat, now: Memory)
    requires IsLive(was, p) && Shrunk(was[p := Freed], now)
    ensures LiveSet(now) < LiveSet(was)
  {
    assert p in LiveSet(was) && p !in LiveSet(now);
  }

  lemma ShrunkAll(was: Memory, p: nat, now: Memory)
    requires IsLive(was, p) && Shrunk(was[p := Freed], now)
    ensures Shrunk(was, now) && !IsLive(now, p)
  {
  }

  /** The children of the edges from index i on. */
  ghost function ChildrenFrom(edges: seq<Edge>, i: nat): set<nat> {
    set j: nat | i <= j < |edges| && edges[j].child.Ptr? :: edges[j].child.id
  }

  lemma ChildrenAre(mem: Memory, owner: map<nat, Owner>, p: nat)
    requires Forest(mem, owner) && IsLive(mem, p)
    ensures ChildrenFrom(Edges(mem, p), 0) == ChildrenOf(mem, owner, p)
  {
    forall c: nat | c in ChildrenOf(mem, owner, p)
      ensures c in ChildrenFrom(Edges(mem, p), 0)
    {
      assert HoldsChild(mem, p, owner[c].index, c);
    }
    forall c: nat | c in ChildrenFrom(Edges(mem, p), 0)
      ensures c in ChildrenOf(mem, owner, p)
    {
      var j: nat :| j < |Edges(mem, p)| && Edges(mem, p)[j].child == Ptr(c);
      assert HoldsChild(mem, p, j, c);
    }
  }

  lemma NextChild(mem: Memory, owner: map<nat, Owner>, p: nat, edges: seq<Edge>, i: nat)
    requires Forest(mem, owner) && IsLive(mem, p) && edges == Edges(mem, p) && i < |edges|
    ensures if edges[i].child.Ptr? then edges[i].child.id in ChildrenFrom(edges, i) && ChildrenFrom(edges, i + 1) == ChildrenFrom(edges, i) - {edges[i].child.id}
            else ChildrenFrom(edges, i + 1) == ChildrenFrom(edges, i)
  {
    if edges[i].child.Ptr? {
      assert HoldsChild(mem, p, i, edges[i].child.id);
      forall j: nat | i < j < |edges| && edges[j].child.Ptr?
        ensures edges[j].child.id != edges[i].child.id
      {
        assert HoldsChild(mem, p, j, edges[j].child.id);
      }
    }
  }

  lemma NoChildFrom(edges: seq<Edge>, i: nat)
    requires i == |edges|
    ensures ChildrenFrom(edges, i) == {}
  {
  }

  lemma TopsOrphaned(mem: Memory, owner: map<nat, Owner>, root: Slot, pending: seq<nat>, loose: set<nat>, p: nat)
    requires Forest(mem, owner) && Held(owner, root, pending, loose) && p in loose && p in owner && owner[p] == Top
    requires forall c: nat :: c in Orphaned(owner, p) && Orphaned(owner, p)[c] == Top <==> c != p && c in owner && (owner[c] == Top || c in ChildrenOf(mem, owner, p))
    ensures Held(Orphaned(owner, p), root, pending, (loose - {p}) + ChildrenOf(mem, owner, p))
    ensures (loose - {p}) !! ChildrenOf(mem, owner, p)
  {
    hide Forest, Orphaned;
    forall c: nat | c in ChildrenOf(mem, owner, p)
      ensures c !in SlotSet(root) + Members(pending) + loose
    {
    }
  }

  /** When one top goes, exactly the nodes below it go. */
  lemma {:induction false} ExactlyBelow(was: Memory, wasOwner: map<nat, Owner>, now: Memory, owner: map<nat, Owner>, tops: set<nat>, p: nat, q: nat)
    requires Forest(was, wasOwner) && Forest(now, owner) && Shrunk(was, now) && p in tops
    requires TopsAre(wasOwner, tops) && TopsAre(owner, tops - {p}) && IsLive(was, q)
    ensures IsLive(now, q) <==> TopOf(was, wasOwner, q) != p
    decreases q
  {
    if q in owner && owner[q].Of? {
      assert HoldsChild(now, owner[q].parent, owner[q].index, q);
      assert HoldsChild(was, owner[q].parent, owner[q].index, q);
    }
    if wasOwner[q].Of? {
      var parent := wasOwner[q].parent;
      assert HoldsChild(was, parent, wasOwner[q].index, q);
      ExactlyBelow(was, wasOwner, now, owner, tops, p, parent);
      if IsLive(now, parent) {
        assert HoldsChild(now, parent, wasOwner[q].index, q);
      }
    }
  }

  lemma LiveIsOwned(mem: Memory, owner: map<nat, Owner>)
    requires Forest(mem, owner)
    ensures forall q: nat :: q in owner <==> IsLive(mem, q)
  {
  }

  lemma QueueLoses(wasOwner: map<nat, Owner>, owner: map<nat, Owner>, root: Slot, pending: seq<nat>)
    requires pending != [] && Held(wasOwner, root, pending, {}) && Held(owner, root, pending[1..], {})
    ensures TopsAre(wasOwner, SlotSet(root) + Members(pending)) && TopsAre(owner, SlotSet(root) + Members(pending) - {pending[0]})
    ensures pending[0] in SlotSet(root) + Members(pending)
  {
    assert pending == [pending[0]] + pending[1..];
    assert Members(pending) == {pending[0]} + Members(pending[1..]);
    assert SlotSet(root) + Members(pending) - {pending[0]} == SlotSet(root) + Members(pending[1..]) + {};
    assert SlotSet(root) + Members(pending) == SlotSet(root) + Members(pending) + {};
  }

  /** A deletion elsewhere leaves the path to the head. */
  lemma SpineSurvives(was: Memory, wasOwner: map<nat, Owner>, now: Memory, owner: map<nat, Owner>, root: Slot, pending: seq<nat>, nodes: seq<nat>, path: seq<Move>)
    requires Forest(now, owner) && Held(owner, root, pending, {}) && root.Ptr? && Shrunk(was, now) && Spine(was, nodes, path) && nodes[0] == root.id
    ensures Spine(now, nodes, path)
  {
    assert root.id in SlotSet(root) + Members(pending) + {};
    assert root.id in owner;
    forall k: nat | k <= |path|
      ensures IsLive(now, nodes[k]) && (k < |path| ==> OneStep(now, nodes[k], path[k], nodes[k + 1]))
    {
      SurvivesTo(was, now, owner, nodes, path, k);
    }
  }

  lemma {:induction false} SurvivesTo(was: Memory, now: Memory, owner: map<nat, Owner>, nodes: seq<nat>, path: seq<Move>, k: nat)
    requires Forest(now, owner) && Shrunk(was, now) && Spine(was, nodes, path) && IsLive(now, nodes[0]) && k <= |path|
    ensures IsLive(now, nodes[k]) && (k < |path| ==> OneStep(now, nodes[k], path[k], nodes[k + 1]))
    decreases k
  {
    if k > 0 {
      SurvivesTo(was, now, owner, nodes, path, k - 1);
      assert HoldsChild(now, nodes[k - 1], 0, nodes[k]);
    }
    if k < |path| {
      assert OneStep(was, nodes[k], path[k], nodes[k + 1]);
    }
  }

  lemma OpenSurvives(was: Memory, wasOwner: map<nat, Owner>, now: Memory, owner: map<nat, Owner>, lines: map<nat, seq<Move>>, head: nat, path: seq<Move>,
                     legal: seq<Move> -> seq<Move>, nodes: seq<nat>)
    requires Forest(was, wasOwner) && Forest(now, owner) && Shrunk(was, now) && Open(was, wasOwner, lines, head, path, legal)
    requires Spine(now, nodes, path) && |nodes| == |path| + 1 && nodes[|path|] == head
    ensures Open(now, owner, map q: nat | q in lines && IsLive(now, q) :: lines[q], head, path, legal) && IsLive(now, head)
  {
    hide Whole;
    if owner[head].Of? {
      assert HoldsChild(now, owner[head].parent, owner[head].index, head);
      assert HoldsChild(was, owner[head].parent, owner[head].index, head);
    }
    forall q: nat, i: nat, c: nat | HoldsChild(now, q, i, c)
      ensures HoldsChild(was, q, i, c)
    {
    }
  }

  class NodeTree {
    const nodeBytes: nat
    const childBytes: nat
    /** The legal moves after a line from a starting position. */
    ghost const legal: (nat, seq<Move>) -> seq<Move>
    var mem: Memory
    var bytes: int
    var pending: seq<nat>
    var root: Slot
    var head: nat
    var startKey: nat
    var moves: seq<Move>
    var hasPosition: bool
    ghost var owner: map<nat, Owner>
    ghost var lines: map<nat, seq<Move>>
    ghost var spine: seq<nat>

    /** Memory is a forest with every top accounted for, and the counter is the sum of what is
        allocated. */
    ghost predicate Stored(loose: set<nat>)
      reads this`mem, this`owner, this`root, this`pending, this`bytes
    {
      Forest(mem, owner) && Held(owner, root, pending, loose) && bytes == Total(mem, nodeBytes, childBytes)
    }

    ghost predicate Valid()
      reads this
    {
      && Stored({}) && root.Ptr? && Spine(mem, spine, moves) && spine[0] == root.id && spine[|moves|] == head
      && Open(mem, owner, lines, head, moves, LegalAfter(startKey))
    }

    ghost function LegalAfter(key: nat): seq<Move> -> seq<Move> {
      line => legal(key, line)
    }

    // ----- single pointers -----

    method NewNode(ghost loose: set<nat>) returns (p: nat)
      requires Stored(loose)
      modifies this`mem, this`bytes, this`owner
      ensures p == |old(mem)| && mem == old(mem) + [Live(FRESH)] && owner == old(owner)[p := Top] && Stored(loose + {p})
    {
      p := |mem|;
      AllocKeeps(mem, owner);
      TotalPush(mem, Live(FRESH), nodeBytes, childBytes);
      NewTop(owner, root, pending, loose, p);
      hide Forest, Held, Total;
      mem := mem + [Live(FRESH)];
      bytes := bytes + nodeBytes;
      owner := owner[p := Top];
    }

    /** The child of a slot, made on first use. */
    method GetOrCreate(p: nat, i: nat) returns (c: nat)
      requires Stored({}) && IsLive(mem, p) && i < |Edges(mem, p)|
      modifies this`mem, this`bytes, this`owner
      ensures Stored({}) && HoldsChild(mem, p, i, c)
      ensures if old(Edges(mem, p)[i].child).Ptr? then mem == old(mem) && owner == old(owner) && c == old(Edges(mem, p)[i].child).id
              else c == |old(mem)| && mem == WithChild(old(mem) + [Live(FRESH)], p, i, Ptr(c))
    {
      var slot := mem[p].node.edges[i].child;
      if slot.Ptr? {
        return slot.id;
      }
      ghost var was := mem;
      c := NewNode({});
      AttachKeeps(mem, owner, p, i, c);
      WithChildKeepsTotal(mem, p, i, Ptr(c));
      TopAttached(owner, root, pending, {}, c, Of(p, i));
      assert WithChild(mem, p, i, Ptr(c))[p].node.edges[i].child == Ptr(c);
      hide Forest, Held, Total;
      mem := WithChild(mem, p, i, Ptr(c));
      owner := owner[c := Of(p, i)];
    }

    lemma WithChildKeepsTotal(mem: Memory, p: nat, i: nat, slot: Slot)
      requires IsLive(mem, p) && i < |Edges(mem, p)|
      ensures Total(WithChild(mem, p, i, slot), nodeBytes, childBytes) == Total(mem, nodeBytes, childBytes)
    {
      TotalUpdate(mem, p, WithChild(mem, p, i, slot)[p], nodeBytes, childBytes);
    }

    /** Takes the child out of a slot and queues it for deletion. */
    method DiscardChild(p: nat, i: nat)
      requires Stored({}) && IsLive(mem, p) && i < |Edges(mem, p)|
      modifies this`mem, this`owner, this`pending
      ensures Stored({}) && mem == WithChild(old(mem), p, i, Null)
    {
      var slot := mem[p].node.edges[i].child;
      if slot.Ptr? {
        assert HoldsChild(mem, p, i, slot.id);
        DetachKeeps(mem, owner, p, i, slot.id);
        TopQueued(owner, root, pending, slot.id);
        owner := owner[slot.id := Top];
        pending := pending + [slot.id];
      } else {
        RelistSame(mem, p, i);
      }
      WithChildKeepsTotal(mem, p, i, Null);
      hide Forest, Held, Total;
      mem := WithChild(mem, p, i, Null);
    }

    lemma RelistSame(mem: Memory, p: nat, i: nat)
      requires IsLive(mem, p) && i < |Edges(mem, p)| && Edges(mem, p)[i].child == Null
      ensures WithChild(mem, p, i, Null) == mem
    {
      assert Edges(mem, p)[i := Edges(mem, p)[i].(child := Null)] == Edges(mem, p);
    }

    // ----- child lists -----

    /** A list with one unvisited edge; the counter follows the change in length. */
    method CreateSingleChildNode(p: nat, m: Move)
      requires Stored({}) && IsLive(mem, p) && NoChildren(Edges(mem, p))
      modifies this`mem, this`bytes
      ensures Stored({}) && mem == WithEdges(old(mem), p, [NewEdge(m)])
    {
      var n := |mem[p].node.edges|;
      RelistKeeps(mem, owner, p, [NewEdge(m)]);
      TotalUpdate(mem, p, WithEdges(mem, p, [NewEdge(m)])[p], nodeBytes, childBytes);
      OneFewer(n);
      hide Forest, Held, Total;
      if n > 1 {
        bytes := bytes - (n - 1) * childBytes;
      } else if n == 0 {
        bytes := bytes + childBytes;
      }
      mem := WithEdges(mem, p, [NewEdge(m)]);
    }

    lemma OneFewer(n: nat)
      ensures n > 0 ==> n * childBytes == (n - 1) * childBytes + childBytes
    {
    }

    /** Queues all children but one for deletion. */
    method DiscardSiblings(p: nat, keep: int)
      requires Stored({}) && IsLive(mem, p)
      modifies this`mem, this`owner, this`pending
      ensures Stored({}) && |mem| == |old(mem)| && (forall q: nat | q < |mem| && q != p :: mem[q] == old(mem)[q]) && IsLive(mem, p)
      ensures var edges := old(Edges(mem, p));
              && |Edges(mem, p)| == |edges|
              && (forall j: nat | j < |edges| && j != keep :: Edges(mem, p)[j].child == Null)
              && (0 <= keep < |edges| ==> Edges(mem, p)[keep] == edges[keep])
    {
      ghost var was := mem;
      var n := |mem[p].node.edges|;
      var sibling := 0;
      while sibling < n
        invariant 0 <= sibling <= n && Stored({}) && |mem| == |was| && IsLive(mem, p) && |Edges(mem, p)| == n
        invariant forall q: nat | q < |mem| && q != p :: mem[q] == was[q]
        invariant forall j: nat | j < sibling && j != keep :: Edges(mem, p)[j].child == Null
        invariant 0 <= keep < n ==> Edges(mem, p)[keep] == Edges(was, p)[keep]
      {
        hide Forest, Held, Total, Stored;
        if sibling != keep {
          DiscardChild(p, sibling);
        }
        sibling := sibling + 1;
      }
    }

    /** Leaves the node with the child for this move alone, made if need be. */
    method ReleaseChildrenExceptOne(p: nat, m: Move) returns (c: nat)
      requires Stored({}) && IsLive(mem, p)
      modifies this`mem, this`bytes, this`owner, this`pending
      ensures Stored({}) && Released(old(mem), mem, p, m, c)
      ensures forall d: nat | OneStep(old(mem), p, m, d) :: mem == old(mem) && owner == old(owner) && c == d
    {
      hide Stored, Released, HoldsChild, WithChild;
      var n := |mem[p].node.edges|;
      if n == 0 {
        c := StartOver(p, m, mem);
        return;
      }
      if n == 1 && mem[p].node.edges[0].move == m {
        ghost var was := mem;
        c := GetOrCreate(p, 0);
        ChildIsLive(p, 0, c);
        OnlyStep(was, mem, p, m, c);
        return;
      }
      var i := 0;
      while i < n
        invariant 0 <= i <= n
        invariant forall j: nat | j < i :: Edges(mem, p)[j].move != m
      {
        if mem[p].node.edges[i].move == m {
          c := KeepOne(p, i, m);
          return;
        }
        i := i + 1;
      }
      ghost var was := mem;
      DiscardSiblings(p, -1);
      c := StartOver(p, m, was);
    }

    /** A single new edge with a new node. */
    method StartOver(p: nat, m: Move, ghost was: Memory) returns (c: nat)
      requires Stored({}) && IsLive(mem, p) && NoChildren(Edges(mem, p))
      requires IsLive(was, p) && FirstEdge(Edges(was, p), m) == |Edges(was, p)|
      requires |mem| == |was| && forall q: nat | q < |mem| && q != p :: mem[q] == was[q]
      modifies this`mem, this`bytes, this`owner
      ensures Stored({}) && Released(was, mem, p, m, c)
    {
      hide Stored, HoldsChild;
      CreateSingleChildNode(p, m);
      ghost var mid := mem;
      c := GetOrCreate(p, 0);
      FreshStep(was, mid, mem, p, m, c);
    }

    /** Makes sure the edge has its child, then drops all other edges with what they own. */
    method KeepOne(p: nat, i: nat, m: Move) returns (c: nat)
      requires Stored({}) && IsLive(mem, p) && i < |Edges(mem, p)| && i == FirstEdge(Edges(mem, p), m)
      modifies this`mem, this`bytes, this`owner, this`pending
      ensures Stored({}) && Released(old(mem), mem, p, m, c)
    {
      hide Stored, HoldsChild, WithChild, Released;
      ghost var was := mem;
      c := GetOrCreate(p, i);
      ChildIsLive(p, i, c);
      CreatedAt(was, mem, p, i, c);
      ghost var made := mem;
      DiscardSiblings(p, i);
      ghost var mid := mem;
      SlotKept(made, mid, p, i, c);
      DropEdges(p, i, c);
      KeptStep(was, made, mid, mem, p, i, m, c);
    }

    /** Shortens the list to the one edge whose child is left. */
    method DropEdges(p: nat, i: nat, ghost c: nat)
      requires Stored({}) && HoldsChild(mem, p, i, c) && forall j: nat | j < |Edges(mem, p)| && j != i :: Edges(mem, p)[j].child == Null
      modifies this`mem, this`bytes, this`owner
      ensures Stored({}) && IsLive(old(mem), p) && i < |Edges(old(mem), p)| && mem == WithEdges(old(mem), p, [Edges(old(mem), p)[i]])
    {
      hide Forest, Held, Total;
      var kept := mem[p].node.edges[i];
      var n := |mem[p].node.edges|;
      KeepOneKeeps(mem, owner, p, i, c);
      TotalUpdate(mem, p, WithEdges(mem, p, [kept])[p], nodeBytes, childBytes);
      OneFewer(n);
      ChildOwned(mem, owner, p, i, c);
      TopKept(owner, root, pending, c, Of(p, 0));
      mem := WithEdges(mem, p, [kept]);
      owner := owner[c := Of(p, 0)];
      bytes := bytes - (n - 1) * childBytes;
    }

    lemma ChildIsLive(p: nat, i: nat, c: nat)
      requires Stored({}) && HoldsChild(mem, p, i, c)
      ensures IsLive(mem, c) && p < c
    {
      hide Held, Total;
    }

    lemma ChildOwned(mem: Memory, owner: map<nat, Owner>, p: nat, i: nat, c: nat)
      requires Forest(mem, owner) && HoldsChild(mem, p, i, c)
      ensures c in owner && owner[c].Of? && p < c && IsLive(mem, c)
    {
    }

    // ----- the whole tree -----

    constructor (nodeBytes: nat, childBytes: nat, ghost legal: (nat, seq<Move>) -> seq<Move>)
      ensures Valid() && !hasPosition && moves == [] && mem == [Live(FRESH)] && pending == []
      ensures this.nodeBytes == nodeBytes && this.childBytes == childBytes && this.legal == legal
    {
      this.nodeBytes, this.childBytes, this.legal := nodeBytes, childBytes, legal;
      mem, bytes, pending, root, head, startKey, moves, hasPosition := [], 0, [], Null, 0, 0, [], false;
      owner, lines, spine := map[], map[], [];
      new;
      assert Members([]) == {};
      StartTree();
    }

    /** A new first node, which is the head of an empty game. */
    method StartTree()
      requires Stored({}) && root == Null
      modifies this
      ensures Valid() && !hasPosition && moves == [] && startKey == 0 && mem == old(mem) + [Live(FRESH)] && head == |old(mem)| && pending == old(pending)
      ensures lines == map[head := []]
    {
      hide *;
      var p := NewNode({});
      NodeIsThere(mem, p);
      RootHeldHere(p);
      root := Ptr(p);
      head, startKey, moves, hasPosition := p, 0, [], false;
      lines, spine := map[p := []], [p];
      StartsValid();
    }

    lemma NodeIsThere(mem: Memory, p: nat)
      requires p < |mem| && mem[p] == Live(FRESH)
      ensures IsLive(mem, p)
    {
    }

    lemma RootHeldHere(p: nat)
      requires Stored({} + {p}) && root == Null
      ensures Forest(mem, owner) && Held(owner, Ptr(p), pending, {}) && bytes == Total(mem, nodeBytes, childBytes)
    {
      assert {} + {p} == {p};
      RootHeld(owner, pending, p);
      hide Forest, Held, Total;
    }

    lemma StartsValid()
      requires Forest(mem, owner) && Held(owner, root, pending, {}) && bytes == Total(mem, nodeBytes, childBytes)
      requires root == Ptr(head) && spine == [head] && moves == [] && lines == map[head := []] && head < |mem| && mem[head] == Live(FRESH)
      ensures Valid()
    {
      FreshOpen(mem, owner, head, [], LegalAfter(startKey));
      hide Forest, Held, Total, Open;
    }

    /** Gives up the whole tree. */
    method DeallocateTree()
      requires Stored({})
      modifies this
      ensures Valid() && !hasPosition && moves == [] && startKey == 0 && mem == old(mem) + [Live(FRESH)] && head == |old(mem)|
      ensures lines == map[head := []]
    {
      hide Forest, Total;
      if root.Ptr? {
        RootQueued(owner, root, pending);
        pending := pending + [root.id];
        root := Null;
      }
      StartTree();
    }

    // ----- following the game -----

    /** The walk so far: the nodes passed lead from the first node along the moves. */
    ghost predicate Walked(nodes: seq<nat>, path: seq<Move>, current: nat)
      reads this
    {
      Stored({}) && root.Ptr? && Spine(mem, nodes, path) && nodes[0] == root.id && nodes[|path|] == current
    }

    /** One step down the game; the subtree goes along if it was whole. */
    method WalkStep(current: nat, m: Move, ghost nodes: seq<nat>, ghost path: seq<Move>) returns (c: nat)
      requires Walked(nodes, path, current)
      modifies this`mem, this`bytes, this`owner, this`pending
      ensures Walked(nodes + [c], path + [m], c) && Released(old(mem), mem, current, m, c)
      ensures forall d: nat | OneStep(old(mem), current, m, d) :: mem == old(mem) && owner == old(owner) && c == d
      ensures forall lines: map<nat, seq<Move>>, legal: seq<Move> -> seq<Move> | Open(old(mem), old(owner), lines, current, path, legal) ::
                Open(mem, owner, (lines - {current})[c := path + [m]], c, path + [m], legal)
    {
      hide *;
      ghost var was, wasOwner := mem, owner;
      WalkedMeans(nodes, path, current);
      c := ReleaseChildrenExceptOne(current, m);
      WalkedOn(was, wasOwner, nodes, path, current, m, c);
      forall lines: map<nat, seq<Move>>, legal: seq<Move> -> seq<Move> | Open(was, wasOwner, lines, current, path, legal)
        ensures Open(mem, owner, (lines - {current})[c := path + [m]], c, path + [m], legal)
      {
        OpenMovesOn(was, wasOwner, mem, owner, lines, current, path, m, c, legal);
      }
    }

    lemma WalkedMeans(nodes: seq<nat>, path: seq<Move>, current: nat)
      requires Walked(nodes, path, current)
      ensures Stored({}) && Forest(mem, owner) && current < |mem| && IsLive(mem, current) && root.Ptr?
      ensures Spine(mem, nodes, path) && |nodes| == |path| + 1 && nodes[0] == root.id && nodes[|path|] == current
    {
      hide Forest, Held, Total;
    }

    lemma WalkedOn(was: Memory, wasOwner: map<nat, Owner>, nodes: seq<nat>, path: seq<Move>, current: nat, m: Move, c: nat)
      requires Forest(was, wasOwner) && Spine(was, nodes, path) && |nodes| == |path| + 1 && nodes[|path|] == current
      requires Stored({}) && root.Ptr? && nodes[0] == root.id && Released(was, mem, current, m, c)
      ensures Walked(nodes + [c], path + [m], c) && Forest(mem, owner)
    {
      SpineMovesOn(was, wasOwner, mem, nodes, path, m, c);
      hide Forest, Held, Total, Released, Spine;
    }

    /** Walks from the first node along the game. While the game repeats the old one nothing
        changes; past its end the whole subtree moves along. */
    method WalkGame(game: seq<Move>) returns (current: nat, prev: Slot, ghost nodes: seq<nat>, ghost names: map<nat, seq<Move>>)
      requires Valid()
      modifies this`mem, this`bytes, this`owner, this`pending
      ensures Walked(nodes, game, current) && (if game == [] then prev == Null else prev == Ptr(nodes[|game| - 1]))
      ensures moves <= game ==> Follows(old(mem), mem, owner, head, moves, game, current, names, LegalAfter(startKey))
    {
      hide *;
      ghost var was, wasOwner := mem, owner;
      ValidMeans();
      nodes, names := [root.id], lines;
      current, prev := root.id, Null;
      var i := 0;
      StandsAtStart(was, wasOwner, game);
      while i < |game|
        invariant 0 <= i <= |game| && Walked(nodes, game[..i], current) && |nodes| == i + 1 && nodes[i] == current
        invariant if i == 0 then prev == Null else prev == Ptr(nodes[i - 1])
        invariant moves <= game && i <= |moves| ==> Unmoved(was, wasOwner, names, i, current)
        invariant moves <= game && i >= |moves| ==> Follows(was, mem, owner, head, moves, game[..i], current, names, LegalAfter(startKey))
      {
        ghost var at, atOwner := mem, owner;
        prev := Ptr(current);
        if moves <= game && i < |moves| {
          UnmovedMeans(was, wasOwner, names, i, current);
        }
        WalkedMeans(nodes, game[..i], current);
        NextIs(game, i);
        var c := WalkStep(current, game[i], nodes, game[..i]);
        if moves <= game {
          if i < |moves| {
            RepeatsOld(was, wasOwner, names, game, i, current, c, at, atOwner);
          } else {
            MovesOn(was, wasOwner, at, atOwner, game, i, current, c, names);
            names := (names - {current})[c := game[..i] + [game[i]]];
          }
        }
        nodes := nodes + [c];
        current := c;
        i := i + 1;
      }
      assert game[..i] == game;
    }

    lemma NextIs(game: seq<Move>, i: nat)
      requires i < |game|
      ensures game[..i + 1] == game[..i] + [game[i]]
    {
    }

    lemma ValidMeans()
      requires Valid()
      ensures Forest(mem, owner) && Stored({}) && root.Ptr? && Walked([root.id], [], root.id)
      ensures |spine| == |moves| + 1 && spine[0] == root.id && spine[|moves|] == head && Spine(mem, spine, moves)
      ensures Open(mem, owner, lines, head, moves, LegalAfter(startKey))
    {
      assert IsLive(mem, root.id) by {
        if |moves| > 0 {
          assert OneStep(mem, spine[0], moves[0], spine[1]);
        }
      }
      hide Forest, Held, Total, Open;
    }

    /** Nothing has changed and the walk is still on the old game. */
    ghost predicate Unmoved(was: Memory, wasOwner: map<nat, Owner>, names: map<nat, seq<Move>>, i: nat, current: nat)
      reads this
    {
      mem == was && owner == wasOwner && names == lines && i < |spine| && current == spine[i]
    }

    lemma UnmovedMeans(was: Memory, wasOwner: map<nat, Owner>, names: map<nat, seq<Move>>, i: nat, current: nat)
      requires Unmoved(was, wasOwner, names, i, current)
      ensures mem == was && owner == wasOwner && names == lines && i < |spine| && current == spine[i]
    {
    }

    lemma StandsAtStart(was: Memory, wasOwner: map<nat, Owner>, game: seq<Move>)
      requires Valid() && was == mem && wasOwner == owner
      ensures root.Ptr? && Unmoved(was, wasOwner, lines, 0, root.id)
      ensures moves == [] ==> Follows(was, mem, owner, head, moves, game[..0], root.id, lines, LegalAfter(startKey))
    {
      ValidMeans();
      if moves == [] {
        StartFollows(mem, owner, head, moves, game[..0], lines, LegalAfter(startKey));
      }
    }

    lemma RepeatsOld(was: Memory, wasOwner: map<nat, Owner>, names: map<nat, seq<Move>>, game: seq<Move>, i: nat, current: nat, c: nat,
                     at: Memory, atOwner: map<nat, Owner>)
      requires moves <= game && i < |moves| && |spine| == |moves| + 1 && Spine(was, spine, moves) && spine[|moves|] == head
      requires Open(was, wasOwner, lines, head, moves, LegalAfter(startKey)) && Forest(was, wasOwner)
      requires at == was && atOwner == wasOwner && names == lines && current == spine[i]
      requires forall d: nat | OneStep(at, current, game[i], d) :: mem == at && owner == atOwner && c == d
      ensures Unmoved(was, wasOwner, names, i + 1, c)
      ensures i + 1 == |moves| ==> Follows(was, mem, owner, head, moves, game[..i + 1], c, names, LegalAfter(startKey))
    {
      assert OneStep(was, spine[i], moves[i], spine[i + 1]);
      hide OneStep, Open, Forest;
      if i + 1 == |moves| {
        assert game[..i + 1] == moves;
        StartFollows(mem, owner, head, moves, game[..i + 1], lines, LegalAfter(startKey));
      }
    }

    lemma MovesOn(was: Memory, wasOwner: map<nat, Owner>, at: Memory, atOwner: map<nat, Owner>, game: seq<Move>, i: nat, current: nat, c: nat,
                  names: map<nat, seq<Move>>)
      requires Forest(was, wasOwner) && Forest(at, atOwner) && |moves| <= i < |game|
      requires Follows(was, at, atOwner, head, moves, game[..i], current, names, LegalAfter(startKey))
      requires Released(at, mem, current, game[i], c)
      requires forall lines: map<nat, seq<Move>>, legal: seq<Move> -> seq<Move> | Open(at, atOwner, lines, current, game[..i], legal) ::
                 Open(mem, owner, (lines - {current})[c := game[..i] + [game[i]]], c, game[..i] + [game[i]], legal)
      ensures game[..i + 1] == game[..i] + [game[i]]
      ensures Follows(was, mem, owner, head, moves, game[..i + 1], c, (names - {current})[c := game[..i] + [game[i]]], LegalAfter(startKey))
    {
      hide Forest, Released, Open, Tracked, LegalAfter;
      NextIs(game, i);
      assert Open(at, atOwner, names, current, game[..i], LegalAfter(startKey));
      HeadNamed(at, atOwner, names, current, game[..i], LegalAfter(startKey));
      TrackStep(was, wasOwner, at, mem, head, game[|moves|..i], game[i], current, c);
      assert game[..i][|moves|..] == game[|moves|..i];
      assert game[..i + 1][|moves|..] == game[|moves|..i] + [game[i]];
      StillThere(was, at, atOwner, mem, names, current, game[..i], game[i], c, LegalAfter(startKey));
    }

    /** Puts a node into an empty slot. */
    method PlaceChild(p: nat, i: nat, c: nat)
      requires Stored({c}) && IsLive(mem, p) && i < |Edges(mem, p)| && Edges(mem, p)[i].child == Null && p < c
      modifies this`mem, this`owner
      ensures Stored({}) && mem == WithChild(old(mem), p, i, Ptr(c)) && owner == old(owner)[c := Of(p, i)]
    {
      hide Forest, Held, Total;
      LooseIsTop(c);
      AttachKeeps(mem, owner, p, i, c);
      WithChildKeepsTotal(mem, p, i, Ptr(c));
      assert {} + {c} == {c};
      TopAttached(owner, root, pending, {}, c, Of(p, i));
      mem := WithChild(mem, p, i, Ptr(c));
      owner := owner[c := Of(p, i)];
    }

    lemma LooseIsTop(c: nat)
      requires Stored({c})
      ensures c in owner && owner[c] == Top
    {
      assert c in SlotSet(root) + Members(pending) + {c};
      hide Forest, Total;
    }

    /** Replaces the node at the end of the walk by a new one. */
    method RestartHead(prev: nat, ghost nodes: seq<nat>, ghost game: seq<Move>, ghost current: nat) returns (renewed: nat)
      requires Walked(nodes, game, current) && |game| > 0 && |nodes| == |game| + 1 && prev == nodes[|game| - 1]
      modifies this`mem, this`bytes, this`owner, this`pending
      ensures Walked(nodes[|game| := renewed], game, renewed) && renewed < |mem| && mem[renewed] == Live(FRESH)
    {
      hide *;
      ghost var was, wasOwner := mem, owner;
      WalkedMeans(nodes, game, current);
      LastStep(was, nodes, game);
      DiscardChild(prev, 0);
      ghost var mid := mem;
      renewed := NewNode({});
      NoneIsLoose(renewed);
      SlotIsFree(was, mid, mem, prev, renewed);
      PlaceChild(prev, 0, renewed);
      SpineRestarts(was, wasOwner, mid, mem, nodes, game, prev, renewed);
      RestartedWalk(nodes, game, renewed);
    }

    lemma NoneIsLoose(p: nat)
      requires Stored({} + {p})
      ensures Stored({p})
    {
      assert {} + {p} == {p};
    }

    lemma RestartedWalk(nodes: seq<nat>, game: seq<Move>, renewed: nat)
      requires Stored({}) && root.Ptr? && |nodes| == |game| + 1 && |game| > 0 && nodes[0] == root.id && Spine(mem, nodes[|game| := renewed], game)
      ensures Walked(nodes[|game| := renewed], game, renewed)
    {
      hide Forest, Held, Total, Spine;
    }

    /** Gives the end of the walk a fresh node, which for the empty game means a fresh tree. */
    method Restart(prev: Slot, ghost nodes: seq<nat>, ghost game: seq<Move>, current: nat) returns (head': nat, ghost nodes': seq<nat>)
      requires Walked(nodes, game, current) && |nodes| == |game| + 1
      requires if game == [] then prev == Null else prev == Ptr(nodes[|game| - 1])
      modifies this
      ensures Walked(nodes', game, head') && head' < |mem| && mem[head'] == Live(FRESH)
    {
      hide *;
      if prev.Ptr? {
        head' := RestartHead(prev.id, nodes, game, current);
        nodes' := nodes[|game| := head'];
      } else {
        WalkedMeans(nodes, game, current);
        DeallocateTree();
        ValidMeans();
        SpineOfNothing(spine);
        head', nodes' := head, spine;
      }
    }

    /** Moves the tree to a position of a game: the same game goes on from the old head, anything
        else starts from a new head. Returns whether the new moves extend the old ones. */
    method ResetToPosition(key: nat, game: seq<Move>) returns (canReuse: bool)
      requires Valid()
      modifies this
      ensures Valid() && startKey == key && moves == game && hasPosition
      ensures canReuse <==> old(hasPosition) && old(startKey) == key && old(moves) <= game
      ensures canReuse ==> Follows(old(mem), mem, owner, old(head), old(moves), game, head, lines, LegalAfter(key))
      ensures !canReuse ==> mem[head] == Live(FRESH)
    {
      hide *;
      ValidMeans();
      var sameGame := hasPosition && startKey == key;
      canReuse := sameGame && moves <= game;
      if !sameGame {
        DeallocateTree();
      }
      ghost var was := mem;
      var current, prev, nodes, names := WalkGame(game);
      WalkedMeans(nodes, game, current);
      if !sameGame {
        StillFresh(was, mem, owner, head, game, current, names, LegalAfter(startKey));
      }
      if sameGame && !canReuse {
        current, nodes := Restart(prev, nodes, game, current);
      }
      WalkedMeans(nodes, game, current);
      if canReuse {
        FollowsMeans(old(mem), mem, owner, head, moves, game, current, names, LegalAfter(startKey));
      } else {
        names := map[current := game];
        FreshOpen(mem, owner, current, game, LegalAfter(key));
      }
      Settle(key, game, current, nodes, names);
    }

    /** Records where the walk has ended. */
    method Settle(key: nat, game: seq<Move>, current: nat, ghost nodes: seq<nat>, ghost names: map<nat, seq<Move>>)
      requires Walked(nodes, game, current) && Open(mem, owner, names, current, game, LegalAfter(key))
      modifies this`head, this`startKey, this`moves, this`hasPosition, this`spine, this`lines
      ensures Valid() && head == current && startKey == key && moves == game && hasPosition && lines == names
    {
      hide *;
      WalkedMeans(nodes, game, current);
      head, spine, lines := current, nodes, names;
      startKey, moves, hasPosition := key, game, true;
      ResetIsValid();
    }

    lemma ResetIsValid()
      requires Stored({}) && root.Ptr? && Spine(mem, spine, moves) && |spine| == |moves| + 1 && spine[0] == root.id && spine[|moves|] == head
      requires Open(mem, owner, lines, head, moves, LegalAfter(startKey))
      ensures Valid()
    {
      hide Forest, Held, Total, Open, Spine;
    }

    // ----- what the search does below the head -----

    /** None of the head's ancestors is open, so the search leaves them alone. */
    lemma AncestorsAreClosed(k: nat)
      requires Valid() && k < |moves|
      ensures spine[k] !in lines
    {
      hide Total;
      OpenStaysBelow(mem, owner, lines, head, moves, LegalAfter(startKey), spine, k);
    }

    lemma NoAncestor(p: nat)
      requires Valid() && p in lines
      ensures |spine| == |moves| + 1 && forall k: nat | k < |moves| :: spine[k] != p
    {
      ValidMeans();
      hide Valid;
      forall k: nat | k < |moves|
        ensures spine[k] != p
      {
        AncestorsAreClosed(k);
      }
    }

    lemma LiveEdges(mem: Memory, p: nat)
      requires IsLive(mem, p)
      ensures p < |mem| && mem[p].Live? && Edges(mem, p) == mem[p].node.edges
    {
    }

    /** Changes one open node and nothing about who owns what. */
    lemma StillValid(was: Memory, p: nat, node: Node)
      requires Stored({}) && root.Ptr? && Forest(was, owner) && p in lines && IsLive(was, p) && mem == was[p := Live(node)]
      requires Spine(was, spine, moves) && spine[0] == root.id && spine[|moves|] == head && forall k: nat | k < |moves| :: spine[k] != p
      requires Open(was, owner, lines, head, moves, LegalAfter(startKey)) && Whole(node, LegalAfter(startKey)(lines[p]))
      requires SameSlots(Edges(was, p), node.edges) || NoChildren(node.edges)
      ensures Valid()
    {
      OpenNodeChanges(was, mem, owner, lines, head, moves, LegalAfter(startKey), p, node);
      SpineUnchanged(was, mem, spine, moves, p, node);
      hide Forest, Held, Total, Open, Spine, Whole, LegalAfter;
    }

    /** Lists the legal moves of a node that has none listed yet. */
    method ExpandNode(p: nat, list: seq<Move>)
      requires Valid() && p in lines && IsLive(mem, p) && Edges(mem, p) == [] && list == legal(startKey, lines[p])
      modifies this`mem, this`bytes
      ensures Valid() && mem == WithEdges(old(mem), p, NewEdges(list))
    {
      hide *;
      var edges := NewEdges(list);
      LiveEdges(mem, p);
      ghost var was, node := mem, mem[p].node.(edges := edges);
      NoAncestor(p);
      ValidMeans();
      NewEdgesAreWhole(mem, p, list);
      LegalIs(lines[p]);
      RelistKeeps(mem, owner, p, edges);
      Relisted(p, edges);
      mem := WithEdges(mem, p, edges);
      bytes := bytes + |list| * childBytes;
      IsStored({});
      StillValid(was, p, node);
    }

    lemma LegalIs(line: seq<Move>)
      ensures LegalAfter(startKey)(line) == legal(startKey, line)
    {
    }

    lemma NewEdgesAreWhole(mem: Memory, p: nat, list: seq<Move>)
      requires IsLive(mem, p) && Edges(mem, p) == []
      ensures NoChildren(Edges(mem, p)) && NoChildren(NewEdges(list)) && Whole(mem[p].node.(edges := NewEdges(list)), list)
      ensures WithEdges(mem, p, NewEdges(list)) == mem[p := Live(mem[p].node.(edges := NewEdges(list)))]
    {
    }

    lemma Relisted(p: nat, edges: seq<Edge>)
      requires Stored({}) && IsLive(mem, p) && Edges(mem, p) == []
      ensures Held(owner, root, pending, {}) && bytes + |edges| * childBytes == Total(WithEdges(mem, p, edges), nodeBytes, childBytes)
    {
      TotalUpdate(mem, p, WithEdges(mem, p, edges)[p], nodeBytes, childBytes);
      hide Forest, Held, Total;
    }

    /** Changes statistics and state; a node is called expanded only with its moves listed. */
    method UpdateNode(p: nat, node: Node)
      requires Valid() && p in lines && IsLive(mem, p) && SameSlots(Edges(mem, p), node.edges) && Whole(node, legal(startKey, lines[p]))
      modifies this`mem
      ensures Valid() && mem == old(mem)[p := Live(node)]
    {
      ghost var was := mem;
      NoAncestor(p);
      StatisticsKeep(mem, owner, p, node);
      TotalUpdate(mem, p, Live(node), nodeBytes, childBytes);
      assert Whole(node, LegalAfter(startKey)(lines[p]));
      hide Forest, Held, Total, Open, Spine, Whole, LegalAfter;
      mem := mem[p := Live(node)];
      StillValid(was, p, node);
    }

    /** The child behind an edge of an open node, made on the first visit. */
    method CreateChildNode(p: nat, i: nat) returns (c: nat)
      requires Valid() && p in lines && IsLive(mem, p) && i < |Edges(mem, p)|
      modifies this`mem, this`bytes, this`owner, this`lines
      ensures Valid() && HoldsChild(mem, p, i, c) && c in lines
      ensures old(Edges(mem, p)[i].child).Ptr? ==> mem == old(mem)
    {
      hide *;
      ghost var was, wasOwner, slot := mem, owner, Edges(mem, p)[i].child;
      NoAncestor(p);
      ValidMeans();
      LiveEdges(mem, p);
      c := GetOrCreate(p, i);
      if slot.Ptr? {
        OpenHasChild(mem, owner, lines, head, moves, LegalAfter(startKey), p, i, c);
      } else {
        StoredMeans({});
        HeadNamed(was, wasOwner, lines, head, moves, LegalAfter(startKey));
        OpenNewChild(was, wasOwner, mem, owner, lines, head, moves, LegalAfter(startKey), p, i, c);
        SpineGainsNode(was, mem, spine, moves, p, i, c);
        lines := lines[c := lines[p] + [Edges(was, p)[i].move]];
      }
      ResetIsValid();
    }

    lemma StoredMeans(loose: set<nat>)
      requires Stored(loose)
      ensures Forest(mem, owner) && Held(owner, root, pending, loose)
    {
      hide Forest, Held, Total;
    }

    // ----- deleting what is queued -----

    /** Frees a node and everything below it. */
    method Destroy(p: nat, ghost loose: set<nat>)
      requires Stored(loose) && p in loose
      modifies this`mem, this`bytes, this`owner
      ensures Stored(loose - {p}) && Shrunk(old(mem), mem) && !IsLive(mem, p)
      decreases LiveSet(mem)
    {
      hide *;
      ghost var was, wasOwner := mem, owner;
      LooseIsLive(loose, p);
      var edges := mem[p].node.edges;
      FreeOne(p, loose);
      bytes := bytes - (nodeBytes + |edges| * childBytes);
      mem := mem[p := Freed];
      owner := Orphaned(owner, p);
      FreedOne(was, wasOwner, p, loose, edges);
      ghost var left := ChildrenFrom(edges, 0);
      var i := 0;
      while i < |edges|
        invariant 0 <= i <= |edges| && left == ChildrenFrom(edges, i) && Stored((loose - {p}) + left) && (loose - {p}) !! left
        invariant Shrunk(was[p := Freed], mem)
      {
        NextChild(was, wasOwner, p, edges, i);
        if edges[i].child.Ptr? {
          ghost var child := edges[i].child.id;
          ghost var at := mem;
          FewerAlive(was, p, mem);
          Destroy(edges[i].child.id, (loose - {p}) + left);
          ShrinksOn(was[p := Freed], at, mem);
          assert (loose - {p}) + left - {child} == (loose - {p}) + (left - {child});
          left := left - {child};
        }
        i := i + 1;
      }
      NoChildFrom(edges, i);
      assert (loose - {p}) + {} == loose - {p};
      ShrunkAll(was, p, mem);
    }

    lemma LooseIsLive(loose: set<nat>, p: nat)
      requires Stored(loose) && p in loose
      ensures IsLive(mem, p) && p < |mem| && mem[p].Live? && mem[p].node.edges == Edges(mem, p) && p in owner && owner[p] == Top
      ensures Forest(mem, owner) && Held(owner, root, pending, loose)
    {
      hide Total;
      assert p in SlotSet(root) + Members(pending) + loose;
    }

    /** The counter follows the freed node. */
    lemma FreeOne(p: nat, loose: set<nat>)
      requires Stored(loose) && IsLive(mem, p)
      ensures bytes - (nodeBytes + |mem[p].node.edges| * childBytes) == Total(mem[p := Freed], nodeBytes, childBytes)
    {
      TotalUpdate(mem, p, Freed, nodeBytes, childBytes);
      hide Forest, Held, Total;
    }

    lemma FreedOne(was: Memory, wasOwner: map<nat, Owner>, p: nat, loose: set<nat>, edges: seq<Edge>)
      requires IsLive(was, p) && edges == was[p].node.edges && p in loose && p in wasOwner && wasOwner[p] == Top
      requires Forest(was, wasOwner) && Held(wasOwner, root, pending, loose)
      requires mem == was[p := Freed] && owner == Orphaned(wasOwner, p) && bytes == Total(mem, nodeBytes, childBytes)
      ensures Stored((loose - {p}) + ChildrenFrom(edges, 0)) && (loose - {p}) !! ChildrenFrom(edges, 0)
      ensures Shrunk(was[p := Freed], mem)
    {
      FreeKeeps(was, wasOwner, p);
      ChildrenAre(was, wasOwner, p);
      TopsOrphaned(was, wasOwner, root, pending, loose, p);
      hide Forest, Total, Orphaned;
    }

    /** The collector takes the oldest queued node and destroys it. */
    method CollectOne()
      requires Valid() && pending != []
      modifies this`mem, this`bytes, this`owner, this`pending, this`lines
      ensures Valid() && pending == old(pending)[1..] && Shrunk(old(mem), mem) && IsLive(mem, head)
      ensures forall q: nat :: q in lines <==> q in old(lines) && IsLive(mem, q)
      ensures forall q: nat | old(IsLive(mem, q)) :: IsLive(mem, q) <==> old(TopOf(mem, owner, q)) != old(pending)[0]
    {
      hide *;
      ValidMeans();
      StoredMeans({});
      ghost var was, wasOwner, queue := mem, owner, pending;
      var p := pending[0];
      Dequeued();
      pending := pending[1..];
      IsStored({p});
      Destroy(p, {p});
      assert {p} - {p} == {};
      StoredMeans({});
      QueueLoses(wasOwner, owner, root, queue);
      LiveIsOwned(was, wasOwner);
      forall q: nat | IsLive(was, q)
        ensures IsLive(mem, q) <==> TopOf(was, wasOwner, q) != p
      {
        ExactlyBelow(was, wasOwner, mem, owner, SlotSet(root) + Members(queue), p, q);
      }
      SpineSurvives(was, wasOwner, mem, owner, root, pending, spine, moves);
      OpenSurvives(was, wasOwner, mem, owner, lines, head, moves, LegalAfter(startKey), spine);
      lines := map q: nat | q in lines && IsLive(mem, q) :: lines[q];
      ResetIsValid();
    }

    lemma IsStored(loose: set<nat>)
      requires Forest(mem, owner) && Held(owner, root, pending, loose) && bytes == Total(mem, nodeBytes, childBytes)
      ensures Stored(loose)
    {
      hide Forest, Held, Total;
    }

    lemma Dequeued()
      requires Stored({}) && pending != []
      ensures Forest(mem, owner) && Held(owner, root, pending[1..], {pending[0]}) && bytes == Total(mem, nodeBytes, childBytes)
    {
      assert pending == [pending[0]] + pending[1..];
      assert Members(pending) == {pending[0]} + Members(pending[1..]);
      hide Forest, Total;
    }

    /** Every allocated node hangs below the tree's first node or below one waiting for deletion,
        so the counter is the size of the tree plus what is still to be freed. */
    lemma {:induction false} NothingLeaks(q: nat)
      requires Valid() && IsLive(mem, q)
      ensures q in owner && (TopOf(mem, owner, q) == root.id || TopOf(mem, owner, q) in pending)
      ensures bytes == Total(mem, nodeBytes, childBytes)
    {
      hide Total, Open, Spine;
      assert TopOf(mem, owner, q) in SlotSet(root) + Members(pending);
    }
  }

  lemma LastStep(mem: Memory, nodes: seq<nat>, path: seq<Move>)
    requires Spine(mem, nodes, path) && |path| > 0 && |nodes| == |path| + 1
    ensures OneStep(mem, nodes[|path| - 1], path[|path| - 1], nodes[|path|])
    ensures IsLive(mem, nodes[|path| - 1]) && |Edges(mem, nodes[|path| - 1])| == 1
  {
    assert OneStep(mem, nodes[|path| - 1], path[|path| - 1], nodes[|path| - 1 + 1]);
  }

  lemma SlotIsFree(was: Memory, mid: Memory, now: Memory, p: nat, c: nat)
    requires IsLive(was, p) && |Edges(was, p)| == 1 && mid == WithChild(was, p, 0, Null) && now == mid + [Live(FRESH)] && c == |mid|
    ensures IsLive(now, p) && |Edges(now, p)| == 1 && Edges(now, p)[0].child == Null && p < c < |now| && now[c] == Live(FRESH)
  {
  }

  /** The path now ends in the new node. */
  lemma SpineRestarts(was: Memory, owner: map<nat, Owner>, mid: Memory, now: Memory, nodes: seq<nat>, path: seq<Move>, p: nat, c: nat)
    requires Forest(was, owner) && Spine(was, nodes, path) && |path| > 0 && |nodes| == |path| + 1 && p == nodes[|path| - 1]
    requires IsLive(was, p) && |Edges(was, p)| == 1 && mid == WithChild(was, p, 0, Null) && c == |mid|
    requires IsLive(mid + [Live(FRESH)], p) && |Edges(mid + [Live(FRESH)], p)| == 1 && now == WithChild(mid + [Live(FRESH)], p, 0, Ptr(c))
    ensures Spine(now, nodes[|path| := c], path) && c < |now| && now[c] == Live(FRESH)
  {
    forall k: nat | k < |path|
      ensures OneStep(now, nodes[|path| := c][k], path[k], nodes[|path| := c][k + 1])
    {
      assert OneStep(was, nodes[k], path[k], nodes[k + 1]);
      if k < |path| - 1 {
        SpineAscends(was, owner, nodes, path, k);
        EarlierOnSpine(was, owner, nodes, path, k);
      }
    }
  }

  lemma {:induction false} EarlierOnSpine(mem: Memory, owner: map<nat, Owner>, nodes: seq<nat>, path: seq<Move>, k: nat)
    requires Forest(mem, owner) && Spine(mem, nodes, path) && |nodes| == |path| + 1 && k < |path| - 1
    ensures nodes[k] < nodes[|path| - 1]
    decreases |path| - k
  {
    assert OneStep(mem, nodes[k], path[k], nodes[k + 1]);
    assert HoldsChild(mem, nodes[k], 0, nodes[k + 1]);
    if k + 1 < |path| - 1 {
      EarlierOnSpine(mem, owner, nodes, path, k + 1);
    }
  }

  lemma SpineOfNothing(nodes: seq<nat>)
    requires |nodes| == 1
    ensures nodes == [nodes[0]]
  {
  }

  lemma FollowsMeans(was: Memory, mem: Memory, owner: map<nat, Owner>, head: nat, moves: seq<Move>, game: seq<Move>, current: nat,
                     names: map<nat, seq<Move>>, legal: seq<Move> -> seq<Move>)
    requires Follows(was, mem, owner, head, moves, game, current, names, legal)
    ensures Open(mem, owner, names, current, game, legal)
  {
    hide Open;
  }

  lemma {:induction false} DescendFresh(mem: Memory, h: nat, line: seq<Move>)
    requires h < |mem| && mem[h] == Live(FRESH)
    ensures Descend(mem, h, line) == if line == [] then Ptr(h) else Null
    decreases |line|
  {
    if line != [] {
      DescendFresh(mem, h, line[..|line| - 1]);
    }
  }

  /** Walking from a new tree ends on a fresh node. */
  lemma StillFresh(was: Memory, mem: Memory, owner: map<nat, Owner>, h: nat, game: seq<Move>, current: nat, names: map<nat, seq<Move>>, legal: seq<Move> -> seq<Move>)
    requires h < |was| && was[h] == Live(FRESH) && Follows(was, mem, owner, h, [], game, current, names, legal)
    ensures current < |mem| && mem[current] == Live(FRESH)
  {
    DescendFresh(was, h, game);
    HeadNamed(mem, owner, names, current, game, legal);
    hide Open, Descend;
    assert game[0..] == game;
  }

  lemma FreshOpen(mem: Memory, owner: map<nat, Owner>, p: nat, path: seq<Move>, legal: seq<Move> -> seq<Move>)
    requires Forest(mem, owner) && IsLive(mem, p) && mem[p] == Live(FRESH)
    ensures Open(mem, owner, map[p := path], p, path, legal)
  {
    assert owner[p].Of? ==> HoldsChild(mem, owner[p].parent, owner[p].index, p);
  }

  // ----- tops -----

  lemma RootHeld(owner: map<nat, Owner>, pending: seq<nat>, p: nat)
    requires Held(owner, Null, pending, {p})
    ensures Held(owner, Ptr(p), pending, {})
  {
    assert p in SlotSet(Null) + Members(pending) + {p};
  }

  lemma RootQueued(owner: map<nat, Owner>, root: Slot, pending: seq<nat>)
    requires Held(owner, root, pending, {}) && root.Ptr?
    ensures Held(owner, Null, pending + [root.id], {})
  {
    assert Members(pending + [root.id]) == Members(pending) + {root.id};
    assert root.id in SlotSet(root);
  }

  lemma NewTop(owner: map<nat, Owner>, root: Slot, pending: seq<nat>, loose: set<nat>, p: nat)
    requires Held(owner, root, pending, loose) && p !in owner
    ensures Held(owner[p := Top], root, pending, loose + {p})
  {
  }

  lemma TopAttached(owner: map<nat, Owner>, root: Slot, pending: seq<nat>, loose: set<nat>, c: nat, slot: Owner)
    requires Held(owner, root, pending, loose + {c}) && c !in loose && slot.Of?
    ensures Held(owner[c := slot], root, pending, loose)
  {
    assert c !in SlotSet(root) + Members(pending) + loose;
  }

  lemma TopQueued(owner: map<nat, Owner>, root: Slot, pending: seq<nat>, c: nat)
    requires Held(owner, root, pending, {}) && c in owner && owner[c].Of?
    ensures Held(owner[c := Top], root, pending + [c], {})
  {
    assert Members(pending + [c]) == Members(pending) + {c};
    assert c !in SlotSet(root) + Members(pending);
  }

  lemma TopKept(owner: map<nat, Owner>, root: Slot, pending: seq<nat>, c: nat, slot: Owner)
    requires Held(owner, root, pending, {}) && c in owner && owner[c].Of? && slot.Of?
    ensures Held(owner[c := slot], root, pending, {})
  {
  }
}
