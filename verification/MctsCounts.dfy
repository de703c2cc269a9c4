/** Visit and value bookkeeping under concurrent workers: what nodes, edges and playouts in
    flight add up to after every step, and exactly once all workers have joined. */
module MctsCounts {
  import opened MctsGame

  /** A playout in flight is named by its trajectory, the path of child indices from the
      root: still descending, backing up a value edge by edge, or being unwound. */
  datatype Playout = Resting | Descending(p: Path) | BackingUp(p: Path, value: real) | Unwinding(p: Path)
  {
    /** The part of the trajectory not yet dealt with. */
    function Trajectory(): Path { if Resting? then [] else p }
  }

  /** The counters of the node at a path and of the edge into it, and for the statement the
      number and the values of the playouts that ended there. */
  datatype Tree = Tree(
    nodeVisits: Path -> int, nodeWin: Path -> real, edgeVisits: Path -> int, edgeWin: Path -> real,
    endedCount: Path -> int, endedWin: Path -> real, playouts: seq<Playout>)

  datatype Event =
    | Begin(w: nat)
    | Select(w: nat, child: nat)
    | Finish(w: nat, value: real)
    | Discard(w: nat)
    | Backup(w: nat)
    | Unwind(w: nat)

  function Plus(f: Path -> int, q: Path, d: int): Path -> int { (p: Path) => if p == q then f(p) + d else f(p) }

  function PlusReal(f: Path -> real, q: Path, d: real): Path -> real { (p: Path) => if p == q then f(p) + d else f(p) }

  function Parent(p: Path): Path
    requires p != []
  {
    p[..|p| - 1]
  }

  /** The state of a worker one edge further up. */
  function Backed(p: Path, value: real): Playout
    requires p != []
  {
    if Parent(p) == [] then Resting else BackingUp(Parent(p), 1.0 - value)
  }

  function Unwound(p: Path): Playout
    requires p != []
  {
    if Parent(p) == [] then Resting else Unwinding(Parent(p))
  }

  ghost predicate CanHappen(g: Game, t: Tree, e: Event) {
    && e.w < |t.playouts|
    && match e
       case Begin(w) => t.playouts[w].Resting?
       case Select(w, child) => t.playouts[w].Descending? && child < g.childNum(t.playouts[w].p)
       case Finish(w, value) => t.playouts[w].Descending?
       case Discard(w) => t.playouts[w].Descending?
       case Backup(w) => t.playouts[w].BackingUp? && t.playouts[w].p != []
       case Unwind(w) => t.playouts[w].Unwinding? && t.playouts[w].p != []
  }

  /** Selecting counts a visit at once at node and edge; a finished playout's value is added
      edge by edge on the way up, turned at each; a discarded one takes its visits back. */
  function Happened(g: Game, t: Tree, e: Event): Tree
    requires CanHappen(g, t, e)
  {
    var k := t.playouts[e.w];
    match e
    case Begin(w) => t.(playouts := t.playouts[w := Descending([])])
    case Select(w, child) =>
      t.(nodeVisits := Plus(t.nodeVisits, k.p, 1), edgeVisits := Plus(t.edgeVisits, k.p + [child], 1),
         playouts := t.playouts[w := Descending(k.p + [child])])
    case Finish(w, value) =>
      t.(endedCount := Plus(t.endedCount, k.p, 1), endedWin := PlusReal(t.endedWin, k.p, value),
         playouts := t.playouts[w := if k.p == [] then Resting else BackingUp(k.p, value)])
    case Discard(w) => t.(playouts := t.playouts[w := if k.p == [] then Resting else Unwinding(k.p)])
    case Backup(w) =>
      t.(nodeWin := PlusReal(t.nodeWin, Parent(k.p), k.value), edgeWin := PlusReal(t.edgeWin, k.p, k.value),
         playouts := t.playouts[w := Backed(k.p, k.value)])
    case Unwind(w) =>
      t.(nodeVisits := Plus(t.nodeVisits, Parent(k.p), -1), edgeVisits := Plus(t.edgeVisits, k.p, -1),
         playouts := t.playouts[w := Unwound(k.p)])
  }

  /** Any interleaving of steps. */
  ghost predicate IsHistory(g: Game, start: Tree, events: seq<Event>, t: Tree)
    decreases |events|
  {
    if events == [] then t == start
    else
      var before, last := events[..|events| - 1], events[|events| - 1];
      exists t0: Tree :: IsHistory(g, start, before, t0) && Follows(g, t0, last, t)
  }

  ghost predicate Follows(g: Game, t0: Tree, e: Event, t: Tree) {
    CanHappen(g, t0, e) && t == Happened(g, t0, e)
  }

  // ----- sums over workers -----

  function SumOver(ks: seq<Playout>, f: Playout -> real): real {
    if ks == [] then 0.0 else SumOver(ks[..|ks| - 1], f) + f(ks[|ks| - 1])
  }

  lemma {:induction false} SumReplace(ks: seq<Playout>, f: Playout -> real, w: nat, k: Playout)
    requires w < |ks|
    ensures SumOver(ks[w := k], f) == SumOver(ks, f) - f(ks[w]) + f(k)
  {
    var rest := ks[..|ks| - 1];
    if w < |rest| {
      SumReplace(rest, f, w, k);
      assert ks[w := k][..|ks| - 1] == rest[w := k];
    } else {
      assert ks[w := k][..|ks| - 1] == rest;
    }
  }

  lemma {:induction false} SumOfZeros(ks: seq<Playout>, f: Playout -> real)
    requires forall w: nat | w < |ks| :: f(ks[w]) == 0.0
    ensures SumOver(ks, f) == 0.0
  {
    if ks != [] {
      SumOfZeros(ks[..|ks| - 1], f);
    }
  }

  predicate IsBelow(p: Path, e: Path) { |p| > |e| && p[..|e|] == e }

  /** Counts the playouts with an edge out of `e` still to deal with. */
  function Open(e: Path): Playout -> real {
    (k: Playout) => if !k.Resting? && IsBelow(k.p, e) then 1.0 else 0.0
  }

  /** The values about to be added to the edge into `e`. */
  function Pending(e: Path): Playout -> real {
    (k: Playout) => if k.BackingUp? && k.p == e then k.value else 0.0
  }

  /** Counts the playouts that stand at `e` without having finished there. */
  function Standing(e: Path): Playout -> real {
    (k: Playout) => if (k.Descending? || k.Unwinding?) && k.p == e then 1.0 else 0.0
  }

  // ----- sums over children -----

  function VisitsOut(f: Path -> int, n: Path, k: nat): int {
    if k == 0 then 0 else VisitsOut(f, n, k - 1) + f(n + [k - 1])
  }

  function WinsOut(f: Path -> real, n: Path, k: nat): real {
    if k == 0 then 0.0 else WinsOut(f, n, k - 1) + f(n + [k - 1])
  }

  lemma {:induction false} VisitsOutPlus(f: Path -> int, n: Path, k: nat, q: Path, d: int)
    requires q != []
    ensures VisitsOut(Plus(f, q, d), n, k) == VisitsOut(f, n, k) + if Parent(q) == n && q[|q| - 1] < k then d else 0
  {
    if k > 0 {
      VisitsOutPlus(f, n, k - 1, q, d);
      LastIndex(n, k - 1, q);
    }
  }

  lemma {:induction false} WinsOutPlus(f: Path -> real, n: Path, k: nat, q: Path, d: real)
    requires q != []
    ensures WinsOut(PlusReal(f, q, d), n, k) == WinsOut(f, n, k) + if Parent(q) == n && q[|q| - 1] < k then d else 0.0
  {
    if k > 0 {
      WinsOutPlus(f, n, k - 1, q, d);
      LastIndex(n, k - 1, q);
    }
  }

  lemma LastIndex(n: Path, i: nat, q: Path)
    requires q != []
    ensures n + [i] == q <==> Parent(q) == n && q[|q| - 1] == i
  {
    assert q == Parent(q) + [q[|q| - 1]];
  }

  // ----- what every step keeps -----

  /** Trajectories only use edges that exist. */
  ghost predicate OnTree(g: Game, p: Path) {
    forall i: nat | i < |p| :: p[i] < g.childNum(p[..i])
  }

  /** A node's counters are the sums of its edges' counters. */
  ghost predicate NodeIsSum(g: Game, t: Tree, n: Path) {
    && t.nodeVisits(n) == VisitsOut(t.edgeVisits, n, g.childNum(n))
    && t.nodeWin(n) == WinsOut(t.edgeWin, n, g.childNum(n))
  }

  /** An edge's value is what the playouts behind it were worth to its mover: turned over for
      those that went on, as they are for those that ended there, with playouts in flight
      accounted for. Its visits are those of the node behind it, the playouts that ended
      there, and those standing there. */
  ghost predicate EdgeAddsUp(t: Tree, e: Path) {
    && t.edgeWin(e) + SumOver(t.playouts, Pending(e)) ==
       t.nodeVisits(e) as real - SumOver(t.playouts, Open(e)) - t.nodeWin(e) + t.endedWin(e)
    && t.edgeVisits(e) as real == t.nodeVisits(e) as real + t.endedCount(e) as real + SumOver(t.playouts, Standing(e))
  }

  ghost predicate Conserved(g: Game, t: Tree) {
    && (forall w: nat | w < |t.playouts| :: OnTree(g, t.playouts[w].Trajectory()))
    && (forall n: Path :: NodeIsSum(g, t, n))
    && forall e: Path | e != [] :: EdgeAddsUp(t, e)
  }

  lemma BelowChild(p: Path, e: Path)
    requires p != []
    ensures IsBelow(p, e) <==> IsBelow(Parent(p), e) || Parent(p) == e
  {
    if IsBelow(p, e) && |p| == |e| + 1 {
      assert Parent(p) == p[..|e|];
    }
    if |p| > |e| + 1 {
      assert Parent(p)[..|e|] == p[..|e|];
    }
  }

  lemma OnTreeParent(g: Game, p: Path)
    requires p != [] && OnTree(g, p)
    ensures OnTree(g, Parent(p)) && p[|p| - 1] < g.childNum(Parent(p))
  {
    assert forall i: nat | i < |p| - 1 :: Parent(p)[..i] == p[..i];
    assert p[|p| - 1] < g.childNum(p[..|p| - 1]);
  }

  lemma OnTreeChild(g: Game, p: Path, i: nat)
    requires OnTree(g, p) && i < g.childNum(p)
    ensures OnTree(g, p + [i]) && Parent(p + [i]) == p && (p + [i])[|p|] == i
  {
    var q := p + [i];
    assert Parent(q) == p;
    forall j: nat | j < |q|
      ensures q[j] < g.childNum(q[..j])
    {
      if j < |p| {
        assert q[..j] == p[..j];
      } else {
        assert q[..j] == p;
      }
    }
  }

  // ----- edges, step by step -----

  lemma SelectKeepsEdge(g: Game, t: Tree, w: nat, child: nat, e: Path)
    requires CanHappen(g, t, Select(w, child)) && EdgeAddsUp(t, e)
    ensures EdgeAddsUp(Happened(g, t, Select(w, child)), e)
  {
    hide SumOver;
    var k := t.playouts[w];
    var q := k.p + [child];
    assert Parent(q) == k.p;
    BelowChild(q, e);
    SumReplace(t.playouts, Open(e), w, Descending(q));
    SumReplace(t.playouts, Pending(e), w, Descending(q));
    SumReplace(t.playouts, Standing(e), w, Descending(q));
  }

  lemma BackupKeepsEdge(g: Game, t: Tree, w: nat, e: Path)
    requires CanHappen(g, t, Backup(w)) && EdgeAddsUp(t, e) && e != []
    ensures EdgeAddsUp(Happened(g, t, Backup(w)), e)
  {
    hide SumOver;
    var k := t.playouts[w];
    BelowChild(k.p, e);
    SumReplace(t.playouts, Open(e), w, Backed(k.p, k.value));
    SumReplace(t.playouts, Pending(e), w, Backed(k.p, k.value));
    SumReplace(t.playouts, Standing(e), w, Backed(k.p, k.value));
  }

  lemma UnwindKeepsEdge(g: Game, t: Tree, w: nat, e: Path)
    requires CanHappen(g, t, Unwind(w)) && EdgeAddsUp(t, e) && e != []
    ensures EdgeAddsUp(Happened(g, t, Unwind(w)), e)
  {
    hide SumOver;
    var k := t.playouts[w];
    BelowChild(k.p, e);
    SumReplace(t.playouts, Open(e), w, Unwound(k.p));
    SumReplace(t.playouts, Pending(e), w, Unwound(k.p));
    SumReplace(t.playouts, Standing(e), w, Unwound(k.p));
  }

  lemma OtherKeepsEdge(g: Game, t: Tree, ev: Event, e: Path)
    requires (ev.Begin? || ev.Finish? || ev.Discard?) && CanHappen(g, t, ev) && EdgeAddsUp(t, e) && e != []
    ensures EdgeAddsUp(Happened(g, t, ev), e)
  {
    hide SumOver;
    var k' := Happened(g, t, ev).playouts[ev.w];
    SumReplace(t.playouts, Open(e), ev.w, k');
    SumReplace(t.playouts, Pending(e), ev.w, k');
    SumReplace(t.playouts, Standing(e), ev.w, k');
  }

  // ----- nodes, step by step -----

  lemma StepKeepsNode(g: Game, t: Tree, ev: Event, n: Path)
    requires CanHappen(g, t, ev) && NodeIsSum(g, t, n) && OnTree(g, t.playouts[ev.w].Trajectory())
    ensures NodeIsSum(g, Happened(g, t, ev), n)
  {
    hide VisitsOut, WinsOut, OnTree;
    var k := t.playouts[ev.w];
    match ev
    case Select(w, child) =>
      OnTreeChild(g, k.p, child);
      VisitsOutPlus(t.edgeVisits, n, g.childNum(n), k.p + [child], 1);
    case Backup(w) =>
      OnTreeParent(g, k.p);
      WinsOutPlus(t.edgeWin, n, g.childNum(n), k.p, k.value);
    case Unwind(w) =>
      OnTreeParent(g, k.p);
      VisitsOutPlus(t.edgeVisits, n, g.childNum(n), k.p, -1);
    case _ =>
  }

  lemma StepStaysOnTree(g: Game, t: Tree, ev: Event)
    requires CanHappen(g, t, ev) && OnTree(g, t.playouts[ev.w].Trajectory())
    ensures OnTree(g, Happened(g, t, ev).playouts[ev.w].Trajectory())
  {
    var k := t.playouts[ev.w];
    match ev
    case Select(w, child) => OnTreeChild(g, k.p, child);
    case Backup(w) => OnTreeParent(g, k.p);
    case Unwind(w) => OnTreeParent(g, k.p);
    case _ =>
  }

  lemma StepKeepsEdge(g: Game, t: Tree, ev: Event, e: Path)
    requires CanHappen(g, t, ev) && EdgeAddsUp(t, e) && e != []
    ensures EdgeAddsUp(Happened(g, t, ev), e)
  {
    hide EdgeAddsUp, Happened;
    match ev
    case Select(w, child) => SelectKeepsEdge(g, t, w, child, e);
    case Backup(w) => BackupKeepsEdge(g, t, w, e);
    case Unwind(w) => UnwindKeepsEdge(g, t, w, e);
    case _ => OtherKeepsEdge(g, t, ev, e);
  }

  lemma OthersStay(g: Game, t: Tree, ev: Event, w: nat)
    requires CanHappen(g, t, ev) && w < |t.playouts|
    ensures |Happened(g, t, ev).playouts| == |t.playouts|
    ensures w != ev.w ==> Happened(g, t, ev).playouts[w] == t.playouts[w]
  {
  }

  /** Every step of every worker conserves visits and values. */
  lemma {:induction false} StepConserves(g: Game, t: Tree, ev: Event)
    requires Conserved(g, t) && CanHappen(g, t, ev)
    ensures Conserved(g, Happened(g, t, ev))
  {
    hide OnTree, NodeIsSum, EdgeAddsUp, Happened;
    var t' := Happened(g, t, ev);
    OthersStay(g, t, ev, ev.w);
    forall w: nat | w < |t'.playouts|
      ensures OnTree(g, t'.playouts[w].Trajectory())
    {
      OthersStay(g, t, ev, w);
      if w == ev.w {
        StepStaysOnTree(g, t, ev);
      }
    }
    forall n: Path
      ensures NodeIsSum(g, t', n)
    {
      StepKeepsNode(g, t, ev, n);
    }
    forall e: Path | e != []
      ensures EdgeAddsUp(t', e)
    {
      StepKeepsEdge(g, t, ev, e);
    }
  }

  lemma {:induction false} NothingOut(f: Path -> int, h: Path -> real, n: Path, k: nat)
    requires forall p: Path :: f(p) == 0 && h(p) == 0.0
    ensures VisitsOut(f, n, k) == 0 && WinsOut(h, n, k) == 0.0
  {
    if k > 0 {
      NothingOut(f, h, n, k - 1);
    }
  }

  ghost predicate AllResting(t: Tree) { forall w: nat | w < |t.playouts| :: t.playouts[w].Resting? }

  /** An empty tree is in balance. */
  lemma EmptyIsConserved(g: Game, t: Tree)
    requires AllResting(t)
    requires forall p: Path :: t.nodeVisits(p) == 0 && t.nodeWin(p) == 0.0 && t.edgeVisits(p) == 0 && t.edgeWin(p) == 0.0
    requires forall p: Path :: t.endedCount(p) == 0 && t.endedWin(p) == 0.0
    ensures Conserved(g, t)
  {
    forall n: Path
      ensures NodeIsSum(g, t, n)
    {
      NothingOut(t.edgeVisits, t.edgeWin, n, g.childNum(n));
    }
    forall e: Path | e != []
      ensures EdgeAddsUp(t, e)
    {
      RestingSums(t, e);
    }
  }

  lemma RestingSums(t: Tree, e: Path)
    requires AllResting(t)
    ensures SumOver(t.playouts, Open(e)) == SumOver(t.playouts, Pending(e)) == SumOver(t.playouts, Standing(e)) == 0.0
  {
    SumOfZeros(t.playouts, Open(e));
    SumOfZeros(t.playouts, Pending(e));
    SumOfZeros(t.playouts, Standing(e));
  }

  lemma {:induction false} HistoryConserves(g: Game, start: Tree, events: seq<Event>, t: Tree)
    requires Conserved(g, start) && IsHistory(g, start, events, t)
    ensures Conserved(g, t)
    decreases |events|
  {
    hide Conserved, CanHappen, Happened;
    if events != [] {
      var before, last := events[..|events| - 1], events[|events| - 1];
      var t0: Tree :| IsHistory(g, start, before, t0) && Follows(g, t0, last, t);
      HistoryConserves(g, start, before, t0);
      StepConserves(g, t0, last);
    }
  }

  /** Once every worker has joined, whatever the interleaving and however many playouts were
      discarded: each node sums its edges, each edge's visits are the node's plus the playouts
      that ended there, and its value turns the node's over and adds what ended there. */
  lemma {:induction false} JoinedTreeAddsUp(g: Game, start: Tree, events: seq<Event>, t: Tree, n: Path)
    requires Conserved(g, start) && IsHistory(g, start, events, t) && AllResting(t)
    ensures t.nodeVisits(n) == VisitsOut(t.edgeVisits, n, g.childNum(n)) && t.nodeWin(n) == WinsOut(t.edgeWin, n, g.childNum(n))
    ensures n != [] ==> t.edgeVisits(n) == t.nodeVisits(n) + t.endedCount(n)
    ensures n != [] ==> t.edgeWin(n) == t.nodeVisits(n) as real - t.nodeWin(n) + t.endedWin(n)
  {
    hide IsHistory, OnTree, VisitsOut, WinsOut;
    HistoryConserves(g, start, events, t);
    assert NodeIsSum(g, t, n);
    if n != [] {
      assert EdgeAddsUp(t, n);
      RestingSums(t, n);
    }
  }
}
