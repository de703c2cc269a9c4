/** Proven edges under concurrent workers: every flag a worker ever sets tells the value the
    search works with, whatever the other workers do in between; the root guard may add one. */
module MctsFlags {
  import opened Wrappers
  import opened MctsGame

  /** A node's worth to the player who moved into it. */
  function MoverValue(o: Outcome, draw: real): real {
    match o
    case Win => 0.0
    case Loss => 1.0
    case Draw => draw
  }

  // ----- workers -----

  datatype Stage = ReadLose | ReadWin | ReadDraw

  /** Where a worker stands: about to read the flag on the edge into a node, past that flag,
      reading the flags of the children one load at a time, about to descend into one of `from`,
      or done with a value for the mover into a node. A scan keeps the children it may still
      choose in `open`; which of them has the best score is left open. */
  datatype Worker =
    | Idle
    | Entering(p: Path)
    | Inside(p: Path)
    | Scanning(p: Path, i: nat, stage: Stage, open: set<nat>, allWin: bool, allWinOrDraw: bool, hasDraw: bool)
    | Selected(p: Path, from: set<nat>)
    | Finished(p: Path, outcome: Option<Outcome>, value: real)

  /** Once the workers have joined, only the root guard still writes flags. */
  datatype State = State(flags: Path -> set<Outcome>, workers: seq<Worker>, joined: bool)

  /** One atomic step of worker `w`, or of the thread that owns the search. */
  datatype Action =
    | Start(w: nat)
    | TakeProven(w: nat, o: Outcome)
    | PassEdge(w: nat)
    | Adjudicate(w: nat)
    | LeafMate(w: nat)
    | NoMoves(w: nat)
    | Evaluate(w: nat, v: real)
    | BeginScan(w: nat)
    | ScanStep(w: nat)
    | EndScan(w: nat)
    | Descend(w: nat, child: nat)
    | Retire(w: nat)
    | RejectRootMove(child: nat)

  /** Sets a flag on the edge into a node; the root has no such edge. */
  function SetFlag(flags: Path -> set<Outcome>, p: Path, o: Outcome): Path -> set<Outcome> {
    (q: Path) => if q == p && p != [] then flags(q) + {o} else flags(q)
  }

  /** Marks the edge and ends the playout there. */
  function Resolve(g: Game, s: State, w: nat, p: Path, o: Outcome): State
    requires w < |s.workers|
  {
    s.(flags := SetFlag(s.flags, p, o), workers := s.workers[w := Finished(p, Some(o), MoverValue(o, g.drawValue(p)))])
  }

  ghost predicate AllIdle(s: State) { forall w: nat | w < |s.workers| :: s.workers[w].Idle? }

  /** With fewer than two root moves the search returns before any worker starts. */
  predicate HasChoice(g: Game) { g.childNum([]) > 1 }

  /** What the root guard asks before it probes a root move: no root move is proven to win, and
      this one is not yet proven to lose. */
  ghost predicate MayProbe(g: Game, s: State, child: nat) {
    && HasChoice(g) && child < g.childNum([]) && AllIdle(s) && Win !in s.flags([child])
    && forall c: nat | c < g.childNum([]) :: Loss !in s.flags([c])
  }

  /** A mate reported behind a root move. */
  ghost predicate RootMate(g: Game, child: nat) { HasMateWithin(g, [child], g.rootDepth) }

  ghost predicate Enabled(g: Game, s: State, a: Action) {
    match a
    case Start(w) => w < |s.workers| && s.workers[w].Idle? && !s.joined && HasChoice(g)
    case TakeProven(w, o) => w < |s.workers| && s.workers[w].Entering? && s.workers[w].p != [] && o in s.flags(s.workers[w].p)
    case PassEdge(w) => w < |s.workers| && s.workers[w].Entering? && (s.workers[w].p == [] || s.flags(s.workers[w].p) == {})
    case Adjudicate(w) => w < |s.workers| && s.workers[w].Inside? && Adjudicated(g, s.workers[w].p).Some?
    case LeafMate(w) =>
      w < |s.workers| && s.workers[w].Inside? && Adjudicated(g, s.workers[w].p).None? && MateReported(g, s.workers[w].p)
    case NoMoves(w) => w < |s.workers| && s.workers[w].Inside? && GoesOn(g, s.workers[w].p) && g.childNum(s.workers[w].p) == 0
    case Evaluate(w, v) => w < |s.workers| && s.workers[w].Inside? && GoesOn(g, s.workers[w].p) && g.childNum(s.workers[w].p) > 0
    case BeginScan(w) => w < |s.workers| && s.workers[w].Inside? && GoesOn(g, s.workers[w].p) && g.childNum(s.workers[w].p) > 0
    case ScanStep(w) => w < |s.workers| && s.workers[w].Scanning? && s.workers[w].i < g.childNum(s.workers[w].p)
    case EndScan(w) => w < |s.workers| && s.workers[w].Scanning? && s.workers[w].i == g.childNum(s.workers[w].p)
    case Descend(w, child) => w < |s.workers| && s.workers[w].Selected? && child in s.workers[w].from
    case Retire(w) => w < |s.workers| && s.workers[w].Finished?
    case RejectRootMove(child) => MayProbe(g, s, child) && RootMate(g, child)
  }

  /** The next load of the selection loop. */
  function Scan(g: Game, s: State, w: nat): State
    requires w < |s.workers| && s.workers[w].Scanning?
  {
    var k := s.workers[w];
    var seen := s.flags(k.p + [k.i]);
    match k.stage
    case ReadLose =>
      if Loss in seen then s.(flags := SetFlag(s.flags, k.p, Win), workers := s.workers[w := Selected(k.p, {k.i})])
      else s.(workers := s.workers[w := k.(stage := ReadWin)])
    case ReadWin =>
      if Win in seen then s.(workers := s.workers[w := k.(i := k.i + 1, stage := ReadLose)])
      else s.(workers := s.workers[w := k.(stage := ReadDraw, open := k.open + {k.i}, allWin := false)])
    case ReadDraw =>
      s.(workers := s.workers[w := if Draw in seen then k.(i := k.i + 1, stage := ReadLose, hasDraw := true)
                                   else k.(i := k.i + 1, stage := ReadLose, allWinOrDraw := false)])
  }

  function Next(g: Game, s: State, a: Action): State
    requires Enabled(g, s, a)
  {
    match a
    case Start(w) => s.(workers := s.workers[w := Entering([])])
    case TakeProven(w, o) =>
      var p := s.workers[w].p;
      s.(workers := s.workers[w := Finished(p, Some(o), MoverValue(o, g.drawValue(p)))])
    case PassEdge(w) => s.(workers := s.workers[w := Inside(s.workers[w].p)])
    case Adjudicate(w) => Resolve(g, s, w, s.workers[w].p, Adjudicated(g, s.workers[w].p).value)
    case LeafMate(w) => Resolve(g, s, w, s.workers[w].p, Win)
    case NoMoves(w) => Resolve(g, s, w, s.workers[w].p, Loss)
    case Evaluate(w, v) => s.(workers := s.workers[w := Finished(s.workers[w].p, None, v)])
    case BeginScan(w) => s.(workers := s.workers[w := Scanning(s.workers[w].p, 0, ReadLose, {}, true, true, false)])
    case ScanStep(w) => Scan(g, s, w)
    case EndScan(w) =>
      var k := s.workers[w];
      var flags :=
        if k.allWin then SetFlag(s.flags, k.p, Loss)
        else if k.allWinOrDraw && k.hasDraw then SetFlag(s.flags, k.p, Draw)
        else s.flags;
      s.(flags := flags, workers := s.workers[w := Selected(k.p, if k.allWin then {0} else k.open)])
    case Descend(w, child) => s.(workers := s.workers[w := Entering(s.workers[w].p + [child])])
    case Retire(w) => s.(workers := s.workers[w := Idle])
    case RejectRootMove(child) => s.(flags := SetFlag(s.flags, [child], Win), joined := true)
  }

  /** A run: any interleaving of enabled steps. */
  ghost predicate IsRun(g: Game, start: State, actions: seq<Action>, s: State)
    decreases |actions|
  {
    if actions == [] then s == start
    else
      var before, last := actions[..|actions| - 1], actions[|actions| - 1];
      exists s0: State :: IsRun(g, start, before, s0) && Leads(g, s0, last, s)
  }

  ghost predicate Leads(g: Game, s0: State, a: Action, s: State) {
    Enabled(g, s0, a) && s == Next(g, s0, a)
  }

  // ----- what every run keeps -----

  /** Flags tell the value the search works with, at nodes it can get to, but for wins the guard
      has added behind root moves. */
  ghost predicate TrueFlags(g: Game, flags: Path -> set<Outcome>, joined: bool) {
    forall p: Path, o: Outcome | o in flags(p) ::
      || (p != [] && Reached(g, p) && o == SearchValue(g, p))
      || (joined && HasChoice(g) && o == Win && |p| == 1 && p[0] < g.childNum([]) && RootMate(g, p[0]))
  }

  /** What a scanning worker has concluded from flags it read is true of the values, whatever
      has happened since. */
  ghost predicate TrueWorker(g: Game, k: Worker) {
    match k
    case Entering(p) => Reached(g, p)
    case Inside(p) => Reached(g, p)
    case Selected(p, from) => GoesOn(g, p) && Reached(g, p) && forall c | c in from :: c < g.childNum(p)
    case Scanning(p, i, stage, open, allWin, allWinOrDraw, hasDraw) =>
      && GoesOn(g, p) && Reached(g, p) && 0 < g.childNum(p) && i <= g.childNum(p)
      && (forall c | c in open :: c < g.childNum(p))
      && (allWin ==> forall c: nat | c < i :: SearchValue(g, p + [c]) == Win)
      && (allWinOrDraw ==> forall c: nat | c < i :: SearchValue(g, p + [c]) != Loss)
      && (hasDraw ==> exists c: nat :: c < i && SearchValue(g, p + [c]) == Draw)
      && (stage.ReadDraw? ==> !allWin)
    case Finished(p, outcome, value) =>
      outcome.Some? ==> outcome.value == SearchValue(g, p) && value == MoverValue(SearchValue(g, p), g.drawValue(p))
    case _ => true
  }

  ghost predicate Invariant(g: Game, s: State) {
    && TrueFlags(g, s.flags, s.joined) && (s.joined ==> AllIdle(s))
    && forall w: nat | w < |s.workers| :: TrueWorker(g, s.workers[w])
  }

  /** Where a search may start: its flags, new or kept from an earlier one, are true. */
  ghost predicate Begins(g: Game, s: State) {
    TrueFlags(g, s.flags, false) && AllIdle(s) && !s.joined
  }

  lemma SetTrueFlag(g: Game, flags: Path -> set<Outcome>, joined: bool, p: Path, o: Outcome)
    requires TrueFlags(g, flags, joined) && (p != [] ==> Reached(g, p) && o == SearchValue(g, p))
    ensures TrueFlags(g, SetFlag(flags, p, o), joined)
  {
    hide SearchValue, RootMate;
  }

  lemma ReplaceWorker(g: Game, s: State, flags: Path -> set<Outcome>, w: nat, k: Worker)
    requires Invariant(g, s) && TrueFlags(g, flags, false) && !s.joined && w < |s.workers| && TrueWorker(g, k)
    ensures Invariant(g, s.(flags := flags, workers := s.workers[w := k]))
  {
    hide TrueFlags, TrueWorker;
  }

  /** A reply that loses wins the node. */
  lemma OneLosingReplyFlags(g: Game, p: Path, i: nat)
    requires GoesOn(g, p) && i < g.childNum(p) && SearchValue(g, p + [i]) == Loss
    ensures SearchValue(g, p) == Win
  {
    hide HasMateWithin;
  }

  /** When every reply wins for the other side, the node is lost; when none loses and one
      draws, it is drawn. */
  lemma AllRepliesDecide(g: Game, p: Path)
    requires GoesOn(g, p) && 0 < g.childNum(p)
    ensures (forall c: nat | c < g.childNum(p) :: SearchValue(g, p + [c]) == Win) ==> SearchValue(g, p) == Loss
    ensures (forall c: nat | c < g.childNum(p) :: SearchValue(g, p + [c]) != Loss) ==>
              (exists c: nat :: c < g.childNum(p) && SearchValue(g, p + [c]) == Draw) ==> SearchValue(g, p) == Draw
  {
    hide HasMateWithin;
  }

  lemma FlagIsValue(g: Game, flags: Path -> set<Outcome>, p: Path, o: Outcome)
    requires TrueFlags(g, flags, false) && o in flags(p)
    ensures p != [] && Reached(g, p) && o == SearchValue(g, p)
  {
  }

  lemma RootReached(g: Game)
    ensures Reached(g, [])
  {
  }

  lemma ChildReached(g: Game, p: Path, i: nat)
    requires Reached(g, p) && GoesOn(g, p) && i < g.childNum(p)
    ensures Reached(g, p + [i])
  {
    var q := p + [i];
    forall k: nat | k < |q|
      ensures GoesOn(g, q[..k]) && q[k] < g.childNum(q[..k])
    {
      if k < |p| {
        assert q[..k] == p[..k];
      } else {
        assert q[..k] == p;
      }
    }
  }

  lemma {:induction false} ScanKeeps(g: Game, s: State, w: nat)
    requires Invariant(g, s) && !s.joined && w < |s.workers| && s.workers[w].Scanning? && s.workers[w].i < g.childNum(s.workers[w].p)
    ensures Invariant(g, Scan(g, s, w))
  {
    hide SearchValue, GoesOn, Invariant, TrueFlags;
    var k := s.workers[w];
    WorkerIsTrue(g, s, w);
    var child := k.p + [k.i];
    match k.stage
    case ReadLose =>
      if Loss in s.flags(child) {
        FlagIsValue(g, s.flags, child, Loss);
        OneLosingReplyFlags(g, k.p, k.i);
        SetTrueFlag(g, s.flags, false, k.p, Win);
        ReplaceWorker(g, s, SetFlag(s.flags, k.p, Win), w, Selected(k.p, {k.i}));
      } else {
        ReplaceWorker(g, s, s.flags, w, k.(stage := ReadWin));
      }
    case ReadWin =>
      if Win in s.flags(child) {
        FlagIsValue(g, s.flags, child, Win);
        ReplaceWorker(g, s, s.flags, w, k.(i := k.i + 1, stage := ReadLose));
      } else {
        ReplaceWorker(g, s, s.flags, w, k.(stage := ReadDraw, open := k.open + {k.i}, allWin := false));
      }
    case ReadDraw =>
      if Draw in s.flags(child) {
        FlagIsValue(g, s.flags, child, Draw);
        ReplaceWorker(g, s, s.flags, w, k.(i := k.i + 1, stage := ReadLose, hasDraw := true));
      } else {
        ReplaceWorker(g, s, s.flags, w, k.(i := k.i + 1, stage := ReadLose, allWinOrDraw := false));
      }
  }

  lemma WorkerIsTrue(g: Game, s: State, w: nat)
    requires Invariant(g, s) && w < |s.workers|
    ensures TrueWorker(g, s.workers[w]) && TrueFlags(g, s.flags, s.joined)
    ensures s.joined ==> s.workers[w].Idle?
  {
    hide TrueWorker, TrueFlags;
  }

  lemma {:induction false} EndScanKeeps(g: Game, s: State, w: nat)
    requires Invariant(g, s) && Enabled(g, s, EndScan(w))
    ensures Invariant(g, Next(g, s, EndScan(w)))
  {
    hide SearchValue, GoesOn, Invariant, TrueFlags;
    var k := s.workers[w];
    WorkerIsTrue(g, s, w);
    AllRepliesDecide(g, k.p);
    var flags := Next(g, s, EndScan(w)).flags;
    if k.allWin {
      SetTrueFlag(g, s.flags, false, k.p, Loss);
    } else if k.allWinOrDraw && k.hasDraw {
      SetTrueFlag(g, s.flags, false, k.p, Draw);
    }
    ReplaceWorker(g, s, flags, w, Selected(k.p, if k.allWin then {0} else k.open));
  }

  lemma ResolveKeeps(g: Game, s: State, w: nat, p: Path, o: Outcome)
    requires Invariant(g, s) && !s.joined && w < |s.workers| && Reached(g, p) && o == SearchValue(g, p)
    ensures Invariant(g, Resolve(g, s, w, p, o))
  {
    hide SearchValue, Invariant, TrueFlags;
    WorkerIsTrue(g, s, w);
    SetTrueFlag(g, s.flags, false, p, o);
    ReplaceWorker(g, s, SetFlag(s.flags, p, o), w, Finished(p, Some(o), MoverValue(o, g.drawValue(p))));
  }

  lemma VerdictIsValue(g: Game, p: Path)
    ensures Adjudicated(g, p).Some? ==> SearchValue(g, p) == Adjudicated(g, p).value
    ensures Adjudicated(g, p).None? && MateReported(g, p) ==> SearchValue(g, p) == Win
    ensures GoesOn(g, p) && g.childNum(p) == 0 ==> SearchValue(g, p) == Loss
  {
    hide HasMateWithin;
  }

  /** Every step of every worker keeps all flags and all conclusions true. */
  lemma {:induction false} StepKeepsInvariant(g: Game, s: State, a: Action)
    requires Invariant(g, s) && Enabled(g, s, a)
    ensures Invariant(g, Next(g, s, a))
  {
    hide SearchValue, Adjudicated, Invariant, TrueFlags, MateReported, Reached;
    if !a.RejectRootMove? {
      WorkerIsTrue(g, s, a.w);
      if s.workers[a.w].Inside? {
        VerdictIsValue(g, s.workers[a.w].p);
      }
    }
    match a
    case Start(w) =>
      RootReached(g);
      ReplaceWorker(g, s, s.flags, w, Entering([]));
    case TakeProven(w, o) =>
      FlagIsValue(g, s.flags, s.workers[w].p, o);
      ReplaceWorker(g, s, s.flags, w, Finished(s.workers[w].p, Some(o), MoverValue(o, g.drawValue(s.workers[w].p))));
    case PassEdge(w) => ReplaceWorker(g, s, s.flags, w, Inside(s.workers[w].p));
    case Adjudicate(w) => ResolveKeeps(g, s, w, s.workers[w].p, Adjudicated(g, s.workers[w].p).value);
    case LeafMate(w) => ResolveKeeps(g, s, w, s.workers[w].p, Win);
    case NoMoves(w) => ResolveKeeps(g, s, w, s.workers[w].p, Loss);
    case Evaluate(w, v) => ReplaceWorker(g, s, s.flags, w, Finished(s.workers[w].p, None, v));
    case BeginScan(w) => ReplaceWorker(g, s, s.flags, w, Scanning(s.workers[w].p, 0, ReadLose, {}, true, true, false));
    case ScanStep(w) => ScanKeeps(g, s, w);
    case EndScan(w) => EndScanKeeps(g, s, w);
    case Descend(w, child) =>
      ChildReached(g, s.workers[w].p, child);
      ReplaceWorker(g, s, s.flags, w, Entering(s.workers[w].p + [child]));
    case Retire(w) => ReplaceWorker(g, s, s.flags, w, Idle);
    case RejectRootMove(child) => RejectKeeps(g, s, child);
  }

  /** The guard adds a win behind a root move and nothing else. */
  lemma {:induction false} RejectKeeps(g: Game, s: State, child: nat)
    requires Invariant(g, s) && Enabled(g, s, RejectRootMove(child))
    ensures Invariant(g, Next(g, s, RejectRootMove(child)))
  {
    hide SearchValue, RootMate, Reached;
    var flags := SetFlag(s.flags, [child], Win);
    forall p: Path, o: Outcome | o in flags(p)
      ensures || (p != [] && Reached(g, p) && o == SearchValue(g, p))
              || (o == Win && |p| == 1 && p[0] < g.childNum([]) && RootMate(g, p[0]))
    {
      if p == [child] && o == Win {
        assert p[0] == child;
      }
    }
  }

  lemma {:induction false} RunsKeepInvariant(g: Game, start: State, actions: seq<Action>, s: State)
    requires Begins(g, start) && IsRun(g, start, actions, s)
    ensures Invariant(g, s)
    decreases |actions|
  {
    hide SearchValue, Leads, RootMate, TrueWorker, Reached;
    if actions != [] {
      var before, last := actions[..|actions| - 1], actions[|actions| - 1];
      var s0: State :| IsRun(g, start, before, s0) && Leads(g, s0, last, s);
      RunsKeepInvariant(g, start, before, s0);
      LeadsKeeps(g, s0, last, s);
    } else {
      IdleIsTrue(g, s);
    }
  }

  /** A search does something exactly when there are at least two root moves to choose from. */
  lemma {:induction false} SearchNeedsAChoice(g: Game, start: State)
    requires Begins(g, start) && |start.workers| > 0
    ensures (exists a: Action :: Enabled(g, start, a)) <==> g.childNum([]) >= 2
  {
    hide TrueFlags, RootMate, Adjudicated, MateReported;
    if g.childNum([]) >= 2 {
      assert Enabled(g, start, Start(0));
    }
  }

  lemma IdleIsTrue(g: Game, s: State)
    requires AllIdle(s)
    ensures forall w: nat | w < |s.workers| :: TrueWorker(g, s.workers[w])
  {
  }

  lemma LeadsKeeps(g: Game, s0: State, a: Action, s: State)
    requires Invariant(g, s0) && Leads(g, s0, a, s)
    ensures Invariant(g, s)
  {
    hide Invariant, Enabled, Next;
    StepKeepsInvariant(g, s0, a);
  }

  /** Flags are never taken back. */
  lemma FlagsGrow(g: Game, s0: State, a: Action, s: State, p: Path)
    requires Leads(g, s0, a, s)
    ensures s0.flags(p) <= s.flags(p)
    ensures a.RejectRootMove? ==> Win !in s0.flags([a.child]) && Win in s.flags([a.child])
  {
    hide RootMate, Adjudicated, MateReported;
  }

  /** What the guard has rejected stays flagged, so it rejects every root move at most once. */
  lemma {:induction false} RejectedOnce(g: Game, start: State, actions: seq<Action>, s: State, child: nat)
    requires IsRun(g, start, actions, s) && RejectRootMove(child) in actions
    ensures Win in s.flags([child]) && !Enabled(g, s, RejectRootMove(child))
    decreases |actions|
  {
    hide Leads, RootMate;
    var before, last := actions[..|actions| - 1], actions[|actions| - 1];
    var s0: State :| IsRun(g, start, before, s0) && Leads(g, s0, last, s);
    FlagsGrow(g, s0, last, s, [child]);
    if last != RejectRootMove(child) {
      assert RejectRootMove(child) in before;
      RejectedOnce(g, start, before, s0, child);
    }
  }

  /** Under every interleaving of the workers no edge ever holds two different flags, and the one
      it holds is the value of the node behind it under the verdicts and mates the search goes
      by. */
  lemma {:induction false} FlagsNeverConflict(g: Game, start: State, actions: seq<Action>, s: State, p: Path, a: Outcome, b: Outcome)
    requires Begins(g, start) && IsRun(g, start, actions, s) && !s.joined && a in s.flags(p) && b in s.flags(p)
    ensures a == b == SearchValue(g, p)
  {
    hide SearchValue, IsRun, TrueWorker, RootMate, Reached;
    RunsKeepInvariant(g, start, actions, s);
    FlagIsValue(g, s.flags, p, a);
    FlagIsValue(g, s.flags, p, b);
  }

  /** A playout that ends on a proven node is credited with exactly that node's value. */
  lemma {:induction false} ProvenPlayoutsAreExact(g: Game, start: State, actions: seq<Action>, s: State, w: nat)
    requires Begins(g, start) && IsRun(g, start, actions, s)
    requires w < |s.workers| && s.workers[w].Finished? && s.workers[w].outcome.Some?
    ensures s.workers[w].outcome.value == SearchValue(g, s.workers[w].p)
    ensures s.workers[w].value == MoverValue(SearchValue(g, s.workers[w].p), g.drawValue(s.workers[w].p))
    ensures s.workers[w].outcome.value == Loss ==> s.workers[w].value == 1.0
    ensures s.workers[w].outcome.value == Win ==> s.workers[w].value == 0.0
  {
    hide SearchValue, IsRun, TrueFlags, Reached;
    RunsKeepInvariant(g, start, actions, s);
    WorkerIsTrue(g, s, w);
  }
}
