/** What one worker alone can bring about: from a tree without flags it can get to every node the
    search reaches, and leave there the flag of its value. */
module MctsRuns {
  import opened MctsGame
  import opened MctsFlags

  ghost predicate Leadable(g: Game, start: State, s: State) {
    exists actions: seq<Action> :: IsRun(g, start, actions, s)
  }

  function NoFlags(): Path -> set<Outcome> { (p: Path) => {} }

  /** A tree without flags and one idle worker. */
  function Fresh(): State { State(NoFlags(), [Idle], false) }

  lemma FreshBegins(g: Game)
    ensures Begins(g, Fresh()) && Invariant(g, Fresh()) && Leadable(g, Fresh(), Fresh())
  {
    assert IsRun(g, Fresh(), [], Fresh());
  }

  lemma Extend(g: Game, start: State, s: State, a: Action)
    requires Leadable(g, start, s) && Enabled(g, s, a)
    ensures Leadable(g, start, Next(g, s, a))
  {
    hide Enabled, Next;
    var actions: seq<Action> :| IsRun(g, start, actions, s);
    var all := actions + [a];
    assert all[..|all| - 1] == actions;
    assert Leads(g, s, a, Next(g, s, a));
    assert IsRun(g, start, all, Next(g, s, a));
  }

  /** The one worker stands at `k`. */
  ghost predicate At(g: Game, start: State, s: State, k: Worker) {
    Leadable(g, start, s) && Invariant(g, s) && s.workers == [k] && !s.joined
  }

  lemma Step(g: Game, start: State, s: State, a: Action) returns (t: State)
    requires |s.workers| == 1 && At(g, start, s, s.workers[0]) && Enabled(g, s, a) && !a.RejectRootMove?
    ensures t == Next(g, s, a) && |t.workers| == 1 && At(g, start, t, t.workers[0])
  {
    t := Next(g, s, a);
    OneWorker(g, s, a);
    hide Enabled, Next, Invariant, Leadable;
    Extend(g, start, s, a);
    StepKeepsInvariant(g, s, a);
  }

  lemma OneWorker(g: Game, s: State, a: Action)
    requires |s.workers| == 1 && Enabled(g, s, a) && !a.RejectRootMove? && !s.joined
    ensures |Next(g, s, a).workers| == 1 && !Next(g, s, a).joined
  {
    hide Adjudicated, MateReported, Reached;
  }

  /** No flag is lost, and none is set but at `p` and below. */
  ghost predicate Grows(s: State, t: State, p: Path) {
    forall q: Path :: s.flags(q) <= t.flags(q) && (!(p <= q) ==> t.flags(q) == s.flags(q))
  }

  /** Nothing keeps a worker from walking down to `p`: no flag on the way, and no loss next to it. */
  ghost predicate Clear(s: State, p: Path) {
    forall k: nat | k < |p| :: ClearEdge(s, p, k)
  }

  ghost predicate ClearEdge(s: State, p: Path, k: nat)
    requires k < |p|
  {
    s.flags(p[..k + 1]) == {} && forall i: nat :: Loss !in s.flags(p[..k] + [i])
  }

  ghost predicate Untouched(s: State, p: Path) {
    forall q: Path | p <= q :: s.flags(q) == {}
  }

  // ----- walking down -----

  /** What a scan that has seen no loss knows of the unflagged child `c`. */
  ghost predicate Passing(k: Worker, c: nat)
    requires k.Scanning?
  {
    || k.i < c
    || (k.i == c && (k.stage.ReadDraw? ==> c in k.open && !k.allWin))
    || (k.i > c && c in k.open && !k.allWin && !k.allWinOrDraw)
  }

  lemma PassOnce(g: Game, s: State, c: nat)
    requires |s.workers| == 1 && s.workers[0].Scanning? && Passing(s.workers[0], c)
    requires var p := s.workers[0].p; s.flags(p + [c]) == {} && forall i: nat :: Loss !in s.flags(p + [i])
    ensures var k := s.workers[0]; var t := Scan(g, s, 0);
            && t.flags == s.flags && |t.workers| == 1 && t.workers[0].Scanning? && t.workers[0].p == k.p && Passing(t.workers[0], c)
            && (t.workers[0].i > k.i || (t.workers[0].i == k.i && Rank(t.workers[0].stage) < Rank(k.stage)))
  {
  }

  function Rank(stage: Stage): nat {
    match stage
    case ReadLose => 2
    case ReadWin => 1
    case ReadDraw => 0
  }

  /** A scan that meets no loss leaves the unflagged child to choose, and sets no flag. */
  lemma {:induction false} ScanPast(g: Game, start: State, s: State, c: nat) returns (t: State)
    requires |s.workers| == 1 && s.workers[0].Scanning? && At(g, start, s, s.workers[0]) && c < g.childNum(s.workers[0].p)
    requires var p := s.workers[0].p; s.flags(p + [c]) == {} && forall i: nat :: Loss !in s.flags(p + [i])
    requires Passing(s.workers[0], c)
    ensures t.flags == s.flags && |t.workers| == 1 && t.workers[0].Selected? && t.workers[0].p == s.workers[0].p && c in t.workers[0].from
    ensures At(g, start, t, t.workers[0])
    decreases g.childNum(s.workers[0].p) - s.workers[0].i, Rank(s.workers[0].stage)
  {
    hide Invariant, Leadable;
    ScanningBounds(g, s);
    if s.workers[0].i == g.childNum(s.workers[0].p) {
      t := Step(g, start, s, EndScan(0));
    } else {
      PassOnce(g, s, c);
      var s1 := Step(g, start, s, ScanStep(0));
      t := ScanPast(g, start, s1, c);
    }
  }

  lemma ScanningBounds(g: Game, s: State)
    requires Invariant(g, s) && |s.workers| == 1 && s.workers[0].Scanning?
    ensures s.workers[0].i <= g.childNum(s.workers[0].p)
  {
    WorkerIsTrue(g, s, 0);
  }

  /** The worker walks down to a node the search reaches. */
  lemma {:induction false} Enter(g: Game, start: State, s: State, p: Path) returns (t: State)
    requires At(g, start, s, Idle) && HasChoice(g) && Reached(g, p) && Clear(s, p)
    ensures At(g, start, t, Inside(p)) && t.flags == s.flags
    decreases |p|
  {
    hide SearchValue, Invariant, Reached, Leadable, GoesOn;
    if p == [] {
      t := Step(g, start, s, Start(0));
    } else {
      var q, i := p[..|p| - 1], p[|p| - 1];
      ParentReached(g, p);
      ParentClear(s, p);
      var s1 := Enter(g, start, s, q);
      var s2 := Step(g, start, s1, BeginScan(0));
      var s3 := ScanPast(g, start, s2, i);
      t := Step(g, start, s3, Descend(0, i));
    }
    t := Step(g, start, t, PassEdge(0));
  }

  lemma ParentReached(g: Game, p: Path)
    requires Reached(g, p) && p != []
    ensures var q := p[..|p| - 1]; Reached(g, q) && GoesOn(g, q) && p[|p| - 1] < g.childNum(q)
  {
    var q := p[..|p| - 1];
    assert forall k: nat | k < |q| :: q[..k] == p[..k];
  }

  lemma ParentClear(s: State, p: Path)
    requires Clear(s, p) && p != []
    ensures var q := p[..|p| - 1];
            && Clear(s, q) && q + [p[|p| - 1]] == p && s.flags(p) == {} && forall i: nat :: Loss !in s.flags(q + [i])
  {
    var q := p[..|p| - 1];
    forall k: nat | k < |q|
      ensures ClearEdge(s, q, k)
    {
      assert ClearEdge(s, p, k);
      assert q[..k + 1] == p[..k + 1] && q[..k] == p[..k];
    }
    assert ClearEdge(s, p, |q|);
    assert p[..|q| + 1] == p;
  }

  // ----- scanning decided children -----

  /** A scan that must meet a loss stops at one and flags the node won. */
  lemma {:induction false} ScanFinds(g: Game, start: State, s: State, c: nat) returns (t: State)
    requires |s.workers| == 1 && s.workers[0].Scanning? && At(g, start, s, s.workers[0]) && s.workers[0].p != []
    requires Loss in s.flags(s.workers[0].p + [c]) && c < g.childNum(s.workers[0].p)
    requires s.workers[0].i < c || (s.workers[0].i == c && s.workers[0].stage.ReadLose?)
    ensures Grows(s, t, s.workers[0].p) && Win in t.flags(s.workers[0].p)
    ensures |t.workers| == 1 && At(g, start, t, t.workers[0])
    ensures exists j: nat :: t.workers[0] == Selected(s.workers[0].p, {j}) && Loss in t.flags(s.workers[0].p + [j])
    decreases g.childNum(s.workers[0].p) - s.workers[0].i, Rank(s.workers[0].stage)
  {
    hide Invariant, Leadable;
    var k := s.workers[0];
    var s1 := Step(g, start, s, ScanStep(0));
    if s1.workers[0].Scanning? {
      t := ScanFinds(g, start, s1, c);
    } else {
      t := s1;
      assert t.workers[0] == Selected(k.p, {k.i});
    }
  }

  /** Every child carries the flag of its value, and none is a loss. */
  ghost predicate Settled(g: Game, s: State, p: Path) {
    forall j: nat | j < g.childNum(p) :: s.flags(p + [j]) == {SearchValue(g, p + [j])} != {Loss}
  }

  /** What a scan of settled children has found so far. */
  ghost predicate Exact(g: Game, k: Worker)
    requires k.Scanning?
  {
    && k.allWinOrDraw && (k.allWin <==> k.open == {})
    && (k.hasDraw <==> exists j: nat :: j < k.i && SearchValue(g, k.p + [j]) == Draw)
    && (k.allWin <==> !k.stage.ReadDraw? && forall j: nat | j < k.i :: SearchValue(g, k.p + [j]) == Win)
    && (k.stage.ReadDraw? ==> k.i < g.childNum(k.p) && SearchValue(g, k.p + [k.i]) != Win)
  }

  lemma SettledOnce(g: Game, s: State)
    requires |s.workers| == 1 && s.workers[0].Scanning? && s.workers[0].i < g.childNum(s.workers[0].p)
    requires Settled(g, s, s.workers[0].p) && Exact(g, s.workers[0])
    ensures var k := s.workers[0]; var t := Scan(g, s, 0);
            && t.flags == s.flags && |t.workers| == 1 && t.workers[0].Scanning? && t.workers[0].p == k.p && Exact(g, t.workers[0])
            && (t.workers[0].i > k.i || (t.workers[0].i == k.i && Rank(t.workers[0].stage) < Rank(k.stage)))
  {
    hide SearchValue;
    var k := s.workers[0];
    assert s.flags(k.p + [k.i]) == {SearchValue(g, k.p + [k.i])};
  }

  lemma SettledEnds(g: Game, s: State)
    requires Invariant(g, s) && |s.workers| == 1 && s.workers[0].Scanning? && s.workers[0].i == g.childNum(s.workers[0].p)
    requires s.workers[0].p != [] && Settled(g, s, s.workers[0].p) && Exact(g, s.workers[0])
    ensures var p := s.workers[0].p; var t := Next(g, s, EndScan(0));
            Grows(s, t, p) && SearchValue(g, p) in t.flags(p) && t.workers[0].Selected? && t.workers[0].p == p && t.workers[0].from != {}
  {
    hide SearchValue, Invariant, TrueFlags, Reached;
    var k := s.workers[0];
    WorkerIsTrue(g, s, 0);
    AllRepliesDecide(g, k.p);
    assert forall j: nat | j < g.childNum(k.p) :: SearchValue(g, k.p + [j]) != Loss;
  }

  /** A scan over settled children leaves the flag of the node's value. */
  lemma {:induction false} ScanSettled(g: Game, start: State, s: State) returns (t: State)
    requires |s.workers| == 1 && s.workers[0].Scanning? && At(g, start, s, s.workers[0]) && s.workers[0].p != []
    requires Settled(g, s, s.workers[0].p) && Exact(g, s.workers[0])
    ensures Grows(s, t, s.workers[0].p) && SearchValue(g, s.workers[0].p) in t.flags(s.workers[0].p)
    ensures |t.workers| == 1 && At(g, start, t, t.workers[0]) && t.workers[0].Selected? && t.workers[0].p == s.workers[0].p && t.workers[0].from != {}
    decreases g.childNum(s.workers[0].p) - s.workers[0].i, Rank(s.workers[0].stage)
  {
    hide SearchValue, Invariant, Leadable, Exact, Settled;
    ScanningBounds(g, s);
    if s.workers[0].i == g.childNum(s.workers[0].p) {
      SettledEnds(g, s);
      t := Step(g, start, s, EndScan(0));
    } else {
      SettledOnce(g, s);
      var s1 := Step(g, start, s, ScanStep(0));
      SettledStays(g, s, s1, s.workers[0].p);
      t := ScanSettled(g, start, s1);
    }
  }

  lemma SettledStays(g: Game, s: State, t: State, p: Path)
    requires Settled(g, s, p) && t.flags == s.flags
    ensures Settled(g, t, p)
  {
    hide SearchValue;
  }

  // ----- settling a node -----

  /** The playout goes on to a flagged child and ends there. */
  lemma Leave(g: Game, start: State, s: State, c: nat, o: Outcome) returns (t: State)
    requires |s.workers| == 1 && At(g, start, s, s.workers[0]) && s.workers[0].Selected? && c in s.workers[0].from
    requires o in s.flags(s.workers[0].p + [c])
    ensures At(g, start, t, Idle) && t.flags == s.flags
  {
    hide Invariant, Leadable;
    var s1 := Step(g, start, s, Descend(0, c));
    var s2 := Step(g, start, s1, TakeProven(0, o));
    t := Step(g, start, s2, Retire(0));
  }

  /** The worker at `p` ends its playout there with a flag. */
  lemma EndsAt(g: Game, start: State, s: State, p: Path, a: Action) returns (t: State)
    requires At(g, start, s, Inside(p)) && p != []
    requires a in {Adjudicate(0), LeafMate(0), NoMoves(0)} && Enabled(g, s, a)
    ensures At(g, start, t, Idle) && Grows(s, t, p) && SearchValue(g, p) in t.flags(p)
  {
    VerdictIsValue(g, p);
    hide SearchValue, Invariant, Reached, Leadable, Adjudicated, MateReported;
    var s1 := Step(g, start, s, a);
    t := Step(g, start, s1, Retire(0));
  }

  /** A node the search reaches can be brought to carry the flag of its value, with nothing
      changed but there and below. */
  lemma {:induction false} Settle(g: Game, start: State, s: State, p: Path) returns (t: State)
    requires At(g, start, s, Idle) && HasChoice(g) && Reached(g, p) && p != [] && Clear(s, p) && Untouched(s, p)
    ensures At(g, start, t, Idle) && Grows(s, t, p) && SearchValue(g, p) in t.flags(p)
    decreases g.maxMovesToDraw + 1 - g.rootPly - |p|, 1, 0
  {
    hide SearchValue, Invariant, Reached, Leadable, Adjudicated, MateReported, Clear, Untouched, Grows;
    if Adjudicated(g, p).Some? || MateReported(g, p) || g.childNum(p) == 0 {
      var s1 := Enter(g, start, s, p);
      t := EndsAt(g, start, s1, p, if Adjudicated(g, p).Some? then Adjudicate(0) else if MateReported(g, p) then LeafMate(0) else NoMoves(0));
      SameFlagsGrow(s, s1, t, p);
    } else {
      GoesOnBelowLimit(g, p);
      if c: nat :| c < g.childNum(p) && SearchValue(g, p + [c]) == Loss {
        ChildReached(g, p, c);
        NothingYet(g, s, p);
        HalfIsClear(g, s, p, 0, c);
        var s1 := Settle(g, start, s, p + [c]);
        GrowsAbove(s, s1, p, c);
        t := SettleByLoss(g, start, s1, p, c);
        GrowsOn(s, s1, t, p);
      } else {
        NothingYet(g, s, p);
        var s1 := SettleChildren(g, start, s, p, g.childNum(p));
        AllSettled(g, s1, p);
        t := SettleFromChildren(g, start, s1, p);
        GrowsOn(s, s1, t, p);
      }
    }
  }

  /** The first `n` children, none a loss, carry their flags; the others and what is below them
      carry none. */
  ghost predicate Half(g: Game, s: State, p: Path, n: nat) {
    && Clear(s, p)
    && (forall j: nat | j < n :: s.flags(p + [j]) == {SearchValue(g, p + [j])} != {Loss})
    && forall j: nat | j >= n :: Untouched(s, p + [j])
  }

  lemma NothingYet(g: Game, s: State, p: Path)
    requires Clear(s, p) && Untouched(s, p)
    ensures Half(g, s, p, 0)
  {
    hide Clear;
    forall j: nat, q: Path | p + [j] <= q
      ensures s.flags(q) == {}
    {
      assert p <= p + [j];
    }
  }

  /** The way is clear to a child that carries no flag yet. */
  lemma HalfIsClear(g: Game, s: State, p: Path, n: nat, c: nat)
    requires Half(g, s, p, n) && c >= n
    ensures Clear(s, p + [c]) && Untouched(s, p + [c])
  {
    hide SearchValue;
    var q := p + [c];
    forall k: nat | k < |q|
      ensures ClearEdge(s, q, k)
    {
      if k < |p| {
        assert ClearEdge(s, p, k);
        assert q[..k + 1] == p[..k + 1] && q[..k] == p[..k];
      } else {
        assert q[..k + 1] == q && q[..k] == p;
        forall i: nat
          ensures Loss !in s.flags(p + [i])
        {
          assert i >= n ==> Untouched(s, p + [i]);
        }
      }
    }
  }

  lemma GrowsAbove(s: State, t: State, p: Path, c: nat)
    requires Grows(s, t, p + [c])
    ensures Grows(s, t, p) && (Clear(s, p) ==> Clear(t, p))
  {
    assert p <= p + [c];
    if Clear(s, p) {
      forall k: nat | k < |p|
        ensures ClearEdge(t, p, k)
      {
        assert ClearEdge(s, p, k);
        assert |p[..k + 1]| < |p + [c]|;
        assert forall i: nat :: |p[..k] + [i]| < |p + [c]|;
      }
    }
  }

  lemma HalfGrows(g: Game, s: State, t: State, p: Path, n: nat)
    requires Half(g, s, p, n) && Grows(s, t, p + [n]) && t.flags(p + [n]) == {SearchValue(g, p + [n])} != {Loss}
    ensures Half(g, t, p, n + 1) && Grows(s, t, p)
  {
    hide SearchValue, Clear;
    GrowsAbove(s, t, p, n);
    forall j: nat | j < n
      ensures t.flags(p + [j]) == {SearchValue(g, p + [j])} != {Loss}
    {
      assert (p + [j])[|p|] == j && (p + [n])[|p|] == n;
    }
    forall j: nat, q: Path | j > n && p + [j] <= q
      ensures t.flags(q) == {}
    {
      assert Untouched(s, p + [j]);
      assert q[|p|] == j && (p + [n])[|p|] == n;
    }
  }

  lemma AllSettled(g: Game, s: State, p: Path)
    requires Half(g, s, p, g.childNum(p))
    ensures Settled(g, s, p) && Clear(s, p)
  {
    hide SearchValue, Clear;
  }

  lemma {:induction false} SettleChildren(g: Game, start: State, s: State, p: Path, n: nat) returns (t: State)
    requires At(g, start, s, Idle) && HasChoice(g) && Reached(g, p) && GoesOn(g, p) && p != [] && n <= g.childNum(p)
    requires g.rootPly + |p| <= g.maxMovesToDraw && Half(g, s, p, 0)
    requires forall j: nat | j < g.childNum(p) :: SearchValue(g, p + [j]) != Loss
    ensures At(g, start, t, Idle) && Grows(s, t, p) && Half(g, t, p, n)
    decreases g.maxMovesToDraw + 1 - g.rootPly - |p|, 0, n
  {
    hide SearchValue, Invariant, Reached, Leadable, GoesOn, Half, Clear, Untouched, Grows;
    if n == 0 {
      t := s;
      GrowsNot(s, p);
    } else {
      var s1 := SettleChildren(g, start, s, p, n - 1);
      ChildReached(g, p, n - 1);
      HalfIsClear(g, s1, p, n - 1, n - 1);
      t := Settle(g, start, s1, p + [n - 1]);
      OnlyItsValue(g, t, p + [n - 1]);
      HalfGrows(g, s1, t, p, n - 1);
      GrowsOn(s, s1, t, p);
    }
  }

  lemma GrowsNot(s: State, p: Path)
    ensures Grows(s, s, p)
  {
  }

  /** A settled node has its value as its only flag. */
  lemma OnlyItsValue(g: Game, s: State, p: Path)
    requires Invariant(g, s) && !s.joined && SearchValue(g, p) in s.flags(p)
    ensures s.flags(p) == {SearchValue(g, p)}
  {
    hide SearchValue, Reached, TrueWorker;
  }

  /** With a lost child flagged one more playout settles the node. */
  lemma SettleByLoss(g: Game, start: State, s: State, p: Path, c: nat) returns (t: State)
    requires At(g, start, s, Idle) && HasChoice(g) && Reached(g, p) && GoesOn(g, p) && p != [] && Clear(s, p)
    requires c < g.childNum(p) && Loss in s.flags(p + [c]) && SearchValue(g, p + [c]) == Loss
    ensures At(g, start, t, Idle) && Grows(s, t, p) && SearchValue(g, p) in t.flags(p)
  {
    hide SearchValue, Invariant, Reached, Leadable, GoesOn, Clear, Grows;
    OneLosingReplyFlags(g, p, c);
    var s1 := Enter(g, start, s, p);
    var s2 := Step(g, start, s1, BeginScan(0));
    var s3 := ScanFinds(g, start, s2, c);
    SameFlagsGrow(s, s2, s3, p);
    var j: nat :| s3.workers[0] == Selected(p, {j}) && Loss in s3.flags(p + [j]);
    t := Leave(g, start, s3, j, Loss);
    FlagsGrow(s, s3, t, p);
  }

  lemma FlagsGrow(s: State, t: State, u: State, p: Path)
    requires Grows(s, t, p) && u.flags == t.flags
    ensures Grows(s, u, p)
  {
  }

  /** With its children settled one more playout settles the node. */
  lemma SettleFromChildren(g: Game, start: State, s: State, p: Path) returns (t: State)
    requires At(g, start, s, Idle) && HasChoice(g) && Reached(g, p) && GoesOn(g, p) && p != [] && 0 < g.childNum(p)
    requires Settled(g, s, p) && Clear(s, p)
    ensures At(g, start, t, Idle) && Grows(s, t, p) && SearchValue(g, p) in t.flags(p)
  {
    hide SearchValue, Invariant, Reached, Leadable, GoesOn, Settled, Clear, Grows;
    var s1 := Enter(g, start, s, p);
    var s2 := Step(g, start, s1, BeginScan(0));
    SettledStays(g, s, s2, p);
    var s3 := ScanSettled(g, start, s2);
    SameFlagsGrow(s, s2, s3, p);
    var c :| c in s3.workers[0].from;
    ChoiceIsFlagged(g, s2, s3, p, c);
    t := Leave(g, start, s3, c, SearchValue(g, p + [c]));
    FlagsGrow(s, s3, t, p);
  }

  lemma ChoiceIsFlagged(g: Game, s: State, t: State, p: Path, c: nat)
    requires Settled(g, s, p) && Grows(s, t, p) && Invariant(g, t) && |t.workers| == 1 && t.workers[0].Selected? && t.workers[0].p == p && c in t.workers[0].from
    ensures SearchValue(g, p + [c]) in t.flags(p + [c])
  {
    hide SearchValue, Reached, GoesOn, TrueFlags;
    WorkerIsTrue(g, t, 0);
    assert SearchValue(g, p + [c]) in s.flags(p + [c]);
  }

  lemma GoesOnBelowLimit(g: Game, p: Path)
    requires Adjudicated(g, p).None?
    ensures g.rootPly + |p| <= g.maxMovesToDraw
  {
  }

  lemma SameFlagsGrow(s: State, s1: State, t: State, p: Path)
    requires s1.flags == s.flags && Grows(s1, t, p)
    ensures Grows(s, t, p)
  {
  }

  lemma GrowsOn(s: State, s1: State, t: State, p: Path)
    requires Grows(s, s1, p) && Grows(s1, t, p)
    ensures Grows(s, t, p)
  {
  }
}
