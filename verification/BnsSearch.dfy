/** The recursive threshold search of the branch-number solver over its transposition
    table, up to the first verdict that depends on the route taken. */
module BnsSearch {
  import opened MateGame
  import opened Repetitions
  import opened BnsArith
  import opened BnsTable
  import opened BnsGame

  /** Every move strictly lowers the height, and the board's history lies above it: no
      position can come back, and the depth limit is out of reach. */
  ghost predicate Descending(g: Setting, height: Pos -> nat, run: Run, ply: nat)
    requires |run| > 0
  {
    && (forall p: Pos, m: Move | p in g.universe && m in g.rules.legal(p) :: height(g.rules.play(p, m)) < height(p))
    && (forall i: nat | i + 1 < |run| :: height(run[i]) > height(Last(run)))
    && ply + height(Last(run)) < g.maxPly
  }

  lemma DescendingStep(g: Setting, height: Pos -> nat, run: Run, ply: nat, m: Move)
    requires |run| > 0 && Last(run) in g.universe && m in g.rules.legal(Last(run)) && Descending(g, height, run, ply)
    ensures Descending(g, height, run + [g.rules.play(Last(run), m)], ply + 1) && ply + 1 < g.maxPly
    ensures forall i: nat | i < |run| :: run[i] != g.rules.play(Last(run), m)
    ensures CheckRepetition(g.rules, run + [g.rules.play(Last(run), m)], REPETITION_LOOKBACK) == NoRepetition
  {
    var q := g.rules.play(Last(run), m);
    assert height(q) < height(Last(run));
    forall i: nat | i < |run|
      ensures height(run[i]) > height(q)
    {
    }
    var limit := if 0 < REPETITION_LOOKBACK < |run| then REPETITION_LOOKBACK else |run|;
    NoReturnNoRepetition(g.rules, run + [q], 4, limit);
  }

  lemma RewriteKeepsScan(slots: seq<BnsTTEntry>, i: nat, e: BnsTTEntry, b: nat, tag: nat)
    requires i < |slots| && e.tag == slots[i].tag && b + CLUSTER_SIZE <= |slots|
    ensures FullScan(slots[i := e], b, tag) == FullScan(slots, b, tag)
  {
  }

  const EXTRACTION_BUDGET: nat := 4_000_000

  class MateBnsSolver {
    const g: Setting
    const tt: BnsTT
    const rootMate3Checks: nat
    const stopAfter: nat
    var polls: nat
    var nodeEntries: nat
    var nodesLimit: nat
    var limitHit: bool
    var routeDependent: bool
    var pathHashes: seq<Pos>
    var extractionSteps: nat

    constructor (g: Setting, policy: VictimPolicy, rootMate3Checks: nat, stopAfter: nat)
      ensures this.g == g && this.stopAfter == stopAfter && fresh(tt) && fresh(tt.table) && fresh(tt.effortOf) && tt.Valid()
    {
      this.g := g;
      this.rootMate3Checks := rootMate3Checks;
      this.stopAfter := stopAfter;
      tt := new BnsTT(policy);
      polls, nodeEntries, nodesLimit := 0, 0, 0;
      limitHit, routeDependent, pathHashes, extractionSteps := false, false, [], 0;
    }

    /** The stop flag, once raised, stays up: `stopAfter` polls see it down. */
    predicate Stopped()
      reads this`polls
    {
      polls >= stopAfter
    }

    method ShouldStop() returns (b: bool)
      modifies this`polls
      ensures polls == old(polls) + 1 && b == old(Stopped())
    {
      b := polls >= stopAfter;
      polls := polls + 1;
    }

    /** The search was cut short, or ran into a route-dependent verdict. */
    predicate Interrupted()
      reads this`polls, this`limitHit, this`routeDependent
    {
      limitHit || routeDependent || Stopped()
    }

    /** The table answers lookups and every live entry is true. */
    ghost predicate Ok()
      reads tt`table, tt`effortOf, tt`gen, tt`victimPolicy, tt`useEffort, tt.table
    {
      tt.Ready() && TrueTable(g, tt.table[..], tt.gen)
    }

    ghost predicate IsKey(p: Pos, ply: nat) {
      p in g.universe && ply <= g.maxPly + 1
    }

    /** Slot `e` lies in the cluster of the key. */
    ghost predicate InCluster(p: Pos, ply: nat, e: int)
      requires tt.Ready()
      reads tt`table, tt`effortOf, tt`gen, tt`victimPolicy, tt`useEffort, tt.table
    {
      tt.Base(p, ply) <= e < tt.Base(p, ply) + CLUSTER_SIZE
    }

    /** A lookup of the key finds exactly these numbers. */
    ghost predicate Known(p: Pos, ply: nat, v: ChildView)
      requires tt.Ready()
      reads tt`table, tt`effortOf, tt`gen, tt`victimPolicy, tt`useEffort, tt.table
    {
      var e := FullScan(tt.table[..], tt.Base(p, ply), tt.Tag(p, ply));
      e >= 0 && View(tt.table[e]) == v
    }

    // ----- single table steps -----

    lemma FreshEntryIsTrue(p: Pos, ply: nat, tag: nat)
      requires ply <= g.maxPly + 1
      ensures TrueView(g, p, ply, View(BnsTTEntry(tag, 1, 1)))
    {
    }

    lemma FoundSlot(slots: seq<BnsTTEntry>, b: nat, tag: nat, e: nat)
      requires b + CLUSTER_SIZE <= |slots| && FullScan(slots, b, tag) == e
      ensures b <= e < b + CLUSTER_SIZE && slots[e].tag == tag
    {
    }

    method StoreKey(p: Pos, ply: nat, cached: int) returns (e: nat)
      requires Ok() && ExactKeys(g) && IsKey(p, ply) && (cached >= 0 ==> InCluster(p, ply, cached))
      modifies tt`stores, tt`evictions, tt.table, tt.effortOf
      ensures Ok() && e < tt.table.Length && e == FullScan(tt.table[..], tt.Base(p, ply), tt.Tag(p, ply))
      ensures tt.table[e].tag == tt.Tag(p, ply) && InCluster(p, ply, e)
    {
      hide TrueTable, TagOf, Mix, IndexOf, Packed, FullScan, SlotForNew, ExactKeys;
      ghost var was := tt.table[..];
      e := tt.Store(p, ply, cached);
      FoundSlot(tt.table[..], tt.Base(p, ply), tt.Tag(p, ply), e);
      if tt.table[..] != was {
        FreshEntryIsTrue(p, ply, tt.Tag(p, ply));
        WriteKeepsTruth(g, was, tt.gen, e, BnsTTEntry(tt.Tag(p, ply), 1, 1), p, ply);
      }
    }

    /** Writes true numbers into a slot that holds the key. */
    method WriteKey(p: Pos, ply: nat, e: nat, v: ChildView)
      requires Ok() && ExactKeys(g) && IsKey(p, ply) && TrueView(g, p, ply, v)
      requires e < tt.table.Length && e == FullScan(tt.table[..], tt.Base(p, ply), tt.Tag(p, ply))
      modifies tt.table
      ensures Ok() && Known(p, ply, v)
    {
      hide TrueTable, TagOf, Mix, IndexOf, Packed, ExactKeys, TrueView, FullScan;
      ghost var was, entry := tt.table[..], tt.table[e].(abn := v.abn, obn := v.obn);
      FoundSlot(was, tt.Base(p, ply), tt.Tag(p, ply), e);
      WriteKeepsTruth(g, was, tt.gen, e, entry, p, ply);
      RewriteKeepsScan(was, e, entry, tt.Base(p, ply), tt.Tag(p, ply));
      tt.Write(e, v.abn, v.obn);
    }

    method RecordVerdict(p: Pos, ply: nat, v: ChildView, cached: int)
      requires Ok() && ExactKeys(g) && IsKey(p, ply) && (cached >= 0 ==> InCluster(p, ply, cached)) && TrueView(g, p, ply, v)
      modifies tt`stores, tt`evictions, tt.table, tt.effortOf
      ensures Ok() && Known(p, ply, v)
    {
      hide TrueTable, Packed, ExactKeys, TrueView, FullScan;
      var e := StoreKey(p, ply, cached);
      WriteKey(p, ply, e, v);
    }

    /** Writes an unresolved node's numbers through the slot the node holds, unless the
        search below has given that slot to another key. */
    method StoreNumbers(p: Pos, ply: nat, v: ChildView, own: nat) returns (own': nat)
      requires Ok() && ExactKeys(g) && IsKey(p, ply) && InCluster(p, ply, own) && TrueView(g, p, ply, v)
      modifies tt`stores, tt`evictions, tt.table, tt.effortOf
      ensures Ok() && Known(p, ply, v) && InCluster(p, ply, own')
    {
      hide TrueTable, Packed, ExactKeys, TrueView, FullScan, TagOf, Mix, IndexOf;
      own' := own;
      if tt.table[own].tag != tt.Tag(p, ply) {
        own' := StoreKey(p, ply, -1);
      } else {
        MatchIsLive(tt.table[..], tt.gen, Mix(p, ply), own);
        OnlyOneMatch(tt.table[..], tt.gen, tt.Base(p, ply), own);
      }
      WriteKey(p, ply, own', v);
    }

    /** Lookup of the node being entered, inserting it on a first visit. */
    method EnterNode(p: Pos, ply: nat) returns (own: nat, firstVisit: bool)
      requires Ok() && ExactKeys(g) && IsKey(p, ply)
      modifies tt`probes, tt`hits, tt`stores, tt`evictions, tt.table, tt.effortOf
      ensures Ok() && InCluster(p, ply, own)
    {
      hide TrueTable, Packed, ExactKeys, TrueView, TagOf, Mix, IndexOf, FullScan, SlotForNew;
      ghost var was := tt.table[..];
      own, firstVisit := tt.ProbeOrStore(p, ply);
      FoundSlot(tt.table[..], tt.Base(p, ply), tt.Tag(p, ply), own);
      if firstVisit {
        FreshEntryIsTrue(p, ply, tt.Tag(p, ply));
        WriteKeepsTruth(g, was, tt.gen, own, BnsTTEntry(tt.Tag(p, ply), 1, 1), p, ply);
      }
    }

    /** A child's numbers: its entry's, or the initial ones. */
    method ProbeChild(q: Pos, ply: nat) returns (v: ChildView)
      requires Ok() && IsKey(q, ply)
      modifies tt`probes, tt`hits
      ensures Ok() && TrueView(g, q, ply, v)
      ensures forall v' :: Known(q, ply, v') ==> v == v'
    {
      hide TrueTable, Packed, TagOf, Mix, IndexOf, TrueView, FullScan;
      var e := tt.Probe(q, ply);
      if e >= 0 {
        FoundSlot(tt.table[..], tt.Base(q, ply), tt.Tag(q, ply), e);
        FoundIsTrue(g, tt.table[..], tt.gen, e, q, ply);
        v := View(tt.table[e]);
      } else {
        FreshEntryIsTrue(q, ply, 0);
        v := ChildView(1, 1);
      }
    }

    method ProbeChildren(p: Pos, ply: nat, moves: seq<Move>) returns (views: seq<ChildView>)
      requires Ok() && Closed(g) && p in g.universe && ply <= g.maxPly && moves == Considered(g.rules, p, OrPly(ply))
      modifies tt`probes, tt`hits
      ensures Ok() && TrueViews(g, p, ply, views)
    {
      hide TrueTable, Packed, TrueView, Closed, Considered;
      views := [];
      var i: nat := 0;
      while i < |moves|
        invariant i <= |moves| && |views| == i && Ok()
        invariant forall j: nat | j < i :: TrueView(g, g.rules.play(p, moves[j]), ply + 1, views[j])
      {
        ChildIsKey(p, ply, moves[i]);
        var v := ProbeChild(g.rules.play(p, moves[i]), ply + 1);
        views := views + [v];
        i := i + 1;
      }
    }

    lemma ChildIsKey(p: Pos, ply: nat, m: Move)
      requires Closed(g) && p in g.universe && ply <= g.maxPly && m in Considered(g.rules, p, OrPly(ply))
      ensures IsKey(g.rules.play(p, m), ply + 1) && m in g.rules.legal(p)
    {
      ChecksAreLegal(g.rules, p);
    }

    // ----- the search -----

    /** The path of the search is the end of the board's run. */
    ghost predicate OnBoard(run: Run, ply: nat)
      reads this`pathHashes
    {
      && |run| > ply && IsKey(Last(run), ply) && ply <= g.maxPly
      && pathHashes == run[|run| - 1 - ply..]
    }

    /** Handles a node that is settled without children: mate in one on a first visit, or no
        considered move. */
    method SettleLeaf(p: Pos, ply: nat, own: nat, firstVisit: bool) returns (moves: seq<Move>, v: ChildView, settled: bool)
      requires Ok() && ValidSetting(g) && IsKey(p, ply) && InCluster(p, ply, own)
      modifies tt`stores, tt`evictions, tt.table, tt.effortOf
      ensures Ok()
      ensures settled ==> Known(p, ply, v) && (v == MATE_VIEW || v == NO_MATE_VIEW)
      ensures !settled ==> moves == Considered(g.rules, p, OrPly(ply)) && moves != [] && InCluster(p, ply, own)
    {
      hide TrueTable, Packed, Closed, ExactKeys, ListsFit, SoundMateInOne, Mate, Checks, FullScan;
      moves, v, settled := [], MATE_VIEW, true;
      if OrPly(ply) && firstVisit && g.rules.mateInOne(p) != NULL_MOVE {
        MateInOneIsTrue(g.rules, p);
        RecordVerdict(p, ply, MATE_VIEW, own);
        return;
      }
      moves := Considered(g.rules, p, OrPly(ply));
      if moves == [] {
        NoMovesIsTrue(g, p, ply);
        v := if OrPly(ply) then NO_MATE_VIEW else MATE_VIEW;
        RecordVerdict(p, ply, v, own);
        return;
      }
      settled := false;
    }

    function EntriesLeft(): nat
      reads this`nodeEntries, this`nodesLimit
    {
      if nodeEntries <= nodesLimit then nodesLimit + 1 - nodeEntries else 0
    }

    /** Searches one node until its numbers reach a limit, it is settled, or the search is
        interrupted. Never leaves an untrue entry behind. */
    method SearchImpl(th: Thresholds, run: Run, ply: nat, ghost height: Pos -> nat) returns (v: ChildView)
      requires Ok() && ValidSetting(g) && OnBoard(run, ply) && th.Bounded()
      requires !routeDependent && (limitHit ==> nodeEntries >= nodesLimit || Stopped())
      modifies this`polls, this`nodeEntries, this`limitHit, this`routeDependent, this`pathHashes
      modifies tt`probes, tt`hits, tt`stores, tt`evictions, tt.table, tt.effortOf
      ensures Ok() && pathHashes == old(pathHashes) && nodeEntries > old(nodeEntries) && polls >= old(polls)
      ensures Interrupted() || (Known(Last(run), ply, v) && !th.Allow(v))
      ensures limitHit ==> nodeEntries >= nodesLimit || Stopped()
      ensures Descending(g, height, run, ply) ==> !routeDependent
      decreases EntriesLeft(), if nodeEntries > nodesLimit then 4 else 0
    {
      hide TrueTable, Packed, ValidSetting, FullScan, Considered, Descending, TrueViews;
      nodeEntries := nodeEntries + 1;
      var p := Last(run);
      SettingParts();
      var own, firstVisit := EnterNode(p, ply);
      var moves, leafView, settled := SettleLeaf(p, ply, own, firstVisit);
      if settled {
        v := leafView;
        return;
      }
      var views := ProbeChildren(p, ply, moves);
      v := Iterate(th, run, ply, own, moves, views, height);
    }

    lemma SettingParts()
      requires ValidSetting(g)
      ensures Closed(g) && ExactKeys(g) && SoundMateInOne(g.rules)
    {
    }

    /** Searches the selected child and reads its numbers again. */
    method SearchSelected(th: Thresholds, run: Run, ply: nat, moves: seq<Move>, views: seq<ChildView>, s: Summary, ghost height: Pos -> nat)
      returns (views': seq<ChildView>)
      requires Ok() && ValidSetting(g) && OnBoard(run, ply) && th.Bounded()
      requires moves == Considered(g.rules, Last(run), OrPly(ply)) && TrueViews(g, Last(run), ply, views)
      requires Saturated(views) && IsSummary(OrPly(ply), g.pnDn, views, s) && !s.Terminal() && s.abn < th.abn && s.obn < th.obn
      requires !limitHit && !routeDependent && nodeEntries < nodesLimit
      modifies this`polls, this`nodeEntries, this`limitHit, this`routeDependent, this`pathHashes
      modifies tt`probes, tt`hits, tt`stores, tt`evictions, tt.table, tt.effortOf
      ensures Ok() && pathHashes == old(pathHashes) && nodeEntries >= old(nodeEntries) && polls >= old(polls)
      ensures Interrupted() || (nodeEntries > old(nodeEntries) && TrueViews(g, Last(run), ply, views'))
      ensures limitHit ==> nodeEntries >= nodesLimit || Stopped()
      ensures Descending(g, height, run, ply) ==> !routeDependent
      decreases EntriesLeft(), 2
    {
      hide TrueTable, Packed, ValidSetting, FullScan, Considered, Descending, TrueViews, TrueView, IsSummary, Closed, ExactKeys, Mix, IndexOf;
      var p, orNode := Last(run), OrPly(ply);
      views' := views;
      SettingParts();
      ThresholdsExceedTheChild(orNode, g.pnDn, views, s, th);
      SelectedIsConsidered(p, ply, views, s.best);
      Descend(ChildThresholds(orNode, s, views[s.best], th), run, ply, moves[s.best], height);
      if Interrupted() {
        return;
      }
      ChildIsKey(p, ply, moves[s.best]);
      var view := ProbeChild(g.rules.play(p, moves[s.best]), ply + 1);
      RefreshedIsTrue(p, ply, views, s.best, view);
      views' := views[s.best := view];
    }

    /** The threshold iteration over one node's children. */
    method Iterate(th: Thresholds, run: Run, ply: nat, entry: nat, moves: seq<Move>, first: seq<ChildView>, ghost height: Pos -> nat)
      returns (v: ChildView)
      requires Ok() && ValidSetting(g) && OnBoard(run, ply) && th.Bounded() && InCluster(Last(run), ply, entry)
      requires moves == Considered(g.rules, Last(run), OrPly(ply)) && TrueViews(g, Last(run), ply, first)
      requires !routeDependent && (limitHit ==> nodeEntries >= nodesLimit || Stopped())
      modifies this`polls, this`nodeEntries, this`limitHit, this`routeDependent, this`pathHashes
      modifies tt`probes, tt`hits, tt`stores, tt`evictions, tt.table, tt.effortOf
      ensures Ok() && pathHashes == old(pathHashes) && nodeEntries >= old(nodeEntries) && polls >= old(polls)
      ensures Interrupted() || (Known(Last(run), ply, v) && !th.Allow(v))
      ensures limitHit ==> nodeEntries >= nodesLimit || Stopped()
      ensures Descending(g, height, run, ply) ==> !routeDependent
      decreases EntriesLeft(), 3
    {
      hide TrueTable, Packed, ValidSetting, FullScan, Considered, Descending, TrueViews, TrueView, IsSummary, Closed, ExactKeys, Mix, IndexOf;
      var p, orNode, own, views := Last(run), OrPly(ply), entry, first;
      SettingParts();
      while true
        invariant Ok() && OnBoard(run, ply) && pathHashes == old(pathHashes) && InCluster(p, ply, own)
        invariant TrueViews(g, p, ply, views)
        invariant !routeDependent && (limitHit ==> nodeEntries >= nodesLimit || Stopped())
        invariant nodeEntries >= old(nodeEntries) && polls >= old(polls)
        decreases EntriesLeft()
      {
        var s := Summarize(orNode, g.pnDn, views);
        SummaryIsTrue(g, p, ply, views, s);
        ViewsAreSaturated(g, p, ply, views);
        v := s.View();
        if s.Terminal() {
          RecordVerdict(p, ply, v, own);
          return;
        }
        own := StoreNumbers(p, ply, v, own);
        if th.abn <= s.abn || th.obn <= s.obn {
          return;
        }
        var stop := ShouldStop();
        if nodeEntries >= nodesLimit || stop {
          limitHit := true;
          return;
        }
        views := SearchSelected(th, run, ply, moves, views, s, height);
        if Interrupted() {
          return;
        }
      }
    }

    lemma SelectedIsConsidered(p: Pos, ply: nat, views: seq<ChildView>, best: int)
      requires ply <= g.maxPly && TrueViews(g, p, ply, views) && 0 <= best < |views|
      ensures best < |Considered(g.rules, p, OrPly(ply))|
    {
    }

    lemma RefreshedIsTrue(p: Pos, ply: nat, views: seq<ChildView>, best: int, view: ChildView)
      requires ply <= g.maxPly && TrueViews(g, p, ply, views) && 0 <= best < |Considered(g.rules, p, OrPly(ply))|
      requires TrueView(g, g.rules.play(p, Considered(g.rules, p, OrPly(ply))[best]), ply + 1, view)
      ensures |views| == |Considered(g.rules, p, OrPly(ply))| && TrueViews(g, p, ply, views[best := view])
    {
      hide TrueView, Considered;
    }

    /** A position this far back on the path is beyond the repetition window. */
    method ScanPath(q: Pos) returns (cycle: bool)
      ensures cycle <==> exists i: nat :: i + REPETITION_LOOKBACK < |pathHashes| && pathHashes[i] == q
    {
      var i: int := |pathHashes| - 1 - REPETITION_LOOKBACK;
      while i >= 0
        invariant -1 <= i || |pathHashes| < REPETITION_LOOKBACK
        invariant forall j: nat | i < j && j + REPETITION_LOOKBACK < |pathHashes| :: pathHashes[j] != q
        decreases i
      {
        if pathHashes[i] == q {
          return true;
        }
        i := i - 1;
      }
      return false;
    }

    /** The depth limit, a repetition within the window, or a longer cycle settles the child
        for this route only. */
    method IsRouteTerminal(run: Run, ply: nat, q: Pos, ghost height: Pos -> nat) returns (terminal: bool)
      requires OnBoard(run, ply)
      ensures !terminal ==> ply + 1 < g.maxPly
      ensures (exists m: Move :: m in g.rules.legal(Last(run)) && q == g.rules.play(Last(run), m)) ==>
                Descending(g, height, run, ply) ==> !terminal
    {
      hide Descending, CheckRepetition;
      if m: Move :| m in g.rules.legal(Last(run)) && q == g.rules.play(Last(run), m) && Descending(g, height, run, ply) {
        DescendingStep(g, height, run, ply, m);
      }
      if ply + 1 >= g.maxPly {
        return true;
      }
      if CheckRepetition(g.rules, run + [q], REPETITION_LOOKBACK) != NoRepetition {
        return true;
      }
      terminal := ScanPath(q);
    }

    /** Plays the selected move and searches behind it, unless the child is settled for this
        route only. */
    method Descend(th: Thresholds, run: Run, ply: nat, m: Move, ghost height: Pos -> nat)
      requires Ok() && ValidSetting(g) && OnBoard(run, ply) && th.Bounded() && m in Considered(g.rules, Last(run), OrPly(ply))
      requires !limitHit && !routeDependent && nodeEntries < nodesLimit
      modifies this`polls, this`nodeEntries, this`limitHit, this`routeDependent, this`pathHashes
      modifies tt`probes, tt`hits, tt`stores, tt`evictions, tt.table, tt.effortOf
      ensures Ok() && pathHashes == old(pathHashes) && nodeEntries >= old(nodeEntries) && polls >= old(polls)
      ensures Interrupted() || nodeEntries > old(nodeEntries)
      ensures limitHit ==> nodeEntries >= nodesLimit || Stopped()
      ensures Descending(g, height, run, ply) ==> !routeDependent
      decreases EntriesLeft(), 1
    {
      hide TrueTable, Packed, ValidSetting, FullScan, Considered, Descending, Mix, IndexOf;
      var q := g.rules.play(Last(run), m);
      SettingParts();
      ChildIsKey(Last(run), ply, m);
      var terminal := IsRouteTerminal(run, ply, q, height);
      if terminal {
        routeDependent := true;
        return;
      }
      if Descending(g, height, run, ply) {
        DescendingOn(g, height, run, ply, m);
      }
      PathGrows(run, ply, q);
      ghost var was := pathHashes;
      pathHashes := pathHashes + [q];
      var _ := SearchImpl(th, run + [q], ply + 1, height);
      assert pathHashes[..|pathHashes| - 1] == was;
      pathHashes := pathHashes[..|pathHashes| - 1];
    }

    lemma PathGrows(run: Run, ply: nat, q: Pos)
      requires |run| > ply
      ensures (run + [q])[|run + [q]| - 1 - (ply + 1)..] == run[|run| - 1 - ply..] + [q]
    {
    }

    // ----- the root -----

    /** The bounded look ahead at the root: a check that mates, or one all of whose evasions
        allow mate in one, unless a repetition gets in the way. */
    method Extract3PlyLine(run: Run) returns (line: seq<Move>)
      requires |run| > 0 && SoundMateInOne(g.rules)
      ensures line != [] ==> IsMatingLine(g.rules, Last(run), line, true)
      ensures line != [] ==> line[0] in Checks(g.rules, Last(run)) && Mate(g.rules, g.rules.play(Last(run), line[0]), false)
    {
      hide Mate, CheckRepetition, Checks, SoundMateInOne, IsMatingLine;
      var p := Last(run);
      var checks := Checks(g.rules, p);
      var i: nat := 0;
      while i < |checks| && i < rootMate3Checks {
        var m1 := checks[i];
        var run1 := run + [g.rules.play(p, m1)];
        if CheckRepetition(g.rules, run1, REPETITION_LOOKBACK) == NoRepetition {
          if g.rules.legal(Last(run1)) == [] {
            DefenderIsMated(g.rules, Last(run1));
            OnePlyLine(g.rules, p, m1);
            return [m1];
          }
          var m2, m3 := AnswerAllEvasions(run1);
          if m3 != NULL_MOVE {
            ThreePlyLine(g.rules, p, m1, m2, m3);
            return [m1, m2, m3];
          }
        }
        i := i + 1;
      }
      return [];
    }

    /** The last evasion and its mating answer, when every evasion has one. */
    method AnswerAllEvasions(run1: Run) returns (em2: Move, em3: Move)
      requires |run1| > 0 && SoundMateInOne(g.rules) && g.rules.legal(Last(run1)) != []
      ensures em3 != NULL_MOVE ==>
                && Mate(g.rules, Last(run1), false) && em2 in g.rules.legal(Last(run1))
                && em3 == g.rules.mateInOne(g.rules.play(Last(run1), em2))
    {
      hide Mate, CheckRepetition, SoundMateInOne;
      var q := Last(run1);
      var evasions := g.rules.legal(q);
      em2, em3 := NULL_MOVE, NULL_MOVE;
      var j: nat := 0;
      while j < |evasions|
        invariant j <= |evasions|
        invariant forall k: nat | k < j :: Mate(g.rules, g.rules.play(q, evasions[k]), true)
        invariant j > 0 ==> em2 in evasions && em3 != NULL_MOVE && em3 == g.rules.mateInOne(g.rules.play(q, em2))
      {
        var run2 := run1 + [g.rules.play(q, evasions[j])];
        var m3 := NULL_MOVE;
        if CheckRepetition(g.rules, run2, REPETITION_LOOKBACK) == NoRepetition {
          m3 := g.rules.mateInOne(Last(run2));
        }
        if m3 == NULL_MOVE {
          return NULL_MOVE, NULL_MOVE;
        }
        MateInOneIsTrue(g.rules, Last(run2));
        em2, em3 := evasions[j], m3;
        j := j + 1;
      }
      DefenderIsMated(g.rules, q);
    }

    /** Clears the counters and starts a new generation of the table. */
    method Prepare(limit: nat, slots: nat)
      requires tt.Valid()
      modifies this`nodeEntries, this`nodesLimit, this`limitHit, this`routeDependent, this`pathHashes
      modifies tt, tt.table
      ensures Ok() && nodesLimit == limit && nodeEntries == 0 && !limitHit && !routeDependent && pathHashes == []
      ensures tt.table == old(tt.table) || fresh(tt.table)
      ensures tt.effortOf == old(tt.effortOf) || fresh(tt.effortOf)
    {
      hide TrueTable, Packed;
      nodesLimit, nodeEntries, limitHit, routeDependent, pathHashes := limit, 0, false, false, [];
      tt.Resize(slots);
      tt.NewSearch();
      NothingLiveIsTrue(g, tt.table[..], tt.gen);
    }

    /** The general search from the root, and the verdict the table then holds for it. */
    method SearchRoot(board: Run, ghost height: Pos -> nat) returns (root: ChildView)
      requires Ok() && ValidSetting(g) && OnBoard(board, 0) && !limitHit && !routeDependent && nodeEntries == 0
      modifies this`polls, this`nodeEntries, this`limitHit, this`routeDependent, this`pathHashes
      modifies tt`probes, tt`hits, tt`stores, tt`evictions, tt.table, tt.effortOf
      ensures Ok() && TrueView(g, Last(board), 0, root)
      ensures Descending(g, height, board, 0) ==> !routeDependent
      ensures Stopped() || routeDependent || nodeEntries >= nodesLimit || !Thresholds(K_INF, K_INF).Allow(root)
      ensures limitHit ==> nodeEntries >= nodesLimit || Stopped()
    {
      hide TrueTable, Packed, ValidSetting, FullScan, Descending, TrueView, Mix, IndexOf;
      var v := SearchImpl(Thresholds(K_INF, K_INF), board, 0, height);
      pathHashes := [];
      if Stopped() {
        root := ChildView(1, 1);
        FreshEntryIsTrue(Last(board), 0, 0);
        return;
      }
      assert !Interrupted() ==> Known(Last(board), 0, v);
      root := ProbeChild(Last(board), 0);
      assert !Interrupted() ==> Known(Last(board), 0, v);
      assert !Interrupted() ==> v == root;
    }

    // ----- the mating line of a proved root -----

    /** What an extraction hands back: nothing, or a line that mates from here and its length. */
    ghost predicate Extracted(p: Pos, attacker: bool, d: int, line: seq<Move>) {
      d >= 0 ==> d == |line| && IsMatingLine(g.rules, p, line, attacker)
    }

    /** The move `m` before a line from where it leads. */
    lemma ExtractedBefore(p: Pos, attacker: bool, m: Move, d: int, line: seq<Move>)
      requires m in Considered(g.rules, p, attacker) && d >= 0 && Extracted(g.rules.play(p, m), !attacker, d, line)
      ensures Extracted(p, attacker, d + 1, [m] + line)
    {
      assert ([m] + line)[1..] == line;
    }

    lemma MateInOneIsExtracted(p: Pos)
      requires SoundMateInOne(g.rules) && g.rules.mateInOne(p) != NULL_MOVE
      ensures Extracted(p, true, 1, [g.rules.mateInOne(p)])
    {
      var m := g.rules.mateInOne(p);
      ChecksAreLegal(g.rules, p);
      OnePlyLine(g.rules, p, m);
    }

    lemma CheckmateIsExtracted(p: Pos)
      requires g.rules.legal(p) == []
      ensures Extracted(p, false, 0, [])
    {
    }

    /** The shortest line through a proved checking move that does not return, if any. */
    method ExtractThroughProofs(run: Run, ply: nat, depthLeft: nat, ghost height: Pos -> nat) returns (d: int, line: seq<Move>)
      requires Ok() && ValidSetting(g) && OnBoard(run, ply) && OrPly(ply) && 0 < depthLeft && ply + depthLeft == g.maxPly
      requires limitHit ==> nodeEntries >= nodesLimit || Stopped()
      modifies this`polls, this`nodeEntries, this`limitHit, this`routeDependent, this`pathHashes, this`extractionSteps
      modifies tt`probes, tt`hits, tt`stores, tt`evictions, tt.table, tt.effortOf
      ensures Ok() && pathHashes == old(pathHashes) && Extracted(Last(run), true, d, line)
      ensures limitHit ==> nodeEntries >= nodesLimit || Stopped()
      ensures Descending(g, height, run, ply) && !old(routeDependent) ==> !routeDependent
      decreases depthLeft, 0
    {
      hide TrueTable, Packed, ValidSetting, FullScan, Descending, TrueView, Mix, IndexOf, CheckRepetition, IsMatingLine, Extracted, Closed, ExactKeys, SoundMateInOne;
      var p, moves := Last(run), Checks(g.rules, Last(run));
      SettingParts();
      d, line := -1, [];
      for i := 0 to |moves|
        invariant Ok() && pathHashes == old(pathHashes) && (d >= 0 ==> Extracted(p, true, d, line))
        invariant limitHit ==> nodeEntries >= nodesLimit || Stopped()
        invariant Descending(g, height, run, ply) && !old(routeDependent) ==> !routeDependent
      {
        extractionSteps := extractionSteps + 1;
        var m := moves[i];
        var q := g.rules.play(p, m);
        ChildIsKey(p, ply, m);
        var v := ProbeChild(q, ply + 1);
        if v.abn == 0 && q !in pathHashes && CheckRepetition(g.rules, run + [q], REPETITION_LOOKBACK) == NoRepetition {
          var rest, after := ExtractBehind(run, ply, m, depthLeft, height);
          if rest >= 0 && (d < 0 || rest + 1 < d) {
            ExtractedBefore(p, true, m, rest, after);
            d, line := rest + 1, [m] + after;
            if d <= 2 {
              break;
            }
          }
        }
      }
      if d < 0 {
        NothingExtracted(p, true, d, line);
      }
    }

    lemma NothingExtracted(p: Pos, attacker: bool, d: int, line: seq<Move>)
      requires d < 0
      ensures Extracted(p, attacker, d, line)
    {
    }

    /** Plays a move, extracts from the position it leads to, and takes it back. */
    method ExtractBehind(run: Run, ply: nat, m: Move, depthLeft: nat, ghost height: Pos -> nat) returns (d: int, line: seq<Move>)
      requires Ok() && ValidSetting(g) && OnBoard(run, ply) && 0 < depthLeft && ply + depthLeft == g.maxPly
      requires m in Considered(g.rules, Last(run), OrPly(ply)) && (limitHit ==> nodeEntries >= nodesLimit || Stopped())
      modifies this`polls, this`nodeEntries, this`limitHit, this`routeDependent, this`pathHashes, this`extractionSteps
      modifies tt`probes, tt`hits, tt`stores, tt`evictions, tt.table, tt.effortOf
      ensures Ok() && pathHashes == old(pathHashes) && Extracted(g.rules.play(Last(run), m), !OrPly(ply), d, line)
      ensures limitHit ==> nodeEntries >= nodesLimit || Stopped()
      ensures Descending(g, height, run, ply) && !old(routeDependent) ==> !routeDependent
      decreases depthLeft - 1, 3
    {
      hide TrueTable, Packed, ValidSetting, FullScan, Considered, Descending, Mix, IndexOf, Extracted, IsMatingLine, TrueView, Closed, ExactKeys, SoundMateInOne;
      var q := g.rules.play(Last(run), m);
      SettingParts();
      ChildIsKey(Last(run), ply, m);
      if Descending(g, height, run, ply) {
        DescendingOn(g, height, run, ply, m);
      }
      PathGrows(run, ply, q);
      ghost var was := pathHashes;
      pathHashes := pathHashes + [q];
      d, line := ExtractNext(run + [q], ply + 1, depthLeft - 1, height);
      assert pathHashes[..|pathHashes| - 1] == was;
      pathHashes := pathHashes[..|pathHashes| - 1];
    }

    method ExtractNext(run: Run, ply: nat, depthLeft: nat, ghost height: Pos -> nat) returns (d: int, line: seq<Move>)
      requires Ok() && ValidSetting(g) && OnBoard(run, ply) && ply + depthLeft == g.maxPly
      requires limitHit ==> nodeEntries >= nodesLimit || Stopped()
      modifies this`polls, this`nodeEntries, this`limitHit, this`routeDependent, this`pathHashes, this`extractionSteps
      modifies tt`probes, tt`hits, tt`stores, tt`evictions, tt.table, tt.effortOf
      ensures Ok() && pathHashes == old(pathHashes) && Extracted(Last(run), OrPly(ply), d, line)
      ensures limitHit ==> nodeEntries >= nodesLimit || Stopped()
      ensures Descending(g, height, run, ply) && !old(routeDependent) ==> !routeDependent
      decreases depthLeft, 2
    {
      hide *;
      if OrPly(ply) {
        d, line := ExtractOr(run, ply, depthLeft, height);
      } else {
        d, line := ExtractAnd(run, ply, depthLeft, height);
      }
    }

    /** The attacker's part: a mate in one, or the shortest line through a proved child; a node
        whose proof has been evicted is proved again, once. After a route-dependent verdict the
        run, and with it the extraction, ends. */
    method ExtractOr(run: Run, ply: nat, depthLeft: nat, ghost height: Pos -> nat) returns (d: int, line: seq<Move>)
      requires Ok() && ValidSetting(g) && OnBoard(run, ply) && OrPly(ply) && ply + depthLeft == g.maxPly
      requires limitHit ==> nodeEntries >= nodesLimit || Stopped()
      modifies this`polls, this`nodeEntries, this`limitHit, this`routeDependent, this`pathHashes, this`extractionSteps
      modifies tt`probes, tt`hits, tt`stores, tt`evictions, tt.table, tt.effortOf
      ensures Ok() && pathHashes == old(pathHashes) && Extracted(Last(run), true, d, line)
      ensures limitHit ==> nodeEntries >= nodesLimit || Stopped()
      ensures Descending(g, height, run, ply) && !old(routeDependent) ==> !routeDependent
      decreases depthLeft, 1
    {
      hide TrueTable, Packed, ValidSetting, FullScan, Considered, Descending, Mix, IndexOf, Extracted, TrueView, Closed, ExactKeys, SoundMateInOne;
      var p := Last(run);
      NothingExtracted(p, true, -1, []);
      SettingParts();
      if depthLeft == 0 || extractionSteps >= EXTRACTION_BUDGET {
        return -1, [];
      }
      if g.rules.mateInOne(p) != NULL_MOVE {
        MateInOneIsExtracted(p);
        return 1, [g.rules.mateInOne(p)];
      }
      for attempt := 0 to 2
        invariant Ok() && pathHashes == old(pathHashes)
        invariant limitHit ==> nodeEntries >= nodesLimit || Stopped()
        invariant Descending(g, height, run, ply) && !old(routeDependent) ==> !routeDependent
      {
        d, line := ExtractThroughProofs(run, ply, depthLeft, height);
        if d >= 0 {
          return;
        }
        if attempt == 0 {
          if ply + 1 >= g.maxPly || routeDependent {
            break;
          }
          var _ := SearchImpl(Thresholds(K_INF, K_INF), run, ply, height);
        }
      }
      d, line := -1, [];
    }

    /** The defender's part: the longest of the lines found. */
    method ExtractAnd(run: Run, ply: nat, depthLeft: nat, ghost height: Pos -> nat) returns (d: int, line: seq<Move>)
      requires Ok() && ValidSetting(g) && OnBoard(run, ply) && !OrPly(ply) && ply + depthLeft == g.maxPly
      requires limitHit ==> nodeEntries >= nodesLimit || Stopped()
      modifies this`polls, this`nodeEntries, this`limitHit, this`routeDependent, this`pathHashes, this`extractionSteps
      modifies tt`probes, tt`hits, tt`stores, tt`evictions, tt.table, tt.effortOf
      ensures Ok() && pathHashes == old(pathHashes) && Extracted(Last(run), false, d, line)
      ensures limitHit ==> nodeEntries >= nodesLimit || Stopped()
      ensures Descending(g, height, run, ply) && !old(routeDependent) ==> !routeDependent
      decreases depthLeft, 1
    {
      hide TrueTable, Packed, ValidSetting, FullScan, Descending, Mix, IndexOf, Extracted, IsMatingLine;
      var p := Last(run);
      NothingExtracted(p, false, -1, []);
      if depthLeft == 0 || extractionSteps >= EXTRACTION_BUDGET {
        return -1, [];
      }
      var moves := g.rules.legal(p);
      if moves == [] {
        CheckmateIsExtracted(p);
        return 0, [];
      }
      var best: int := -1;
      d, line := -1, [];
      for i := 0 to |moves|
        invariant Ok() && pathHashes == old(pathHashes) && Extracted(p, false, d, line)
        invariant best < 0 ==> d == -1
        invariant best >= 0 ==> d == best + 1
        invariant limitHit ==> nodeEntries >= nodesLimit || Stopped()
        invariant Descending(g, height, run, ply) && !old(routeDependent) ==> !routeDependent
      {
        extractionSteps := extractionSteps + 1;
        var rest, after := ExtractBehind(run, ply, moves[i], depthLeft, height);
        if rest >= 0 && rest > best {
          ExtractedBefore(p, false, moves[i], rest, after);
          best, d, line := rest, rest + 1, [moves[i]] + after;
        }
      }
    }

    /** Reads the mating line of a proved root out of the table. */
    method ExtractPV(board: Run, ghost height: Pos -> nat) returns (line: seq<Move>)
      requires Ok() && ValidSetting(g) && |board| > 0 && Last(board) in g.universe
      requires limitHit ==> nodeEntries >= nodesLimit || Stopped()
      modifies this`polls, this`nodeEntries, this`limitHit, this`routeDependent, this`pathHashes, this`extractionSteps
      modifies tt`probes, tt`hits, tt`stores, tt`evictions, tt.table, tt.effortOf
      ensures Ok() && (line != [] ==> IsMatingLine(g.rules, Last(board), line, true))
      ensures Descending(g, height, board, 0) && !old(routeDependent) ==> !routeDependent
    {
      hide TrueTable, Packed, ValidSetting, FullScan, Descending, Mix, IndexOf, IsMatingLine;
      extractionSteps := 0;
      pathHashes := [Last(board)];
      var d: int;
      d, line := ExtractOr(board, 0, g.maxPly, height);
      pathHashes := [];
      if d < 0 {
        line := [];
      }
    }

    /** Solves the position at the end of the board's run. */
    method Search(board: Run, limit: nat, slots: nat, ghost height: Pos -> nat) returns (root: ChildView, line: seq<Move>)
      requires |board| > 0 && Last(board) in g.universe && ValidSetting(g) && tt.Valid()
      modifies this`polls, this`nodeEntries, this`nodesLimit, this`limitHit, this`routeDependent, this`pathHashes, this`extractionSteps
      modifies tt, tt.table, tt.effortOf
      ensures Ok()
      ensures root.abn == 0 ==> Mate(g.rules, Last(board), true)
      ensures root.obn == 0 ==> !Mate(g.rules, Last(board), true)
      ensures line != [] ==> root.abn == 0 && IsMatingLine(g.rules, Last(board), line, true)
      ensures Descending(g, height, board, 0) ==> !routeDependent
      ensures !Stopped() && !g.pnDn && Descending(g, height, board, 0) && nodeEntries < limit ==>
                if Mate(g.rules, Last(board), true) then root.abn == 0 else root.obn == 0
    {
      hide TrueTable, Packed, ValidSetting, FullScan, Descending, Mate, IsMatingLine, TrueView;
      Prepare(limit, slots);
      SettingParts();
      root, line := ChildView(1, 1), [];
      var stop := ShouldStop();
      if stop {
        return;
      }
      line := Extract3PlyLine(board);
      if line != [] {
        if Stopped() {
          line := [];
          return;
        }
        RootIsMate(Last(board), line[0]);
        RecordVerdict(Last(board), 0, MATE_VIEW, -1);
        root := MATE_VIEW;
        return;
      }
      pathHashes := [Last(board)];
      root := SearchRoot(board, height);
      RootIsTrue(Last(board), root);
      if root.abn == 0 {
        line := ExtractPV(board, height);
      }
    }

    lemma RootIsMate(p: Pos, m: Move)
      requires m in Checks(g.rules, p) && Mate(g.rules, g.rules.play(p, m), false)
      ensures Mate(g.rules, p, true) && TrueView(g, p, 0, MATE_VIEW)
    {
      AttackerMates(g.rules, p);
    }

    /** The root's numbers are true; below saturation an entry at both limits is final. */
    lemma RootIsTrue(p: Pos, root: ChildView)
      requires ValidSetting(g) && TrueView(g, p, 0, root)
      ensures root.abn == 0 ==> Mate(g.rules, p, true)
      ensures root.obn == 0 ==> !Mate(g.rules, p, true)
      ensures !g.pnDn && !Thresholds(K_INF, K_INF).Allow(root) ==> root.abn == 0 || root.obn == 0
    {
      hide Mate, ExactKeys, Closed, ListsFit, SoundMateInOne;
    }
  }

  /** Checks and replies in turn from `p`, the last move giving checkmate. */
  ghost predicate IsMatingLine(rules: Rules, p: Pos, line: seq<Move>, attacker: bool)
    decreases |line|
  {
    if line == [] then !attacker && rules.legal(p) == []
    else line[0] in Considered(rules, p, attacker) && IsMatingLine(rules, rules.play(p, line[0]), line[1..], !attacker)
  }

  lemma OnePlyLine(rules: Rules, p: Pos, m1: Move)
    requires m1 in Checks(rules, p) && rules.legal(rules.play(p, m1)) == []
    ensures IsMatingLine(rules, p, [m1], true)
  {
    assert [m1][1..] == [];
  }

  lemma ThreePlyLine(rules: Rules, p: Pos, m1: Move, m2: Move, m3: Move)
    requires SoundMateInOne(rules) && m1 in Checks(rules, p) && m2 in rules.legal(rules.play(p, m1))
    requires m3 != NULL_MOVE && m3 == rules.mateInOne(rules.play(rules.play(p, m1), m2))
    ensures IsMatingLine(rules, p, [m1, m2, m3], true)
  {
    var q := rules.play(rules.play(p, m1), m2);
    ChecksAreLegal(rules, q);
    OnePlyLine(rules, q, m3);
    assert [m1, m2, m3][1..] == [m2, m3] && [m2, m3][1..] == [m3];
    assert IsMatingLine(rules, rules.play(p, m1), [m2, m3], false);
  }

  // ----- the two solvers' games -----

  lemma DescendingIsNotAdjudicated(g: Setting, height: Pos -> nat, root: nat, run: Run, ply: nat)
    requires |run| > 0 && Descending(g, height, run, ply)
    ensures !Adjudicated(g.rules, root, run)
  {
    var limit := if 0 < REPETITION_LOOKBACK < |run| - 1 then REPETITION_LOOKBACK else |run| - 1;
    assert forall i: nat | i + 1 < |run| :: run[i] != Last(run);
    NoReturnNoRepetition(g.rules, run, 4, limit);
  }

  lemma SameMoves(g: Setting, cap: nat, p: Pos, attacker: bool)
    requires SoundMateInOne(g.rules) && ListsFit(g) && p in g.universe && cap >= MAX_LEGAL_MOVES
    ensures forall m :: m in Options(g.rules, cap, p, attacker) <==> m in Considered(g.rules, p, attacker)
    ensures forall m | m in Considered(g.rules, p, attacker) :: m in g.rules.legal(p)
    ensures Options(g.rules, cap, p, false) == g.rules.legal(p)
  {
    ChecksAreLegal(g.rules, p);
  }

  /** Where no position can come back, the repetition-adjudicated game of the proof-number
      solver and the plain game of this one have the same winners, move for move. */
  lemma {:induction false} SolversPlayTheSameGame(g: Setting, height: Pos -> nat, cap: nat, root: nat, run: Run, ply: nat,
                                                  attacker: bool, k: nat)
    requires |run| > 0 && Last(run) in g.universe && Descending(g, height, run, ply)
    requires SoundMateInOne(g.rules) && Closed(g) && ListsFit(g) && cap >= MAX_LEGAL_MOVES
    ensures Wins(g.rules, cap, root, run, attacker, k) <==> MatesWithin(g.rules, Last(run), attacker, k)
    decreases k
  {
    hide SoundMateInOne, ListsFit, Adjudicated, Options, Checks, Descending;
    DescendingIsNotAdjudicated(g, height, root, run, ply);
    SameMoves(g, cap, Last(run), attacker);
    if k > 0 {
      forall m | m in Considered(g.rules, Last(run), attacker)
        ensures WinsAfter(g.rules, cap, root, run, m, !attacker, k - 1) <==> MatesAfter(g.rules, Last(run), m, !attacker, k - 1)
      {
        DescendingOn(g, height, run, ply, m);
        SolversPlayTheSameGame(g, height, cap, root, run + [g.rules.play(Last(run), m)], ply + 1, !attacker, k - 1);
      }
    }
  }

  lemma DescendingOn(g: Setting, height: Pos -> nat, run: Run, ply: nat, m: Move)
    requires |run| > 0 && Last(run) in g.universe && m in g.rules.legal(Last(run)) && Descending(g, height, run, ply)
    ensures Descending(g, height, run + [g.rules.play(Last(run), m)], ply + 1)
  {
    DescendingStep(g, height, run, ply, m);
  }
}
