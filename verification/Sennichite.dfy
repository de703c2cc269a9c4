/** Repetition by game record: what the check counters count, and what the search-time
    repetition rule decides. */
module Sennichite {
  import opened Shogi
  import opened BoardState
  import opened MateGame
  import opened Repetitions

  /** A move of the record with the state it was made in and whether it gave check. */
  datatype Ply = Ply(before: Full, move: Shogi.Move, gave: bool)

  /** `past` is what has been played since the history was cleared, and `now` the state it
      leads to. Making a move appends a ply, unmaking drops it. */
  ghost predicate IsRecord(z: Zobrist, past: seq<Ply>, now: Full) {
    if past == [] then Consistent(z, now) && now.history == [] && now.check == [0, 0]
    else
      var last := past[|past| - 1];
      && IsRecord(z, past[..|past| - 1], last.before) && CanMake(last.before, last.move)
      && now == Made(z, last.before, last.move, true, last.gave)
  }

  lemma {:induction false} RecordIsConsistent(z: Zobrist, past: seq<Ply>, now: Full)
    requires IsRecord(z, past, now)
    ensures Consistent(z, now)
  {
    if past != [] {
      var last := past[|past| - 1];
      RecordIsConsistent(z, past[..|past| - 1], last.before);
      MadeIsConsistent(z, last.before, last.move, last.gave);
    }
  }

  /** The last move was made by the side not to move, from a record one ply shorter. */
  lemma LastMover(z: Zobrist, past: seq<Ply>, now: Full)
    requires IsRecord(z, past, now) && past != []
    ensures past[|past| - 1].before.side == now.side.Other()
    ensures IsRecord(z, past[..|past| - 1], past[|past| - 1].before)
  {
    hide ColorSets, TypeSets, HashOf, KingsKnown, BoardAfter, HandAfter, Landing, CanMake;
  }

  lemma {:induction false} RecordPrefix(z: Zobrist, past: seq<Ply>, now: Full, i: nat)
    requires IsRecord(z, past, now) && i < |past|
    ensures IsRecord(z, past[..i], past[i].before)
    decreases |past|
  {
    hide IsRecord;
    var rest := past[..|past| - 1];
    LastMover(z, past, now);
    if i < |rest| {
      RecordPrefix(z, rest, past[|past| - 1].before, i);
      assert rest[..i] == past[..i] && rest[i] == past[i];
    } else {
      assert past[..i] == rest;
    }
  }

  /** Making a move extends the record, and a cleared history starts one. */
  lemma RecordGrows(z: Zobrist, past: seq<Ply>, f: Full, m: Shogi.Move, gave: bool)
    requires IsRecord(z, past, f) && CanMake(f, m)
    ensures IsRecord(z, past + [Ply(f, m, gave)], Made(z, f, m, true, gave))
    ensures IsRecord(z, [], f.(history := [], check := [0, 0]))
  {
    hide ColorSets, TypeSets, HashOf, KingsKnown, BoardAfter, HandAfter, Landing;
    assert (past + [Ply(f, m, gave)])[..|past|] == past;
    RecordIsConsistent(z, past, f);
  }

  // ----- what the counters count -----

  /** How many of a side's latest moves in a row gave check. */
  function Trail(past: seq<Ply>, c: Color): nat {
    if past == [] then 0
    else
      var last, rest := past[|past| - 1], past[..|past| - 1];
      if last.before.side != c then Trail(rest, c)
      else if last.gave then 1 + Trail(rest, c) else 0
  }

  /** In every run of moves and take-backs the counter of a side is twice the number of its
      trailing checks. */
  lemma {:induction false} CountersAreTrails(z: Zobrist, past: seq<Ply>, now: Full, c: Color)
    requires IsRecord(z, past, now)
    ensures now.Shaped() && now.check[Idx(c)] == 2 * Trail(past, c)
  {
    hide ColorSets, TypeSets, HashOf, KingsKnown, BoardAfter, HandAfter, Landing;
    if past != [] {
      CountersAreTrails(z, past[..|past| - 1], past[|past| - 1].before, c);
    }
  }

  function EntryOf(f: Full): HistoryEntry
    requires f.Shaped()
  {
    HistoryEntry(f.hash, f.hand[0], f.hand[1])
  }

  /** The history holds the keys of all states before, oldest first. */
  lemma {:induction false} HistoryIsRecord(z: Zobrist, past: seq<Ply>, now: Full)
    requires IsRecord(z, past, now)
    ensures |now.history| == |past|
    ensures forall i: nat | i < |past| :: past[i].before.Shaped() && now.history[i] == EntryOf(past[i].before)
  {
    hide ColorSets, TypeSets, HashOf, KingsKnown, BoardAfter, HandAfter, Landing;
    if past != [] {
      HistoryIsRecord(z, past[..|past| - 1], past[|past| - 1].before);
    }
  }

  /** The side to move alternates. */
  lemma {:induction false} SidesAlternate(z: Zobrist, past: seq<Ply>, now: Full, i: nat)
    requires IsRecord(z, past, now) && i < |past|
    ensures past[i].before.side == if (|past| - i) % 2 == 0 then now.side else now.side.Other()
    decreases |past|
  {
    hide IsRecord;
    var last, rest := past[|past| - 1], past[..|past| - 1];
    LastMover(z, past, now);
    if i < |rest| {
      SidesAlternate(z, rest, last.before, i);
      assert rest[i] == past[i];
    }
  }

  /** How many of the last `d` moves were made by a side. */
  function MovesBy(past: seq<Ply>, c: Color, d: nat): nat
    requires d <= |past|
  {
    if d == 0 then 0
    else (if past[|past| - 1].before.side == c then 1 else 0) + MovesBy(past[..|past| - 1], c, d - 1)
  }

  /** Every one of a side's moves among the last `d` gave check. */
  ghost predicate CheckedThroughout(past: seq<Ply>, c: Color, d: nat)
    requires d <= |past|
  {
    forall i: nat | |past| - d <= i < |past| && past[i].before.side == c :: past[i].gave
  }

  lemma {:induction false} TrailCovers(past: seq<Ply>, c: Color, d: nat)
    requires d <= |past|
    ensures Trail(past, c) >= MovesBy(past, c, d) <==> CheckedThroughout(past, c, d)
    decreases d
  {
    if d > 0 {
      var last, rest := past[|past| - 1], past[..|past| - 1];
      TrailCovers(rest, c, d - 1);
      assert forall i: nat | i < |rest| :: rest[i] == past[i];
      if CheckedThroughout(rest, c, d - 1) && (last.before.side == c ==> last.gave) {
        forall i: nat | |past| - d <= i < |past| && past[i].before.side == c
          ensures past[i].gave
        {
          if i < |rest| {
            assert rest[i].gave;
          }
        }
      }
      if CheckedThroughout(past, c, d) {
        forall i: nat | |rest| - (d - 1) <= i < |rest| && rest[i].before.side == c
          ensures rest[i].gave
        {
          assert past[i].gave;
        }
        assert last.before.side == c ==> past[|past| - 1].gave;
      }
    }
  }

  lemma TwoLastMoves(past: seq<Ply>, c: Color, d: nat)
    requires 2 <= d <= |past| && past[|past| - 1].before.side == past[|past| - 2].before.side.Other()
    ensures MovesBy(past, c, d) == 1 + MovesBy(past[..|past| - 2], c, d - 2)
  {
    var rest := past[..|past| - 1];
    assert rest[|rest| - 1] == past[|past| - 2] && rest[..|rest| - 1] == past[..|past| - 2];
    assert MovesBy(rest, c, d - 1) == (if rest[|rest| - 1].before.side == c then 1 else 0) + MovesBy(rest[..|rest| - 1], c, d - 2);
  }

  lemma {:induction false} HalfTheMoves(z: Zobrist, past: seq<Ply>, now: Full, c: Color, d: nat)
    requires IsRecord(z, past, now) && d <= |past| && d % 2 == 0
    ensures 2 * MovesBy(past, c, d) == d
    decreases d
  {
    hide IsRecord;
    if d > 0 {
      var n := |past|;
      SidesAlternate(z, past, now, n - 1);
      SidesAlternate(z, past, now, n - 2);
      RecordPrefix(z, past, now, n - 2);
      TwoLastMoves(past, c, d);
      hide MovesBy;
      HalfTheMoves(z, past[..n - 2], past[n - 2].before, c, d - 2);
    }
  }

  /** A counter reaches an even distance exactly when every move of that side within it gave
      check. */
  lemma {:induction false} CounterReaches(z: Zobrist, past: seq<Ply>, now: Full, c: Color, d: nat)
    requires IsRecord(z, past, now) && d <= |past| && d % 2 == 0
    ensures now.Shaped() && (now.check[Idx(c)] >= d <==> CheckedThroughout(past, c, d))
  {
    hide IsRecord, CheckedThroughout;
    CountersAreTrails(z, past, now, c);
    TrailCovers(past, c, d);
    HalfTheMoves(z, past, now, c, d);
  }

  // ----- the repetition rule -----

  /** The state `d` plies back. */
  function Back(past: seq<Ply>, d: nat): Full
    requires 1 <= d <= |past|
  {
    past[|past| - d].before
  }

  /** Equal keys and hands in this record mean equal positions. */
  ghost predicate NoCollision(past: seq<Ply>, now: Full) {
    forall i: nat | i < |past| && past[i].before.hash == now.hash && past[i].before.hand == now.hand :: SamePosition(past[i].before, now)
  }

  function Window(size: nat, maxBackPlies: int): nat {
    if 0 < maxBackPlies < size then maxBackPlies else size
  }

  /** A position comes back only after an even number of plies, and never after two. */
  lemma {:induction false} ReturnsAreFar(z: Zobrist, past: seq<Ply>, now: Full, d: nat)
    requires IsRecord(z, past, now) && 1 <= d <= |past| && SamePosition(Back(past, d), now)
    ensures d % 2 == 0 && d >= 4
  {
    hide IsRecord;
    SidesAlternate(z, past, now, |past| - d);
    if d == 2 {
      TwoBack(z, past, now);
    }
  }

  lemma TwoBack(z: Zobrist, past: seq<Ply>, now: Full)
    requires IsRecord(z, past, now) && |past| >= 2
    ensures !SamePosition(Back(past, 2), now)
  {
    hide ColorSets, TypeSets, HashOf, KingsKnown, BoardAfter, HandAfter, Landing, CanMake, Made, SamePosition, Consistent;
    var last, rest := past[|past| - 1], past[..|past| - 1];
    var mid := rest[|rest| - 1];
    assert mid == past[|past| - 2];
    assert IsRecord(z, rest, last.before);
    TwoPliesNeverReturn(z, mid.before, mid.move, mid.gave, last.move, last.gave);
  }

  /** The nearest earlier occurrence within the window decides: lost for the side to move if
      all its own moves since then gave check, else won if all the opponent's did. */
  ghost predicate IsVerdict(past: seq<Ply>, now: Full, window: nat, r: RepetitionResult, dist: nat)
    requires window <= |past|
  {
    if r.NoRepetition? then forall d: nat | 1 <= d <= window :: !SamePosition(Back(past, d), now)
    else
      && 1 <= dist <= window && SamePosition(Back(past, dist), now)
      && (forall d: nat | 1 <= d < dist :: !SamePosition(Back(past, d), now))
      && r == if CheckedThroughout(past, now.side, dist) then RepetitionLoss
              else if CheckedThroughout(past, now.side.Other(), dist) then RepetitionWin
              else RepetitionDraw
  }

  lemma SameHash(z: Zobrist, f: Full, g: Full)
    requires Consistent(z, f) && Consistent(z, g)
    ensures f.Shaped() && g.Shaped()
    ensures SamePosition(f, g) ==> EntryOf(f) == EntryOf(g)
  {
    hide HashOf, KingsKnown, ColorSets, TypeSets;
  }

  lemma EqualEntries(f: Full, g: Full)
    requires f.Shaped() && g.Shaped() && EntryOf(f) == EntryOf(g)
    ensures f.hash == g.hash && f.hand == g.hand
  {
    assert f.hand == [f.hand[0], f.hand[1]] && g.hand == [g.hand[0], g.hand[1]];
  }

  /** An entry matches exactly when the position is the same. */
  lemma EntryMatches(z: Zobrist, past: seq<Ply>, now: Full, i: nat)
    requires IsRecord(z, past, now) && i < |past| && NoCollision(past, now)
    ensures |now.history| == |past| && now.Shaped()
    ensures now.history[i] == EntryOf(now) <==> SamePosition(past[i].before, now)
  {
    hide IsRecord, Consistent, SamePosition, EntryOf;
    HistoryIsRecord(z, past, now);
    RecordIsConsistent(z, past, now);
    RecordPrefix(z, past, now, i);
    RecordIsConsistent(z, past[..i], past[i].before);
    SameHash(z, past[i].before, now);
    if now.history[i] == EntryOf(now) {
      EqualEntries(past[i].before, now);
    }
  }

  // ----- the solvers use the same rule -----

  /** A run of keys that names the positions of the record, with the checks it gave. */
  ghost predicate Names(rules: Rules, run: Run, past: seq<Ply>, now: Full) {
    && |run| == |past| + 1
    && (forall i: nat | i < |past| :: rules.inCheck(run[i + 1]) == past[i].gave)
    && (forall i: nat | i < |past| :: run[i] == run[|past|] <==> SamePosition(past[i].before, now))
  }

  /** Two moves further on, one more check of the same side or none. */
  lemma TrailStep(past: seq<Ply>, i: nat)
    requires 2 <= i <= |past| && past[i - 2].before.side == past[i - 1].before.side.Other()
    ensures Trail(past[..i], past[i - 1].before.side) ==
            if past[i - 1].gave then 1 + Trail(past[..i - 2], past[i - 1].before.side) else 0
  {
    var c := past[i - 1].before.side;
    assert past[..i][..i - 1] == past[..i - 1] && past[..i][i - 1] == past[i - 1];
    assert past[..i - 1][..i - 2] == past[..i - 2] && past[..i - 1][i - 2] == past[i - 2];
    assert Trail(past[..i - 1], c) == Trail(past[..i - 2], c);
  }

  lemma FirstTrail(past: seq<Ply>)
    requires |past| >= 1
    ensures Trail(past[..1], past[0].before.side) == if past[0].gave then 1 else 0
  {
    assert past[..1][..0] == [] && past[..1][0] == past[0];
    assert Trail([], past[0].before.side) == 0;
  }

  lemma {:induction false} TrailingIsTrail(z: Zobrist, rules: Rules, run: Run, past: seq<Ply>, now: Full, i: nat)
    requires IsRecord(z, past, now) && Names(rules, run, past, now) && 1 <= i <= |past|
    ensures TrailingChecks(rules, run, i) == Trail(past[..i], past[i - 1].before.side)
    decreases i
  {
    hide IsRecord, SamePosition, Trail, Names, TrailingChecks;
    OneCheck(rules, run, past, now, i);
    if i == 1 {
      FirstTrail(past);
    } else {
      SidesAlternate(z, past, now, i - 1);
      SidesAlternate(z, past, now, i - 2);
      TrailStep(past, i);
      if i == 2 {
        NoTrail(past[1].before.side);
        assert past[..0] == [];
      } else {
        SidesAlternate(z, past, now, i - 3);
        TrailingIsTrail(z, rules, run, past, now, i - 2);
      }
    }
  }

  lemma OneCheck(rules: Rules, run: Run, past: seq<Ply>, now: Full, i: nat)
    requires Names(rules, run, past, now) && 1 <= i <= |past|
    ensures |run| == |past| + 1
    ensures TrailingChecks(rules, run, i) == if past[i - 1].gave then 1 + TrailingChecks(rules, run, i - 2) else 0
    ensures i == 1 ==> TrailingChecks(rules, run, i - 2) == 0
    ensures i == 2 ==> TrailingChecks(rules, run, i - 2) == 0
  {
    hide SamePosition;
    assert rules.inCheck(run[i - 1 + 1]) == past[i - 1].gave;
  }

  lemma NoTrail(c: Color)
    ensures Trail([], c) == 0
  {
  }

  /** Both sides' trailing checks, as the solvers count them on their run. */
  lemma SolverTrails(z: Zobrist, rules: Rules, run: Run, past: seq<Ply>, now: Full)
    requires IsRecord(z, past, now) && Names(rules, run, past, now) && |past| >= 2
    ensures TrailingChecks(rules, run, |run| - 1) == Trail(past, now.side.Other())
    ensures TrailingChecks(rules, run, |run| - 2) == Trail(past, now.side)
  {
    hide IsRecord, SamePosition, Names;
    RunIsLonger(rules, run, past, now);
    var n := |past|;
    TrailingIsTrail(z, rules, run, past, now, n);
    TrailingIsTrail(z, rules, run, past, now, n - 1);
    SidesAlternate(z, past, now, n - 1);
    SidesAlternate(z, past, now, n - 2);
    assert past[..n] == past;
    assert Trail(past, now.side) == Trail(past[..n - 1], now.side);
  }

  lemma RunIsLonger(rules: Rules, run: Run, past: seq<Ply>, now: Full)
    requires Names(rules, run, past, now)
    ensures |run| == |past| + 1
  {
  }

  /** At the nearest return both count the same moves. */
  lemma SolverDecides(z: Zobrist, rules: Rules, run: Run, past: seq<Ply>, now: Full, dist: nat)
    requires IsRecord(z, past, now) && Names(rules, run, past, now) && 2 <= dist <= |past| && dist % 2 == 0
    ensures |run| == |past| + 1
    ensures 2 * TrailingChecks(rules, run, |run| - 2) >= dist <==> CheckedThroughout(past, now.side, dist)
    ensures 2 * TrailingChecks(rules, run, |run| - 1) >= dist <==> CheckedThroughout(past, now.side.Other(), dist)
  {
    hide Names, IsRecord, CheckedThroughout, TrailingChecks, MovesBy, Trail;
    RunIsLonger(rules, run, past, now);
    SolverTrails(z, rules, run, past, now);
    TrailCovers(past, now.side, dist);
    TrailCovers(past, now.side.Other(), dist);
    HalfTheMoves(z, past, now, now.side, dist);
    HalfTheMoves(z, past, now, now.side.Other(), dist);
  }

  lemma RunReturns(rules: Rules, run: Run, past: seq<Ply>, now: Full, dist: nat)
    requires Names(rules, run, past, now) && 1 <= dist <= |past|
    ensures Returns(run, dist) <==> SamePosition(Back(past, dist), now)
  {
    hide SamePosition;
    assert run[|past| - dist] == run[|past|] <==> SamePosition(past[|past| - dist].before, now);
  }

  lemma {:induction false} SolverVerdict(z: Zobrist, rules: Rules, run: Run, past: seq<Ply>, now: Full, window: nat, dist: nat)
    returns (d: nat)
    requires IsRecord(z, past, now) && Names(rules, run, past, now) && |run| == |past| + 1 && window <= |past|
    requires dist >= 4 && dist % 2 == 0 && forall d: nat | 1 <= d < dist && d <= window :: !SamePosition(Back(past, d), now)
    ensures IsVerdict(past, now, window, RepetitionFrom(rules, run, dist, window), d)
    decreases window + 2 - dist
  {
    hide SamePosition, IsRecord, CheckedThroughout, TrailingChecks, Names, Returns, Back;
    d := dist;
    if dist <= window {
      RunReturns(rules, run, past, now, dist);
      if SamePosition(Back(past, dist), now) {
        SolverDecides(z, rules, run, past, now, dist);
      } else {
        if dist + 1 <= window && SamePosition(Back(past, dist + 1), now) {
          ReturnsAreFar(z, past, now, dist + 1);
          assert false;
        }
        d := SolverVerdict(z, rules, run, past, now, window, dist + 2);
      }
    }
  }

  /** The adjudication the mate solvers apply to their runs is this rule. */
  lemma {:induction false} SolversApplyTheRule(z: Zobrist, rules: Rules, run: Run, past: seq<Ply>, now: Full, maxBackPlies: nat) returns (d: nat)
    requires IsRecord(z, past, now) && Names(rules, run, past, now)
    ensures IsVerdict(past, now, Window(|past|, maxBackPlies), MateGame.CheckRepetition(rules, run, maxBackPlies), d)
  {
    hide IsRecord, SamePosition;
    var window := Window(|past|, maxBackPlies);
    forall k: nat | 1 <= k < 4 && k <= window
      ensures !SamePosition(Back(past, k), now)
    {
      if SamePosition(Back(past, k), now) {
        ReturnsAreFar(z, past, now, k);
        assert false;
      }
    }
    d := SolverVerdict(z, rules, run, past, now, window, 4);
  }
}
