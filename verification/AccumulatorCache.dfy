/** The 16-bit kernels that add and subtract weight rows, and the cache of one accumulator
    per side and king square that must agree with summing from scratch. */
module AccumulatorCache {
  import opened Shogi
  import opened Accumulator

  // ----- 16-bit lanes -----

  /** The value of an integer stored as a signed 16-bit lane. */
  function Wrap16(x: int): int { (x + 0x8000) % 0x1_0000 - 0x8000 }

  predicate IsInt16(x: int) { -0x8000 <= x < 0x8000 }

  lemma WrapIsInt16(x: int)
    ensures IsInt16(Wrap16(x)) && (IsInt16(x) ==> Wrap16(x) == x)
  {
  }

  /** Wrapping at every step or once at the end makes no difference. */
  lemma WrapAdds(x: int, y: int)
    ensures Wrap16(Wrap16(x) + y) == Wrap16(x + y)
  {
  }

  // ----- the network -----

  /** One row of weights per group-A input, `l1` lanes each. */
  datatype Net = Net(l1: nat, weights: seq<seq<int>>, bias: seq<int>)
  {
    ghost predicate Valid() {
      && l1 > 0 && l1 % 256 == 0 && |bias| == l1 && |weights| == 81 * NUM_SLOTS
      && (forall i: nat | i < l1 :: IsInt16(bias[i]))
      && forall r: nat | r < |weights| :: |weights[r]| == l1
    }
  }

  function Lane(net: Net, i: nat): Weight {
    (r: nat) => if r < |net.weights| && i < |net.weights[r]| then net.weights[r][i] else 0
  }

  // ----- the kernels -----

  /** The lane after adding and subtracting the listed rows. */
  ghost predicate LaneUpdated(net: Net, i: nat, was: int, now: int, adds: seq<nat>, subs: seq<nat>) {
    now == Wrap16(was + SumRows(adds, Lane(net, i)) - SumRows(subs, Lane(net, i)))
  }

  lemma LaneStart(net: Net, i: nat, was: int)
    requires IsInt16(was)
    ensures LaneUpdated(net, i, was, was, [], [])
  {
    WrapIsInt16(was);
  }

  lemma LaneAdd(net: Net, i: nat, was: int, now: int, adds: seq<nat>, row: nat)
    requires LaneUpdated(net, i, was, now, adds, []) && row < |net.weights| && i < |net.weights[row]|
    ensures LaneUpdated(net, i, was, Wrap16(now + net.weights[row][i]), adds + [row], [])
  {
    SumPush(adds, row, Lane(net, i));
    WrapAdds(was + SumRows(adds, Lane(net, i)), net.weights[row][i]);
  }

  lemma LaneSub(net: Net, i: nat, was: int, now: int, adds: seq<nat>, subs: seq<nat>, row: nat)
    requires LaneUpdated(net, i, was, now, adds, subs) && row < |net.weights| && i < |net.weights[row]|
    ensures LaneUpdated(net, i, was, Wrap16(now - net.weights[row][i]), adds, subs + [row])
  {
    SumPush(subs, row, Lane(net, i));
    WrapAdds(was + SumRows(adds, Lane(net, i)) - SumRows(subs, Lane(net, i)), -net.weights[row][i]);
  }

  ghost predicate RowsExist(net: Net, list: seq<nat>) {
    forall x | x in list :: x < |net.weights| && |net.weights[x]| == net.l1
  }

  /** Lanes `lo` to `hi` of accumulator `f` have been updated from `was`. */
  ghost predicate LanesUpdated(net: Net, acc: array2<int>, f: nat, lo: nat, hi: nat, was: seq<int>, adds: seq<nat>, subs: seq<nat>)
    requires f < acc.Length0 && hi <= acc.Length1 == |was|
    reads acc
  {
    forall i: nat | lo <= i < hi :: LaneUpdated(net, i, was[i], acc[f, i], adds, subs)
  }

  /** Accumulator `f` as a list of lanes. */
  ghost function LanesOf(acc: array2<int>, f: nat): (s: seq<int>)
    requires f < acc.Length0
    reads acc
    ensures |s| == acc.Length1 && forall i: nat | i < |s| :: s[i] == acc[f, i]
  {
    seq(acc.Length1, (i: nat) requires i < acc.Length1 reads acc => acc[f, i])
  }

  method CopyBias(acc: array2<int>, f: nat, net: Net)
    requires net.Valid() && f < acc.Length0 && acc.Length1 == net.l1
    modifies acc
    ensures forall i: nat | i < net.l1 :: acc[f, i] == net.bias[i]
    ensures forall g: nat, i: nat | g < acc.Length0 && g != f && i < acc.Length1 :: acc[g, i] == old(acc[g, i])
  {
    var i: nat := 0;
    while i < net.l1
      invariant i <= net.l1
      invariant forall k: nat | k < i :: acc[f, k] == net.bias[k]
      invariant forall g: nat, k: nat | g < acc.Length0 && g != f && k < acc.Length1 :: acc[g, k] == old(acc[g, k])
    {
      acc[f, i] := net.bias[i];
      i := i + 1;
    }
  }

  /** Adds one row to every lane, or subtracts it. */
  method ApplyRow(acc: array2<int>, f: nat, net: Net, row: nat, add: bool)
    requires f < acc.Length0 && acc.Length1 == net.l1 && row < |net.weights| && |net.weights[row]| == net.l1
    modifies acc
    ensures forall i: nat | i < net.l1 ::
              acc[f, i] == Wrap16(old(acc[f, i]) + if add then net.weights[row][i] else -net.weights[row][i])
    ensures forall g: nat, i: nat | g < acc.Length0 && g != f && i < acc.Length1 :: acc[g, i] == old(acc[g, i])
  {
    hide Wrap16;
    var i: nat := 0;
    while i < net.l1
      invariant i <= net.l1
      invariant forall k: nat | k < i ::
                  acc[f, k] == Wrap16(old(acc[f, k]) + if add then net.weights[row][k] else -net.weights[row][k])
      invariant forall k: nat | i <= k < net.l1 :: acc[f, k] == old(acc[f, k])
      invariant forall g: nat, k: nat | g < acc.Length0 && g != f && k < acc.Length1 :: acc[g, k] == old(acc[g, k])
    {
      acc[f, i] := Wrap16(acc[f, i] + if add then net.weights[row][i] else -net.weights[row][i]);
      i := i + 1;
    }
  }

  /** The reference kernel: row by row over all lanes. */
  method UpdateRows(acc: array2<int>, f: nat, net: Net, adds: seq<nat>, subs: seq<nat>)
    requires f < acc.Length0 && acc.Length1 == net.l1 && RowsExist(net, adds) && RowsExist(net, subs)
    requires forall i: nat | i < net.l1 :: IsInt16(acc[f, i])
    modifies acc
    ensures LanesUpdated(net, acc, f, 0, net.l1, old(LanesOf(acc, f)), adds, subs)
    ensures forall g: nat, i: nat | g < acc.Length0 && g != f && i < acc.Length1 :: acc[g, i] == old(acc[g, i])
  {
    hide Wrap16, LaneUpdated, SumRows;
    ghost var was := LanesOf(acc, f);
    forall i: nat | i < net.l1
      ensures LaneUpdated(net, i, was[i], acc[f, i], [], [])
    {
      LaneStart(net, i, was[i]);
    }
    var r: nat := 0;
    while r < |adds|
      invariant r <= |adds| && LanesUpdated(net, acc, f, 0, net.l1, was, adds[..r], [])
      invariant forall g: nat, i: nat | g < acc.Length0 && g != f && i < acc.Length1 :: acc[g, i] == old(acc[g, i])
    {
      ghost var before := LanesOf(acc, f);
      assert adds[r] in adds;
      ApplyRow(acc, f, net, adds[r], true);
      assert adds[..r + 1] == adds[..r] + [adds[r]];
      forall i: nat | i < net.l1
        ensures LaneUpdated(net, i, was[i], acc[f, i], adds[..r + 1], [])
      {
        LaneAdd(net, i, was[i], before[i], adds[..r], adds[r]);
      }
      r := r + 1;
    }
    assert adds[..r] == adds;
    r := 0;
    while r < |subs|
      invariant r <= |subs| && LanesUpdated(net, acc, f, 0, net.l1, was, adds, subs[..r])
      invariant forall g: nat, i: nat | g < acc.Length0 && g != f && i < acc.Length1 :: acc[g, i] == old(acc[g, i])
    {
      ghost var before := LanesOf(acc, f);
      assert subs[r] in subs;
      ApplyRow(acc, f, net, subs[r], false);
      assert subs[..r + 1] == subs[..r] + [subs[r]];
      forall i: nat | i < net.l1
        ensures LaneUpdated(net, i, was[i], acc[f, i], adds, subs[..r + 1])
      {
        LaneSub(net, i, was[i], before[i], adds, subs[..r], subs[r]);
      }
      r := r + 1;
    }
    assert subs[..r] == subs;
  }

  // ----- the tiled kernel -----

  const TILE_LANES: nat := 128

  /** A tile of lanes held in registers. */
  type Tile = seq<int>

  /** One vector addition or subtraction of a piece of a row. */
  function CombineTile(tile: Tile, row: seq<int>, t: nat, add: bool): (r: Tile)
    requires |tile| == TILE_LANES && t + TILE_LANES <= |row|
    ensures |r| == TILE_LANES
  {
    seq(TILE_LANES, (k: nat) requires k < TILE_LANES => Wrap16(tile[k] + if add then row[t + k] else -row[t + k]))
  }

  ghost predicate TileUpdated(net: Net, t: nat, tile: Tile, was: seq<int>, adds: seq<nat>, subs: seq<nat>)
    requires |tile| == TILE_LANES && t + TILE_LANES <= |was|
  {
    forall k: nat | k < TILE_LANES :: LaneUpdated(net, t + k, was[t + k], tile[k], adds, subs)
  }

  /** One tile: all rows are added and subtracted before it is stored. */
  method UpdateTile(tile: Tile, net: Net, t: nat, adds: seq<nat>, subs: seq<nat>, ghost was: seq<int>) returns (r: Tile)
    requires |tile| == TILE_LANES && t + TILE_LANES <= net.l1 == |was| && RowsExist(net, adds) && RowsExist(net, subs)
    requires forall k: nat | k < TILE_LANES :: tile[k] == was[t + k] && IsInt16(tile[k])
    ensures |r| == TILE_LANES && TileUpdated(net, t, r, was, adds, subs)
  {
    hide Wrap16, LaneUpdated, SumRows;
    r := tile;
    forall k: nat | k < TILE_LANES
      ensures LaneUpdated(net, t + k, was[t + k], r[k], [], [])
    {
      assert tile[k] == was[t + k];
      LaneStart(net, t + k, was[t + k]);
    }
    var j: nat := 0;
    while j < |adds|
      invariant j <= |adds| && |r| == TILE_LANES && TileUpdated(net, t, r, was, adds[..j], [])
    {
      ghost var before := r;
      assert adds[j] in adds;
      r := CombineTile(r, net.weights[adds[j]], t, true);
      assert adds[..j + 1] == adds[..j] + [adds[j]];
      forall k: nat | k < TILE_LANES
        ensures LaneUpdated(net, t + k, was[t + k], r[k], adds[..j + 1], [])
      {
        LaneAdd(net, t + k, was[t + k], before[k], adds[..j], adds[j]);
      }
      j := j + 1;
    }
    assert adds[..j] == adds;
    j := 0;
    while j < |subs|
      invariant j <= |subs| && |r| == TILE_LANES && TileUpdated(net, t, r, was, adds, subs[..j])
    {
      ghost var before := r;
      assert subs[j] in subs;
      r := CombineTile(r, net.weights[subs[j]], t, false);
      assert subs[..j + 1] == subs[..j] + [subs[j]];
      forall k: nat | k < TILE_LANES
        ensures LaneUpdated(net, t + k, was[t + k], r[k], adds, subs[..j + 1])
      {
        LaneSub(net, t + k, was[t + k], before[k], adds, subs[..j], subs[j]);
      }
      j := j + 1;
    }
    assert subs[..j] == subs;
  }

  method StoreTile(acc: array2<int>, f: nat, t: nat, tile: Tile)
    requires f < acc.Length0 && t + TILE_LANES <= acc.Length1 && |tile| == TILE_LANES
    modifies acc
    ensures forall k: nat | k < TILE_LANES :: acc[f, t + k] == tile[k]
    ensures forall g: nat, i: nat | g < acc.Length0 && i < acc.Length1 && (g != f || i < t || t + TILE_LANES <= i) ::
              acc[g, i] == old(acc[g, i])
  {
    var k: nat := 0;
    while k < TILE_LANES
      invariant k <= TILE_LANES
      invariant forall m: nat | m < k :: acc[f, t + m] == tile[m]
      invariant forall g: nat, i: nat | g < acc.Length0 && i < acc.Length1 && (g != f || i < t || t + TILE_LANES <= i) ::
                  acc[g, i] == old(acc[g, i])
    {
      acc[f, t + k] := tile[k];
      k := k + 1;
    }
  }

  method ReadTile(acc: array2<int>, f: nat, t: nat) returns (tile: Tile)
    requires f < acc.Length0 && t + TILE_LANES <= acc.Length1
    ensures |tile| == TILE_LANES && forall k: nat | k < TILE_LANES :: tile[k] == acc[f, t + k]
  {
    tile := [];
    var k: nat := 0;
    while k < TILE_LANES
      invariant k <= TILE_LANES && |tile| == k
      invariant forall m: nat | m < k :: tile[m] == acc[f, t + m]
    {
      tile := tile + [acc[f, t + k]];
      k := k + 1;
    }
  }

  /** The vector kernel: tile by tile over all rows. Its contract is the reference one, so
      both leave the same lanes. */
  method UpdateRowsTiled(acc: array2<int>, f: nat, net: Net, adds: seq<nat>, subs: seq<nat>)
    requires f < acc.Length0 && acc.Length1 == net.l1 && RowsExist(net, adds) && RowsExist(net, subs)
    requires net.l1 % TILE_LANES == 0
    requires forall i: nat | i < net.l1 :: IsInt16(acc[f, i])
    modifies acc
    ensures LanesUpdated(net, acc, f, 0, net.l1, old(LanesOf(acc, f)), adds, subs)
    ensures forall g: nat, i: nat | g < acc.Length0 && g != f && i < acc.Length1 :: acc[g, i] == old(acc[g, i])
  {
    hide Wrap16, LaneUpdated, SumRows;
    ghost var was := LanesOf(acc, f);
    var t: nat := 0;
    while t < net.l1
      invariant t <= net.l1 && t % TILE_LANES == 0
      invariant LanesUpdated(net, acc, f, 0, t, was, adds, subs)
      invariant forall i: nat | t <= i < net.l1 :: acc[f, i] == was[i] && IsInt16(acc[f, i])
      invariant forall g: nat, i: nat | g < acc.Length0 && g != f && i < acc.Length1 :: acc[g, i] == old(acc[g, i])
    {
      assert t + TILE_LANES <= net.l1;
      var regs := ReadTile(acc, f, t);
      regs := UpdateTile(regs, net, t, adds, subs, was);
      ghost var before := LanesOf(acc, f);
      StoreTile(acc, f, t, regs);
      forall i: nat | i < t + TILE_LANES
        ensures LaneUpdated(net, i, was[i], acc[f, i], adds, subs)
      {
        if i < t {
          assert acc[f, i] == before[i];
        } else {
          assert acc[f, t + (i - t)] == regs[i - t];
        }
      }
      t := t + TILE_LANES;
    }
  }

  // ----- the cache -----

  const FRAMES: nat := 162

  function FrameIndex(p: Color, k: nat): (f: nat)
    requires k < 81
    ensures f < FRAMES
  {
    if p.Black? then k else 81 + k
  }

  function FrameColor(f: nat): Color { if f < 81 then Black else White }

  function FrameBase(f: nat): nat
    requires f < FRAMES
  {
    (if f < 81 then f else f - 81) * NUM_SLOTS
  }

  /** An accumulator holds the bias and all rows of its state, wrapped to 16 bits. */
  ghost predicate Holds(net: Net, f: nat, lanes: seq<int>, st: FrameState)
    requires net.Valid() && |lanes| == net.l1 && f < FRAMES && st.Sized()
  {
    forall i: nat | i < net.l1 :: lanes[i] == Wrap16(net.bias[i] + Rows(Lane(net, i), FrameColor(f), FrameBase(f), st))
  }

  ghost predicate GoodFrame(net: Net, f: nat, lanes: seq<int>, st: FrameState)
    requires net.Valid() && |lanes| == net.l1 && f < FRAMES
  {
    ValidState(st) && (st.initialized ==> Holds(net, f, lanes, st))
  }

  ghost predicate GoodCache(net: Net, lanes: seq<seq<int>>, states: seq<FrameState>) {
    && net.Valid() && |lanes| == FRAMES == |states|
    && forall f: nat | f < FRAMES :: |lanes[f]| == net.l1 && GoodFrame(net, f, lanes[f], states[f])
  }

  lemma ReplaceKeepsGood(net: Net, lanes: seq<seq<int>>, states: seq<FrameState>, f: nat, x: seq<int>, st: FrameState)
    requires GoodCache(net, lanes, states) && f < FRAMES && |x| == net.l1 && GoodFrame(net, f, x, st)
    ensures GoodCache(net, lanes[f := x], states[f := st])
  {
    hide GoodFrame;
  }

  lemma BiasAlone(net: Net, f: nat, lanes: seq<int>, st: FrameState)
    requires net.Valid() && lanes == net.bias && f < FRAMES && st.Sized() && st.pieces == NoPieces() && st.hand == NoHands()
    ensures Holds(net, f, lanes, st)
  {
    forall i: nat | i < net.l1
      ensures lanes[i] == Wrap16(net.bias[i] + Rows(Lane(net, i), FrameColor(f), FrameBase(f), st))
    {
      NoPiecesDiff(Lane(net, i), FrameColor(f), FrameBase(f), NoPieces(), 0);
      NoHandsDiff(Lane(net, i), FrameBase(f), NoHands(), 0);
      WrapIsInt16(net.bias[i]);
    }
  }

  /** Applying the difference turns an accumulator of one state into that of the other. */
  lemma UpdatedHolds(net: Net, f: nat, was: seq<int>, lanes: seq<int>, st: FrameState, st': FrameState, adds: seq<nat>, subs: seq<nat>)
    requires net.Valid() && |was| == net.l1 == |lanes| && f < FRAMES && st.Sized() && st'.Sized()
    requires Holds(net, f, was, st) && Leads(FrameColor(f), FrameBase(f), st, st', adds, subs)
    requires forall i: nat | i < net.l1 :: LaneUpdated(net, i, was[i], lanes[i], adds, subs)
    ensures Holds(net, f, lanes, st')
  {
    hide Wrap16, SumRows, Rows, DiffRows, InRange;
    forall i: nat | i < net.l1
      ensures lanes[i] == Wrap16(net.bias[i] + Rows(Lane(net, i), FrameColor(f), FrameBase(f), st'))
    {
      var w := Lane(net, i);
      DiffIsDifference(w, FrameColor(f), FrameBase(f), st', st);
      assert SumRows(adds, w) == DiffRows(w, FrameColor(f), FrameBase(f), st', st);
      assert SumRows(subs, w) == DiffRows(w, FrameColor(f), FrameBase(f), st, st');
      WrapAdds(net.bias[i] + Rows(w, FrameColor(f), FrameBase(f), st), SumRows(adds, w) - SumRows(subs, w));
      assert LaneUpdated(net, i, was[i], lanes[i], adds, subs);
    }
  }

  lemma HoldsInt16(net: Net, f: nat, lanes: seq<int>, st: FrameState)
    requires net.Valid() && |lanes| == net.l1 && f < FRAMES && st.Sized() && Holds(net, f, lanes, st)
    ensures forall i: nat | i < net.l1 :: IsInt16(lanes[i])
  {
    forall i: nat | i < net.l1
      ensures IsInt16(lanes[i])
    {
      WrapIsInt16(net.bias[i] + Rows(Lane(net, i), FrameColor(f), FrameBase(f), st));
    }
  }

  lemma RowsOfFrameExist(net: Net, f: nat, list: seq<nat>)
    requires net.Valid() && f < FRAMES && InRange(list, FrameBase(f))
    ensures RowsExist(net, list)
  {
  }

  class ValueScratch {
    const net: Net
    const cacheAcc: array2<int>
    const state: array<FrameState>
    var rowsA: nat

    ghost predicate Sized() {
      net.Valid() && cacheAcc.Length0 == FRAMES && cacheAcc.Length1 == net.l1 && state.Length == FRAMES
    }

    /** Every accumulator in use agrees with its state. */
    ghost predicate Valid()
      reads state, cacheAcc
    {
      Sized() && GoodCache(net, AllLanes(), state[..])
    }

    /** All accumulators by value. */
    ghost function AllLanes(): (s: seq<seq<int>>)
      requires Sized()
      reads cacheAcc
      ensures |s| == FRAMES && forall g: nat | g < FRAMES :: s[g] == LanesOf(cacheAcc, g)
    {
      seq(FRAMES, (g: nat) requires g < FRAMES && Sized() reads cacheAcc => LanesOf(cacheAcc, g))
    }

    constructor (net: Net)
      requires net.Valid()
      ensures Valid() && this.net == net && fresh(cacheAcc) && fresh(state)
    {
      this.net := net;
      cacheAcc := new int[FRAMES, net.l1]((f, i) => 0);
      state := new FrameState[FRAMES](f => EmptyState());
      rowsA := 0;
      new;
      EmptyIsValid();
    }

    /** Forgets every cached accumulator. */
    method Reset()
      requires Sized()
      modifies this`rowsA, state
      ensures Valid() && rowsA == 0
    {
      var f: nat := 0;
      while f < FRAMES
        invariant f <= FRAMES
        invariant forall g: nat | g < f :: state[g] == EmptyState()
      {
        state[f] := EmptyState();
        f := f + 1;
      }
      rowsA := 0;
      EmptyIsValid();
    }

    /** The cached state of a frame, or that of a bare bias when nothing is cached. */
    method StartFrame(f: nat) returns (st: FrameState)
      requires Valid() && f < FRAMES
      modifies cacheAcc
      ensures ValidState(st) && st.Sized() && Holds(net, f, LanesOf(cacheAcc, f), st)
      ensures AllLanes() == old(AllLanes())[f := LanesOf(cacheAcc, f)]
    {
      hide ValidState, Holds;
      GoodFrameIs(f);
      st := state[f];
      if st.initialized {
        StateIsSized(st);
        return;
      }
      CopyBias(cacheAcc, f, net);
      st := FrameState(NoPieces(), NoHands(), false);
      assert LanesOf(cacheAcc, f) == net.bias;
      BiasAlone(net, f, LanesOf(cacheAcc, f), st);
      EmptyIsValidState();
      OneFrameChanged(f);
    }

    /** The accumulators when one frame alone has changed. */
    twostate lemma OneFrameChanged(f: nat)
      requires Sized() && f < FRAMES
      requires forall g: nat | g < FRAMES && g != f :: LanesOf(cacheAcc, g) == old(LanesOf(cacheAcc, g))
      ensures AllLanes() == old(AllLanes())[f := LanesOf(cacheAcc, f)]
    {
    }

    /** Applies a difference to the accumulator of a frame. */
    method ApplyDiff(f: nat, ghost st: FrameState, ghost st': FrameState, adds: seq<nat>, subs: seq<nat>)
      requires Sized() && f < FRAMES && st.Sized() && st'.Sized() && Holds(net, f, LanesOf(cacheAcc, f), st)
      requires Leads(FrameColor(f), FrameBase(f), st, st', adds, subs)
      modifies this`rowsA, cacheAcc
      ensures Holds(net, f, LanesOf(cacheAcc, f), st') && rowsA == old(rowsA) + |adds| + |subs|
      ensures AllLanes() == old(AllLanes())[f := LanesOf(cacheAcc, f)]
    {
      hide Holds, Leads, LaneUpdated;
      ghost var was := LanesOf(cacheAcc, f);
      HoldsInt16(net, f, was, st);
      ListsInRange(FrameColor(f), FrameBase(f), st, st', adds, subs);
      RowsOfFrameExist(net, f, adds);
      RowsOfFrameExist(net, f, subs);
      UpdateRows(cacheAcc, f, net, adds, subs);
      UpdatedHolds(net, f, was, LanesOf(cacheAcc, f), st, st', adds, subs);
      rowsA := rowsA + |adds| + |subs|;
      OneFrameChanged(f);
    }

    /** Applies what separates a frame's state from the board, and returns the new state. */
    method CatchUp(b: FeatureBoard, p: Color, f: nat, st: FrameState) returns (st': FrameState)
      requires Sized() && b.Valid() && f == FrameIndex(p, KingFrameSq(b, p))
      requires ValidState(st) && st.Sized() && Holds(net, f, LanesOf(cacheAcc, f), st)
      modifies this`rowsA, cacheAcc
      ensures st'.Sized() && Describes(st', b, p) && Holds(net, f, LanesOf(cacheAcc, f), st')
      ensures GoodFrame(net, f, LanesOf(cacheAcc, f), st')
      ensures AllLanes() == old(AllLanes())[f := LanesOf(cacheAcc, f)]
    {
      hide KingFrameSq, GoodFrame, ValidState, Holds, Describes, Leads;
      var adds: seq<nat>, subs: seq<nat>;
      st', adds, subs := GroupADiff(b, p, st);
      StateIsSized(st');
      FrameOf(p, KingFrameSq(b, p));
      ApplyDiff(f, st, st', adds, subs);
      HoldsIsGood(net, f, LanesOf(cacheAcc, f), st');
    }

    /** Brings the accumulator of the side's king square up to date with the board. Whatever
        it was used for before, it then holds the bias plus the rows of this position. */
    method RefreshFrame(b: FeatureBoard, p: Color) returns (f: nat)
      requires Valid() && b.Valid()
      modifies this`rowsA, state, cacheAcc
      ensures Valid() && f == FrameIndex(p, KingFrameSq(b, p))
      ensures forall i: nat | i < net.l1 :: cacheAcc[f, i] == Wrap16(net.bias[i] + FeatureSum(Lane(net, i), b, p))
      ensures forall i: nat | i < net.l1 :: cacheAcc[f, i] == Wrap16(net.bias[i] + FeatureSum(Lane(net, i), if p.White? then Turned(b) else b, Black))
      ensures AllLanes() == old(AllLanes())[f := LanesOf(cacheAcc, f)] && state[..] == old(state[..])[f := state[f]]
    {
      hide KingFrameSq, GoodCache, GoodFrame, ValidState, Holds, Describes, Wrap16, Lane, FeatureSum, Turned;
      f := FrameIndex(p, KingFrameSq(b, p));
      ghost var lanes, states := AllLanes(), state[..];
      var st := StartFrame(f);
      st := CatchUp(b, p, f, st);
      HeldIsSum(net, f, LanesOf(cacheAcc, f), st, b, p);
      EitherSide(net, b, p);
      state[f] := st;
      assert state[..] == states[f := st];
      assert AllLanes() == lanes[f := LanesOf(cacheAcc, f)];
      ReplaceKeepsGood(net, lanes, states, f, LanesOf(cacheAcc, f), st);
    }

    lemma EmptyIsValid()
      requires Sized() && forall g: nat | g < FRAMES :: state[g] == EmptyState()
      ensures Valid()
    {
      EmptyIsValidState();
    }

    lemma GoodFrameIs(f: nat)
      requires Valid() && f < FRAMES
      ensures GoodFrame(net, f, LanesOf(cacheAcc, f), state[f])
    {
    }
  }

  lemma FrameOf(p: Color, k: nat)
    requires k < 81
    ensures FrameColor(FrameIndex(p, k)) == p && FrameBase(FrameIndex(p, k)) == k * NUM_SLOTS
  {
  }

  lemma ListsInRange(p: Color, base: nat, st: FrameState, st': FrameState, adds: seq<nat>, subs: seq<nat>)
    requires Leads(p, base, st, st', adds, subs)
    ensures InRange(adds, base) && InRange(subs, base)
  {
  }

  lemma HoldsIsGood(net: Net, f: nat, lanes: seq<int>, st: FrameState)
    requires net.Valid() && |lanes| == net.l1 && f < FRAMES && ValidState(st) && st.Sized() && Holds(net, f, lanes, st)
    ensures GoodFrame(net, f, lanes, st)
  {
  }

  lemma EmptyIsValidState()
    ensures ValidState(EmptyState())
  {
    assert OnBoard({});
  }

  lemma EitherSide(net: Net, b: FeatureBoard, p: Color)
    requires net.Valid() && b.Valid()
    ensures forall i: nat | i < net.l1 :: FeatureSum(Lane(net, i), b, p) == FeatureSum(Lane(net, i), if p.White? then Turned(b) else b, Black)
  {
    hide FeatureSum, Turned, Lane;
    forall i: nat | i < net.l1
      ensures FeatureSum(Lane(net, i), b, p) == FeatureSum(Lane(net, i), if p.White? then Turned(b) else b, Black)
    {
      SidesAreAlike(Lane(net, i), b);
    }
  }

  /** What an accumulator holds for a state that describes the position is the position's
      own sum. */
  lemma HeldIsSum(net: Net, f: nat, lanes: seq<int>, st: FrameState, b: FeatureBoard, p: Color)
    requires net.Valid() && |lanes| == net.l1 && b.Valid() && st.Sized() && Describes(st, b, p)
    requires f == FrameIndex(p, KingFrameSq(b, p)) && Holds(net, f, lanes, st)
    ensures forall i: nat | i < net.l1 :: lanes[i] == Wrap16(net.bias[i] + FeatureSum(Lane(net, i), b, p))
  {
    hide Wrap16, Rows, KingFrameSq;
    forall i: nat | i < net.l1
      ensures lanes[i] == Wrap16(net.bias[i] + FeatureSum(Lane(net, i), b, p))
    {
      DescribedRows(Lane(net, i), st, b, p);
    }
  }
}
