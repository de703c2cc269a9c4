/** The transposition table of the branch-number solver: clusters of two slots, stamped
    with a 16-bit generation so that a new search need not clear them. */
module BnsTable {
  const CLUSTER_SIZE: nat := 2
  const GENERATIONS: nat := 0x1_0000
  const WORD: nat := 0x1_0000_0000_0000_0000
  const PLY_MULTIPLIER: nat := 0x9E37_79B9_7F4A_7C15

  /** The upper 48 bits of a tag identify position and ply, the lower 16 the search. */
  datatype BnsTTEntry = BnsTTEntry(tag: nat, abn: nat, obn: nat)
  {
    predicate FinalResult() { abn == 0 || obn == 0 }
  }

  datatype VictimPolicy = EffortPriority | AlwaysFirst

  const EMPTY := BnsTTEntry(0, 0, 0)

  function GenerationOf(e: BnsTTEntry): nat { e.tag % GENERATIONS }

  function Mix(hash: nat, ply: nat): nat { (hash + ply * PLY_MULTIPLIER) % WORD }

  function TagOf(mixed: nat, gen: nat): nat { mixed - mixed % GENERATIONS + gen }

  /** First slot of the key's cluster in a table of `n` slots. */
  function IndexOf(mixed: nat, n: nat): (b: nat)
    requires n >= CLUSTER_SIZE && n % CLUSTER_SIZE == 0
    ensures b + CLUSTER_SIZE <= n && b % CLUSTER_SIZE == 0
  {
    var i := mixed % n;
    EvenBelow(i, n);
    i - i % CLUSTER_SIZE
  }

  /** Every slot belongs to the cluster of the keys whose lowest bits name it. */
  lemma SlotOfKey(mixed: nat, n: nat)
    requires n >= CLUSTER_SIZE && n % CLUSTER_SIZE == 0
    ensures IndexOf(mixed, n) <= mixed % n < IndexOf(mixed, n) + CLUSTER_SIZE
  {
  }

  lemma EvenBelow(i: nat, n: nat)
    requires i < n && n % 2 == 0
    ensures i - i % 2 + 2 <= n && (i - i % 2) % 2 == 0
  {
    if i % 2 == 0 && i + 1 == n {
      assert false;
    }
  }

  /** The multiplier can be undone: times this it leaves one, and so many whole words. */
  const PLY_INVERSE: nat := 0xF1DE_83E1_9937_733D
  const WHOLE_WORDS: nat := 0x957B_BF35_006E_D677

  lemma Undone(d: int, k: int)
    requires d * PLY_MULTIPLIER == k * WORD
    ensures d == WORD * (k * PLY_INVERSE - WHOLE_WORDS * d)
  {
    assert PLY_MULTIPLIER * PLY_INVERSE == 1 + WHOLE_WORDS * WORD;
  }

  lemma SmallMultiple(d: int, t: int)
    requires d == WORD * t && 0 - WORD < d < WORD
    ensures d == 0
  {
  }

  lemma SameRemainder(a: int, b: int) returns (k: int)
    requires a % WORD == b % WORD
    ensures a - b == k * WORD
  {
    k := a / WORD - b / WORD;
  }

  /** A position is told apart from itself at any other ply, and from others at the same ply. */
  lemma {:induction false} MixTellsApart(hash: nat, hash': nat, ply: nat, ply': nat)
    requires hash < WORD && hash' < WORD && ply < WORD && ply' < WORD
    ensures Mix(hash, ply) == Mix(hash, ply') <==> ply == ply'
    ensures Mix(hash, ply) == Mix(hash', ply) <==> hash == hash'
  {
    if Mix(hash, ply) == Mix(hash, ply') {
      var k := SameRemainder(hash + ply * PLY_MULTIPLIER, hash + ply' * PLY_MULTIPLIER);
      Undone(ply - ply', k);
      SmallMultiple(ply - ply', k * PLY_INVERSE - WHOLE_WORDS * (ply - ply'));
    }
    if Mix(hash, ply) == Mix(hash', ply) {
      var k := SameRemainder(hash + ply * PLY_MULTIPLIER, hash' + ply * PLY_MULTIPLIER);
      SmallMultiple(hash - hash', k);
    }
  }

  lemma TagIsLive(mixed: nat, gen: nat, e: BnsTTEntry)
    requires gen < GENERATIONS && e.tag == TagOf(mixed, gen)
    ensures GenerationOf(e) == gen
  {
    assert mixed - mixed % GENERATIONS == mixed / GENERATIONS * GENERATIONS;
  }

  // ----- what every run of the operations keeps -----

  predicate Live(slots: seq<BnsTTEntry>, gen: nat, i: nat) {
    i < |slots| && GenerationOf(slots[i]) == gen
  }

  lemma MatchIsLive(slots: seq<BnsTTEntry>, gen: nat, mixed: nat, i: nat)
    requires gen < GENERATIONS && i < |slots| && slots[i].tag == TagOf(mixed, gen)
    ensures Live(slots, gen, i)
  {
    TagIsLive(mixed, gen, slots[i]);
  }

  /** No slot is stamped by a search still to come. */
  ghost predicate NoneFromTheFuture(slots: seq<BnsTTEntry>, gen: nat) {
    forall i: nat | i < |slots| :: GenerationOf(slots[i]) <= gen
  }

  ghost predicate IsCluster(slots: seq<BnsTTEntry>, b: nat) {
    b % CLUSTER_SIZE == 0 && b + CLUSTER_SIZE <= |slots|
  }

  /** The current search's slots of a cluster come first and carry distinct tags. */
  ghost predicate LivePrefix(slots: seq<BnsTTEntry>, gen: nat, b: nat)
    requires IsCluster(slots, b)
  {
    && (Live(slots, gen, b + 1) ==> Live(slots, gen, b))
    && (Live(slots, gen, b + 1) ==> slots[b].tag != slots[b + 1].tag)
  }

  ghost predicate Packed(slots: seq<BnsTTEntry>, gen: nat) {
    && |slots| >= CLUSTER_SIZE && |slots| % CLUSTER_SIZE == 0
    && NoneFromTheFuture(slots, gen)
    && forall b: nat | IsCluster(slots, b) :: LivePrefix(slots, gen, b)
  }

  /** The slot a scan of the whole cluster finds, or -1. */
  ghost function FullScan(slots: seq<BnsTTEntry>, b: nat, tag: nat): int
    requires b + CLUSTER_SIZE <= |slots|
  {
    if slots[b].tag == tag then b else if slots[b + 1].tag == tag then b + 1 else -1
  }

  /** The slot a new key takes in a cluster that does not hold it: the first stale slot,
      else the victim the policy names. */
  ghost function SlotForNew(slots: seq<BnsTTEntry>, effort: seq<nat>, gen: nat, policy: VictimPolicy, b: nat): nat
    requires b + CLUSTER_SIZE <= |slots| && |effort| == |slots|
  {
    if !Live(slots, gen, b) then b
    else if !Live(slots, gen, b + 1) then b + 1
    else if policy.AlwaysFirst? then b
    else if slots[b].FinalResult() != slots[b + 1].FinalResult() then
      (if slots[b].FinalResult() then b + 1 else b)
    else if effort[b + 1] < effort[b] then b + 1 else b
  }

  lemma {:induction false} InsertKeepsPacked(slots: seq<BnsTTEntry>, gen: nat, b: nat, i: nat, e: BnsTTEntry)
    requires Packed(slots, gen) && IsCluster(slots, b) && (i == b || i == b + 1)
    requires GenerationOf(e) == gen && FullScan(slots, b, e.tag) == -1
    requires i == b + 1 ==> Live(slots, gen, b)
    ensures Packed(slots[i := e], gen)
  {
    hide GenerationOf;
    var slots' := slots[i := e];
    forall k: nat | k < |slots'|
      ensures GenerationOf(slots'[k]) <= gen
    {
    }
    forall c: nat | IsCluster(slots', c)
      ensures LivePrefix(slots', gen, c)
    {
      assert IsCluster(slots, c) && LivePrefix(slots, gen, c);
      ClustersAreApart(b, c);
    }
  }

  lemma ClustersAreApart(b: nat, c: nat)
    requires b % CLUSTER_SIZE == 0 && c % CLUSTER_SIZE == 0
    ensures b == c || b + 1 < c || c + 1 < b
  {
  }

  lemma RewriteKeepsPacked(slots: seq<BnsTTEntry>, gen: nat, i: nat, e: BnsTTEntry)
    requires Packed(slots, gen) && i < |slots| && e.tag == slots[i].tag
    ensures Packed(slots[i := e], gen)
  {
    hide GenerationOf;
    var slots' := slots[i := e];
    assert forall k: nat | k < |slots| :: slots'[k].tag == slots[k].tag && GenerationOf(slots'[k]) == GenerationOf(slots[k]) by {
      SameTagSameGeneration(slots[i], e);
    }
    forall c: nat | IsCluster(slots', c)
      ensures LivePrefix(slots', gen, c)
    {
      assert IsCluster(slots, c) && LivePrefix(slots, gen, c);
    }
  }

  lemma SameTagSameGeneration(a: BnsTTEntry, b: BnsTTEntry)
    requires a.tag == b.tag
    ensures GenerationOf(a) == GenerationOf(b)
  {
  }

  /** A new generation makes every slot stale at once, and needs a cleared table exactly
      when the 16-bit counter wraps. */
  lemma {:induction false} FreshGeneration(slots: seq<BnsTTEntry>, gen: nat)
    requires |slots| >= CLUSTER_SIZE && |slots| % CLUSTER_SIZE == 0
    requires forall i: nat | i < |slots| :: GenerationOf(slots[i]) < gen
    ensures Packed(slots, gen) && forall i: nat :: !Live(slots, gen, i)
  {
    hide GenerationOf;
    assert forall i: nat :: !Live(slots, gen, i);
    assert forall b: nat | IsCluster(slots, b) :: LivePrefix(slots, gen, b);
  }

  /** Why the lookup may stop at a stale slot: nothing behind one can match. */
  lemma {:induction false} StaleEndsTheScan(slots: seq<BnsTTEntry>, gen: nat, b: nat, mixed: nat)
    requires Packed(slots, gen) && IsCluster(slots, b) && gen < GENERATIONS
    requires slots[b].tag != TagOf(mixed, gen) && !Live(slots, gen, b)
    ensures FullScan(slots, b, TagOf(mixed, gen)) == -1
  {
    assert LivePrefix(slots, gen, b);
    if slots[b + 1].tag == TagOf(mixed, gen) {
      TagIsLive(mixed, gen, slots[b + 1]);
      assert false;
    }
  }

  /** A key just inserted is found again, and no other key's lookup is disturbed except by
      the slot that was given away. */
  lemma {:induction false} InsertedIsFound(slots: seq<BnsTTEntry>, b: nat, i: nat, e: BnsTTEntry, c: nat, tag: nat)
    requires IsCluster(slots, b) && (i == b || i == b + 1) && FullScan(slots, b, e.tag) == -1 && IsCluster(slots, c)
    ensures FullScan(slots[i := e], b, e.tag) == i
    ensures c != b ==> FullScan(slots[i := e], c, tag) == FullScan(slots, c, tag)
    ensures c == b && tag != e.tag && FullScan(slots, c, tag) != i ==> FullScan(slots[i := e], c, tag) == FullScan(slots, c, tag)
  {
    ClustersAreApart(b, c);
  }

  class BnsTT {
    var table: array<BnsTTEntry>
    var effortOf: array<nat>
    var gen: nat
    var victimPolicy: VictimPolicy
    var useEffort: bool
    var probes: nat
    var hits: nat
    var stores: nat
    var evictions: nat

    /** Arrays of equal length; an unallocated table has length zero. */
    ghost predicate Valid()
      reads this`table, this`effortOf, this`gen, this`victimPolicy, this`useEffort, table
    {
      && table.Length == effortOf.Length && gen < GENERATIONS
      && (table.Length != 0 ==> table.Length >= CLUSTER_SIZE && table.Length % CLUSTER_SIZE == 0)
      && NoneFromTheFuture(table[..], gen)
      && (victimPolicy.EffortPriority? ==> useEffort)
    }

    /** After `NewSearch` the table answers lookups. */
    ghost predicate Ready()
      reads this`table, this`effortOf, this`gen, this`victimPolicy, this`useEffort, table
    {
      Valid() && gen >= 1 && Packed(table[..], gen)
    }

    function Base(hash: nat, ply: nat): nat
      requires table.Length >= CLUSTER_SIZE && table.Length % CLUSTER_SIZE == 0
      reads this`table
    {
      IndexOf(Mix(hash, ply), table.Length)
    }

    function Tag(hash: nat, ply: nat): nat
      reads this`gen
    {
      TagOf(Mix(hash, ply), gen)
    }

    constructor (policy: VictimPolicy)
      ensures Valid() && fresh(table) && fresh(effortOf) && table.Length == 0 && victimPolicy == policy
    {
      table := new BnsTTEntry[0];
      effortOf := new nat[0];
      gen := 0;
      victimPolicy := policy;
      useEffort := policy.EffortPriority?;
      probes, hits, stores, evictions := 0, 0, 0, 0;
    }

    /** A table of the largest power of two of slots that fits, but at least 4096; one of
        the right size is kept with everything in it. */
    method Resize(want: nat)
      requires Valid()
      modifies this
      ensures Valid() && table.Length >= CLUSTER_SIZE
      ensures table.Length <= 0x1000 || table.Length <= want
      ensures want < 2 * table.Length
      ensures if table.Length == old(table.Length) then table == old(table) && effortOf == old(effortOf) && gen == old(gen)
              else fresh(table) && fresh(effortOf) && gen == 0 && forall i: nat | i < table.Length :: table[i] == EMPTY
      ensures victimPolicy == old(victimPolicy) && useEffort == old(useEffort)
    {
      var n: nat := 0x1000;
      while n * 2 <= want
        invariant n >= 0x1000 && n % CLUSTER_SIZE == 0 && (n == 0x1000 || n <= want)
        decreases want - n
      {
        n := n * 2;
      }
      if n != table.Length {
        table := new BnsTTEntry[n](_ => EMPTY);
        effortOf := new nat[n](_ => 0);
        gen := 0;
      }
    }

    /** Start of a search: nothing stored before is seen again. */
    method NewSearch()
      requires Valid() && table.Length > 0
      modifies this, table
      ensures Ready() && table == old(table) && effortOf == old(effortOf)
      ensures gen == if old(gen) + 1 == GENERATIONS then 1 else old(gen) + 1
      ensures forall i: nat :: !Live(table[..], gen, i)
      ensures old(gen) + 1 < GENERATIONS ==> table[..] == old(table[..])
      ensures victimPolicy == old(victimPolicy) && useEffort == old(useEffort)
    {
      gen := (gen + 1) % GENERATIONS;
      if gen == 0 {
        ClearTable();
        gen := 1;
      }
      FreshGeneration(table[..], gen);
      probes, hits, stores, evictions := 0, 0, 0, 0;
    }

    method ClearTable()
      modifies table
      ensures forall i: nat | i < table.Length :: table[i] == EMPTY
    {
      var i: nat := 0;
      while i < table.Length
        invariant i <= table.Length
        invariant forall k: nat | k < i :: table[k] == EMPTY
      {
        table[i] := EMPTY;
        i := i + 1;
      }
    }

    /** The lookup that stops at the first stale slot finds what a full scan would. */
    method Probe(hash: nat, ply: nat) returns (e: int)
      requires Ready()
      modifies this`probes, this`hits
      ensures Ready()
      ensures e == FullScan(table[..], Base(hash, ply), Tag(hash, ply))
      ensures e >= 0 ==> Live(table[..], gen, e)
    {
      probes := probes + 1;
      hide TagOf, Mix, IndexOf;
      var b, tag := Base(hash, ply), Tag(hash, ply);
      var i: nat := 0;
      while i < CLUSTER_SIZE
        invariant i <= CLUSTER_SIZE
        invariant i >= 1 ==> table[b].tag != tag && Live(table[..], gen, b)
        invariant i >= 2 ==> table[b + 1].tag != tag
      {
        if table[b + i].tag == tag {
          hits := hits + 1;
          MatchIsLive(table[..], gen, Mix(hash, ply), b + i);
          return b + i;
        }
        if GenerationOf(table[b + i]) != gen {
          if i == 0 {
            StaleEndsTheScan(table[..], gen, b, Mix(hash, ply));
          }
          return -1;
        }
        i := i + 1;
      }
      return -1;
    }

    /** Whether slot `c` is a better victim than slot `v`. */
    function PrefersVictim(v: nat, c: nat): bool
      requires v < table.Length && c < table.Length && table.Length == effortOf.Length
      reads this`table, this`effortOf, table, effortOf
    {
      (table[v].FinalResult() && !table[c].FinalResult())
      || (table[v].FinalResult() == table[c].FinalResult() && effortOf[c] < effortOf[v])
    }

    /** Writes a fresh entry for `tag` into slot `i`. */
    method Claim(i: nat, tag: nat)
      requires i < table.Length && table.Length == effortOf.Length
      modifies table, effortOf
      ensures table[..] == old(table[..])[i := BnsTTEntry(tag, 1, 1)]
      ensures effortOf[..] == if useEffort then old(effortOf[..])[i := 0] else old(effortOf[..])
    {
      table[i] := BnsTTEntry(tag, 1, 1);
      if useEffort {
        effortOf[i] := 0;
      }
    }

    /** The cluster scan shared by lookup-or-insert and store: the slot of the key, or the
        slot a new entry for it takes. */
    method FindSlot(b: nat, tag: nat, ghost mixed: nat) returns (i: nat, found: bool)
      requires Ready() && IsCluster(table[..], b) && tag == TagOf(mixed, gen)
      ensures found ==> i == FullScan(table[..], b, tag)
      ensures !found ==> FullScan(table[..], b, tag) == -1
      ensures !found ==> i == SlotForNew(table[..], effortOf[..], gen, victimPolicy, b)
    {
      var victim: int := -1;
      var k: nat := 0;
      while k < CLUSTER_SIZE
        invariant k <= CLUSTER_SIZE
        invariant k == 0 ==> victim == -1
        invariant k >= 1 ==> table[b].tag != tag && Live(table[..], gen, b)
        invariant k == 1 ==> victim == b
        invariant k == 2 ==> table[b + 1].tag != tag && Live(table[..], gen, b + 1)
        invariant k == 2 ==> victim == SlotForNew(table[..], effortOf[..], gen, victimPolicy, b)
      {
        if table[b + k].tag == tag {
          return b + k, true;
        }
        if GenerationOf(table[b + k]) != gen {
          if k == 0 {
            StaleEndsTheScan(table[..], gen, b, mixed);
          } else {
            NoLaterMatch(table[..], gen, b, mixed);
          }
          return b + k, false;
        }
        if victim < 0 {
          victim := b + k;
        } else if victimPolicy.EffortPriority? && PrefersVictim(victim, b + k) {
          victim := b + k;
        }
        k := k + 1;
      }
      return victim, false;
    }

    /** Lookup and insertion in one scan, for the node about to be searched. */
    method ProbeOrStore(hash: nat, ply: nat) returns (e: nat, inserted: bool)
      requires Ready()
      modifies this`probes, this`hits, this`stores, this`evictions, table, effortOf
      ensures Ready()
      ensures e < table.Length && e == FullScan(table[..], Base(hash, ply), Tag(hash, ply)) && Live(table[..], gen, e)
      ensures inserted <==> old(FullScan(table[..], Base(hash, ply), Tag(hash, ply))) == -1
      ensures !inserted ==> table[..] == old(table[..]) && effortOf[..] == old(effortOf[..])
      ensures inserted ==> e == old(SlotForNew(table[..], effortOf[..], gen, victimPolicy, Base(hash, ply)))
      ensures inserted ==> table[..] == old(table[..])[e := BnsTTEntry(Tag(hash, ply), 1, 1)]
    {
      probes := probes + 1;
      var found: bool;
      e, found := FindSlot(Base(hash, ply), Tag(hash, ply), Mix(hash, ply));
      if found {
        hits := hits + 1;
        TagIsLive(Mix(hash, ply), gen, table[e]);
        return e, false;
      }
      stores := stores + 1;
      Insert(e, hash, ply);
      inserted := true;
    }

    /** Gives slot `e` to the key, counting an eviction when the slot was in use. */
    method Insert(e: nat, hash: nat, ply: nat)
      requires Ready() && FullScan(table[..], Base(hash, ply), Tag(hash, ply)) == -1
      requires e == SlotForNew(table[..], effortOf[..], gen, victimPolicy, Base(hash, ply))
      modifies this`evictions, table, effortOf
      ensures Ready() && e < table.Length && Live(table[..], gen, e)
      ensures table[..] == old(table[..])[e := BnsTTEntry(Tag(hash, ply), 1, 1)]
      ensures e == FullScan(table[..], Base(hash, ply), Tag(hash, ply))
    {
      ghost var b, was, entry := Base(hash, ply), table[..], BnsTTEntry(Tag(hash, ply), 1, 1);
      TagIsLive(Mix(hash, ply), gen, entry);
      InsertKeepsPacked(was, gen, b, e, entry);
      InsertedIsFound(was, b, e, entry, b, entry.tag);
      if GenerationOf(table[e]) == gen {
        evictions := evictions + 1;
      }
      Claim(e, Tag(hash, ply));
    }

    /** The slot to write for this key: the caller's own slot if it still holds the key, the
        live match, or a slot freshly given to the key. */
    method Store(hash: nat, ply: nat, cached: int) returns (e: nat)
      requires Ready() && cached < table.Length
      requires cached >= 0 ==> Base(hash, ply) <= cached < Base(hash, ply) + CLUSTER_SIZE
      modifies this`stores, this`evictions, table, effortOf
      ensures Ready()
      ensures e < table.Length && e == FullScan(table[..], Base(hash, ply), Tag(hash, ply)) && Live(table[..], gen, e)
      ensures var before := old(FullScan(table[..], Base(hash, ply), Tag(hash, ply)));
              if before >= 0 then e == before && table[..] == old(table[..])
              else
                && e == old(SlotForNew(table[..], effortOf[..], gen, victimPolicy, Base(hash, ply)))
                && table[..] == old(table[..])[e := BnsTTEntry(Tag(hash, ply), 1, 1)]
      ensures cached >= 0 && old(table[cached].tag) == Tag(hash, ply) ==> e == cached
    {
      stores := stores + 1;
      if cached >= 0 && table[cached].tag == Tag(hash, ply) {
        TagIsLive(Mix(hash, ply), gen, table[cached]);
        OnlyOneMatch(table[..], gen, Base(hash, ply), cached);
        return cached;
      }
      var found: bool;
      e, found := FindSlot(Base(hash, ply), Tag(hash, ply), Mix(hash, ply));
      if found {
        TagIsLive(Mix(hash, ply), gen, table[e]);
        return;
      }
      Insert(e, hash, ply);
    }

    /** Writes the numbers of an entry in place. */
    method Write(e: nat, abn: nat, obn: nat)
      requires Ready() && e < table.Length
      modifies table
      ensures Ready() && table[..] == old(table[..])[e := old(table[e]).(abn := abn, obn := obn)]
    {
      RewriteKeepsPacked(table[..], gen, e, table[e].(abn := abn, obn := obn));
      table[e] := table[e].(abn := abn, obn := obn);
      assert table[..] == old(table[..])[e := old(table[e]).(abn := abn, obn := obn)];
    }
  }

  lemma NoLaterMatch(slots: seq<BnsTTEntry>, gen: nat, b: nat, mixed: nat)
    requires IsCluster(slots, b) && gen < GENERATIONS
    requires slots[b].tag != TagOf(mixed, gen) && slots[b + 1].tag != TagOf(mixed, gen)
    ensures FullScan(slots, b, TagOf(mixed, gen)) == -1
  {
  }

  lemma OnlyOneMatch(slots: seq<BnsTTEntry>, gen: nat, b: nat, i: nat)
    requires Packed(slots, gen) && IsCluster(slots, b) && b <= i < b + CLUSTER_SIZE && Live(slots, gen, i)
    ensures FullScan(slots, b, slots[i].tag) == i
  {
    assert LivePrefix(slots, gen, b);
  }
}
