/**
 * How large a grown index is, when an attempt at one fails, and why an index error is
 * never reported twice for the same capacity.
 */
module IndexGrowth {
  import opened Powers
  import opened Storage
  import opened IndexEntry
  import opened Shard
  import opened ShardOps
  import opened BucketSpec
  import opened WriteOutcomes
  import opened Growth
  import opened BucketInsert

  // ---------- one attempt ----------

  /** The cell where the search for a key starts in an index of 2^pow2 cells. */
  ghost function Start<T>(cfg: Config<T>, key: Pubkey, random: nat, pow2: nat): nat {
    cfg.indexHash(if cfg.keyHash(key) == 0 then 1 else cfg.keyHash(key), random) % Pow2(pow2)
  }

  /** Cell j is in use, and in the copy of the cells before it the whole window of its key is. */
  ghost predicate StuckAt<T>(cfg: Config<T>, was: seq<Cell<Entry>>, pow2: nat, random: nat, j: nat)
    requires j < |was|
  {
    && was[j].lock != UID_UNLOCKED
    && var copy := Rehash(cfg, was, j, pow2, random);
       copy.Some? && WindowFull(copy.value, Start(cfg, was[j].payload.key, random, pow2), cfg.maxSearch)
  }

  /** Copying one more cell: it goes as it is into the first free cell of the window of its key. */
  lemma RehashOneMore<T>(cfg: Config<T>, was: seq<Cell<Entry>>, n: nat, pow2: nat, random: nat)
    requires n < |was|
    ensures var copy, copy' := Rehash(cfg, was, n, pow2, random), Rehash(cfg, was, n + 1, pow2, random);
            && (copy.None? ==> copy'.None?)
            && (copy.Some? && was[n].lock == UID_UNLOCKED ==> copy' == copy)
            && (copy.Some? && was[n].lock != UID_UNLOCKED ==>
                  && |copy.value| == Pow2(pow2)
                  && var start := Start(cfg, was[n].payload.key, random, pow2);
                     && (copy'.None? <==> WindowFull(copy.value, start, cfg.maxSearch))
                     && forall i: nat :: FirstFreeAt(copy.value, start, cfg.maxSearch, i) ==>
                          copy' == Some(copy.value[i := was[n]]))
  {
    hide FirstFree, WindowFull, FirstFreeAt, Pow2;
    var copy := Rehash(cfg, was, n, pow2, random);
    if copy.Some? {
      FirstFreeIff(copy.value, Home(cfg, was[n].payload.key, random, |copy.value|), cfg.maxSearch);
    }
  }

  /** A rehash fails exactly when some key finds its whole window in use by the keys copied before it. */
  lemma {:induction false} RehashFailsIff<T>(cfg: Config<T>, was: seq<Cell<Entry>>, n: nat, pow2: nat, random: nat)
    requires n <= |was|
    ensures Rehash(cfg, was, n, pow2, random).None? <==> exists j :: 0 <= j < n && StuckAt(cfg, was, pow2, random, j)
  {
    hide Rehash, WindowFull, FirstFreeAt;
    if n == 0 {
      RehashOfNone(cfg, was, pow2, random);
    } else {
      RehashFailsIff(cfg, was, n - 1, pow2, random);
      RehashOneMore(cfg, was, n - 1, pow2, random);
      if Rehash(cfg, was, n - 1, pow2, random).Some? && Rehash(cfg, was, n, pow2, random).None? {
        assert StuckAt(cfg, was, pow2, random, n - 1);
      }
    }
  }

  lemma RehashOfNone<T>(cfg: Config<T>, was: seq<Cell<Entry>>, pow2: nat, random: nat)
    ensures var copy := Rehash(cfg, was, 0, pow2, random);
            copy.Some? && |copy.value| == Pow2(pow2) && LockedSet(copy.value) == {}
  {
    EmptyHasNoLocked(pow2, ZeroEntry());
  }

  // ---------- all attempts ----------

  /** An attempt with this capacity and seed copies every key. */
  ghost predicate Fits<T>(cfg: Config<T>, s: Shard<T>, pow2: nat, seed: nat) {
    forall j :: 0 <= j < |s.index.cells| ==> !StuckAt(cfg, s.index.cells, pow2, seed, j)
  }

  lemma FitsIff<T>(cfg: Config<T>, s: Shard<T>, pow2: nat, seed: nat)
    ensures Fits(cfg, s, pow2, seed) <==> Rehash(cfg, s.index.cells, |s.index.cells|, pow2, seed).Some?
  {
    hide Rehash, StuckAt;
    RehashFailsIff(cfg, s.index.cells, |s.index.cells|, pow2, seed);
  }

  /** Attempt k, with capacity 2^(p + k), is the first to fit, and g is the index it builds. */
  ghost predicate FirstFit<T>(cfg: Config<T>, s: Shard<T>, p: nat, seeds: seq<nat>, k: nat, g: Grown<T>) {
    && k < |seeds| && Fits(cfg, s, p + k, seeds[k])
    && (forall j: nat :: j < k ==> !Fits(cfg, s, p + j, seeds[j]))
    && g.NewIndex? && g.random == seeds[k]
    && g.index.pow2 == p + k && g.index.count == s.index.count
    && Some(g.index.cells) == Rehash(cfg, s.index.cells, |s.index.cells|, p + k, seeds[k])
  }

  lemma {:induction false} GrowIndexFrom<T>(cfg: Config<T>, s: Shard<T>, i: nat, p: nat, seeds: seq<nat>)
    returns (k: nat)
    requires p == s.index.pow2 + i
    ensures match GrowIndex(cfg, s, i, seeds)
            case None => forall k: nat :: k < |seeds| ==> !Fits(cfg, s, p + k, seeds[k])
            case Some(g) => FirstFit(cfg, s, p, seeds, k, g)
    decreases |seeds|
  {
    hide Rehash, Fits, Pow2;
    k := 0;
    if seeds != [] {
      FitsIff(cfg, s, p, seeds[0]);
      if !Fits(cfg, s, p, seeds[0]) {
        var rest := seeds[1..];
        k := GrowIndexFrom(cfg, s, i + 1, p + 1, rest);
        match GrowIndex(cfg, s, i, seeds)
        case None =>
          forall k: nat | k < |seeds|
            ensures !Fits(cfg, s, p + k, seeds[k])
          {
            assert k > 0 ==> p + k == p + 1 + (k - 1) && seeds[k] == rest[k - 1];
          }
        case Some(g) =>
          LaterFit(cfg, s, p, seeds, k, g);
          k := k + 1;
      }
    }
  }

  lemma LaterFit<T>(cfg: Config<T>, s: Shard<T>, p: nat, seeds: seq<nat>, k: nat, g: Grown<T>)
    requires seeds != [] && !Fits(cfg, s, p, seeds[0]) && FirstFit(cfg, s, p + 1, seeds[1..], k, g)
    ensures FirstFit(cfg, s, p, seeds, k + 1, g)
  {
    hide Rehash, Fits;
    var rest := seeds[1..];
    assert p + (k + 1) == p + 1 + k && seeds[k + 1] == rest[k];
    forall j: nat | j < k + 1
      ensures !Fits(cfg, s, p + j, seeds[j])
    {
      assert j > 0 ==> p + j == p + 1 + (j - 1) && seeds[j] == rest[j - 1];
    }
  }

  /**
   * What growing gives is the index of the first attempt that fits, attempt k having twice the
   * capacity of the one before it; it gives none only when no attempt fits.
   */
  lemma GrowIndexIsFirstFit<T>(cfg: Config<T>, s: Shard<T>, seeds: seq<nat>)
    ensures match GrowIndex(cfg, s, 1, seeds)
            case None => forall k: nat :: k < |seeds| ==> !Fits(cfg, s, s.index.pow2 + 1 + k, seeds[k])
            case Some(g) =>
              && g.NewIndex? && g.index.count == s.index.count && |g.index.cells| == Pow2(g.index.pow2)
              && exists k: nat :: k < |seeds|
                   && g.random == seeds[k] && g.index.pow2 == s.index.pow2 + 1 + k
                   && Fits(cfg, s, s.index.pow2 + 1 + k, seeds[k])
                   && forall j: nat :: j < k ==> !Fits(cfg, s, s.index.pow2 + 1 + j, seeds[j])
  {
    hide Rehash, Fits, Pow2;
    var k := GrowIndexFrom(cfg, s, 1, s.index.pow2 + 1, seeds);
  }

  // ---------- room in a grown index ----------

  lemma {:induction false} LockedBound<E>(cells: seq<Cell<E>>)
    ensures |LockedSet(cells)| <= |cells|
    ensures |LockedSet(cells)| < |cells| ==> exists i :: 0 <= i < |cells| && cells[i].lock == UID_UNLOCKED
    decreases |cells|
  {
    if cells != [] {
      var n := |cells| - 1;
      var front := cells[..n];
      LockedBound(front);
      if cells[n].lock == UID_UNLOCKED {
        assert LockedSet(cells) == LockedSet(front);
      } else {
        assert LockedSet(cells) == LockedSet(front) + {n};
        if |LockedSet(front)| < n {
          var i :| 0 <= i < n && front[i].lock == UID_UNLOCKED;
          assert cells[i].lock == UID_UNLOCKED;
        }
      }
    }
  }

  /** An index grown from a good one is at least twice as large and has a free cell. */
  lemma GrownIndexHasFree<T>(cfg: Config<T>, s: Shard<T>, seeds: seq<nat>)
    requires Inv(cfg, s) && GrowIndex(cfg, s, 1, seeds).Some?
    ensures var g := GrowIndex(cfg, s, 1, seeds).value;
            && g.NewIndex? && g.index.pow2 > s.index.pow2 && |g.index.cells| >= 2 * |s.index.cells|
            && exists i :: 0 <= i < |g.index.cells| && g.index.cells[i].lock == UID_UNLOCKED
  {
    hide Inv, Represents, Contents, GrowIndex, Fits;
    InvIndex(cfg, s);
    ContentsRepresented(cfg, s);
    GrowIndexStep(cfg, s, Contents(cfg, s), 1, seeds);
    var g := GrowIndex(cfg, s, 1, seeds).value;
    InvIndex(cfg, Install(cfg, s, g));
    GrowIndexIsFirstFit(cfg, s, seeds);
    Pow2Mono(s.index.pow2 + 1, g.index.pow2);
    LockedBound(s.index.cells);
    LockedBound(g.index.cells);
  }

  /** A request for an index of another size than the present one is stale, and only such a request is. */
  lemma StaleIff<T>(cfg: Config<T>, s: Shard<T>, err: Error, seeds: seq<nat>)
    requires CanGrow(s, err)
    ensures Grow(cfg, s, err, seeds) == Stale <==> err.IndexNoSpace? && err.pow2 != s.index.pow2
  {
    hide GrowIndex;
  }

  // ---------- an insert ----------

  lemma TryWriteKeepsCapacity<T>(cfg: Config<T>, s: Shard<T>, key: Pubkey, slots: seq<T>, refCount: nat, pos: nat)
    requires Inv(cfg, s)
    ensures TryWrite(cfg, s, key, slots, refCount, pos).0.index.pow2 == s.index.pow2
  {
    hide Inv, Represents, Contents, TryWrite, SearchEnds, FindEntryMut;
    InvIndex(cfg, s);
    ContentsRepresented(cfg, s);
    var m := Contents(cfg, s);
    var r := FindEntryMut(cfg, s.index.cells, s.random, key);
    SearchEndsIff(cfg, s, key, r);
    TryWriteErrorIff(cfg, s, m, key, slots, refCount, pos);
    TryWriteRefinesMap(cfg, s, m, key, slots, refCount, pos);
    if SizeClass(|slots|) < |s.data| {
      if r == Full {
        FullMeansNoEntry(cfg, s, m, key);
      } else {
        TryWritePlaces(cfg, s, m, key, slots, refCount, pos, r);
      }
    }
  }

  lemma FullMeansNoEntry<T>(cfg: Config<T>, s: Shard<T>, m: map<Pubkey, Value<T>>, key: Pubkey)
    requires Represents(s, m) && |s.index.cells| > 0 && SearchEnds(cfg, s, key, Full)
    ensures NoEntry(cfg, s, m, key)
  {
    hide Represents, WindowFull;
    RepresentsKeys(s, m, key);
  }

  /** Index errors among the first n, each of a larger capacity than all before it and none below p. */
  ghost predicate Rising(errors: seq<Error>, p: nat) {
    && (forall i :: 0 <= i < |errors| && errors[i].IndexNoSpace? ==> errors[i].pow2 >= p)
    && (forall i, j :: 0 <= i < j < |errors| && errors[i].IndexNoSpace? && errors[j].IndexNoSpace? ==>
          errors[i].pow2 < errors[j].pow2)
  }

  /** In the rounds of one insert every index error is for a larger index than the ones before. */
  lemma {:induction false} InsertIndexErrorsRise<T>(cfg: Config<T>, s: Shard<T>, key: Pubkey, v: Value<T>,
                                                    draws: seq<Draw>)
    requires Inv(cfg, s)
    ensures var r := Insert(cfg, s, key, v, draws);
            r.shard.index.pow2 >= s.index.pow2 && Rising(r.errors, s.index.pow2)
    decreases |draws|
  {
    hide Inv, Represents, Contents, TryWrite, GrowIndex, Rising;
    if draws == [] {
      RisingNone(s.index.pow2);
    } else {
      RoundCanGrow(cfg, s, key, v, draws[0]);
      TryWriteKeepsCapacity(cfg, s, key, v.slots, v.refCount, draws[0].pos);
      var (s1, err) := TryWrite(cfg, s, key, v.slots, v.refCount, draws[0].pos);
      if err.None? {
        RisingNone(s.index.pow2);
      } else {
        ContentsRepresented(cfg, s);
        TryWriteRefinesMap(cfg, s, Contents(cfg, s), key, v.slots, v.refCount, draws[0].pos);
        match Grow(cfg, s1, err.value, draws[0].seeds)
        case Unfinished =>
          RisingNone(s.index.pow2 + 1);
          RisingOne(err.value, [], s.index.pow2, s.index.pow2 + 1);
          assert [err.value] + [] == [err.value];
        case Grew(g) =>
          var s2 := Install(cfg, s1, g);
          InsertIndexErrorsRise(cfg, s2, key, v, draws[1..]);
          if err.value.IndexNoSpace? {
            GrownIndexHasFree(cfg, s1, draws[0].seeds);
          }
          RisingOne(err.value, Insert(cfg, s2, key, v, draws[1..]).errors, s.index.pow2, s2.index.pow2);
      }
    }
  }

  lemma RisingNone(p: nat)
    ensures Rising([], p)
  {
  }

  lemma RisingOne(e: Error, rest: seq<Error>, p: nat, q: nat)
    requires p <= q && Rising(rest, q)
    requires e.IndexNoSpace? ==> e.pow2 == p < q
    ensures Rising([e] + rest, p)
  {
    var errors := [e] + rest;
    forall i | 0 < i < |errors|
      ensures errors[i] == rest[i - 1]
    {
    }
  }

  /** The seeds of the round that met the last error: none of them fits the shard the insert was left with. */
  ghost predicate GaveUp<T>(cfg: Config<T>, r: InsertRun<T>, draws: seq<Draw>) {
    && 0 < |r.errors| <= |draws| && r.errors[|r.errors| - 1] == IndexNoSpace(r.shard.index.pow2)
    && var seeds := draws[|r.errors| - 1].seeds;
       forall k: nat :: k < |seeds| ==> !Fits(cfg, r.shard, r.shard.index.pow2 + 1 + k, seeds[k])
  }

  /** An insert stops only when it has written, has used up its draws, or no seed of a round fits. */
  lemma {:induction false} InsertStops<T>(cfg: Config<T>, s: Shard<T>, key: Pubkey, v: Value<T>, draws: seq<Draw>)
    requires Inv(cfg, s)
    ensures var r := Insert(cfg, s, key, v, draws);
            if r.done then |r.errors| < |draws| else |r.errors| == |draws| || GaveUp(cfg, r, draws)
    decreases |draws|
  {
    hide Inv, Represents, Contents, TryWrite, GrowIndex, Fits;
    if draws != [] {
      RoundCanGrow(cfg, s, key, v, draws[0]);
      var (s1, err) := TryWrite(cfg, s, key, v.slots, v.refCount, draws[0].pos);
      if err.Some? {
        match Grow(cfg, s1, err.value, draws[0].seeds)
        case Unfinished => GrowIndexIsFirstFit(cfg, s1, draws[0].seeds);
        case Grew(g) => InsertStops(cfg, Install(cfg, s1, g), key, v, draws[1..]);
      }
    }
  }
}
