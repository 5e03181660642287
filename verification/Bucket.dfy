/** A bucket as an object: one index storage, data storages, and the slots for a pending reallocation. */
module Buckets {
  import opened Sequences
  import opened Storage
  import opened BucketStorages
  import opened IndexEntry
  import opened Shard
  import ShardOps
  import opened BucketSpec
  import WriteOutcomes
  import opened Growth
  import opened BucketInsert
  import IndexGrowth
  import opened BucketOps

  type Error = ShardOps.Error

  /** How a call ends: `StillRunning` when the random choices given did not suffice for its loop. */
  datatype Ending = Returned | StillRunning | Panicked

  /**
   * How a grow request ends, with the counter as it was before: a size that is too stale
   * panics in the subtraction of capacities, a reallocation under way at the counter.
   */
  function GrowEnding<T>(cfg: Config<T>, s: Shard<T>, err: Error, seeds: seq<nat>, active: nat): Ending {
    if !CanGrow(s, err) then Panicked
    else
      match BucketInsert.Grow(cfg, s, err, seeds)
      case Stale => Returned
      case Unfinished => StillRunning
      case Grew(_) => if active == 0 then Returned else Panicked
  }

  /** How an insert ends on a jammed bucket: it has one attempt, and the grow after that panics. */
  function JammedInsert<T>(cfg: Config<T>, s: Shard<T>, key: Pubkey, v: Value<T>, draws: seq<Draw>): (Shard<T>, Ending)
    requires Inv(cfg, s)
  {
    if draws == [] then (s, StillRunning)
    else
      var (s1, err) := BucketSpec.TryWrite(cfg, s, key, v.slots, v.refCount, draws[0].pos);
      (s1, if err.None? then Returned else GrowEnding(cfg, s1, err.value, draws[0].seeds, 2))
  }

  lemma JammedInsertChangesContents<T>(cfg: Config<T>, s: Shard<T>, key: Pubkey, v: Value<T>, draws: seq<Draw>)
    requires Inv(cfg, s)
    ensures var (s', r) := JammedInsert(cfg, s, key, v, draws);
            Inv(cfg, s') && InsertEffect(Contents(cfg, s), Contents(cfg, s'), key, v, r.Returned?)
  {
    hide Inv, Contents, Represents, BucketSpec.TryWrite, BucketInsert.Grow, CanGrow;
    if draws != [] {
      RoundCanGrow(cfg, s, key, v, draws[0]);
      var m := Contents(cfg, s);
      ContentsRepresented(cfg, s);
      TryWriteRefinesMap(cfg, s, m, key, v.slots, v.refCount, draws[0].pos);
      var (s1, err) := BucketSpec.TryWrite(cfg, s, key, v.slots, v.refCount, draws[0].pos);
      ContentsAre(cfg, s1, MapTryWrite(m, key, v.slots, v.refCount, err, |s.data|));
    }
  }

  datatype BucketItem<T> = BucketItem(key: Pubkey, value: Value<T>)

  // ---------- lists of keys ----------

  ghost predicate KeyBelow(cells: seq<Cell<Entry>>, n: nat, key: Pubkey)
    requires n <= |cells|
  {
    exists i :: 0 <= i < n && cells[i].lock != UID_UNLOCKED && cells[i].payload.key == key
  }

  ghost predicate ListSound(cells: seq<Cell<Entry>>, n: nat, p: Pubkey -> bool, keys: seq<Pubkey>)
    requires n <= |cells|
  {
    forall k :: k in keys ==> p(k) && KeyBelow(cells, n, k)
  }

  ghost predicate ListComplete(cells: seq<Cell<Entry>>, n: nat, p: Pubkey -> bool, keys: seq<Pubkey>)
    requires n <= |cells|
  {
    forall i :: 0 <= i < n && cells[i].lock != UID_UNLOCKED && p(cells[i].payload.key) ==> cells[i].payload.key in keys
  }

  /** The keys, one per occupied cell among the first n and satisfying p, without repetition. */
  ghost predicate ListsCells(cells: seq<Cell<Entry>>, n: nat, p: Pubkey -> bool, keys: seq<Pubkey>)
    requires n <= |cells|
  {
    && Distinct(keys)
    && ListSound(cells, n, p, keys)
    && ListComplete(cells, n, p, keys)
    && ((forall k :: p(k)) ==> |keys| == |LockedSet(cells[..n])|)
  }

  lemma ListNone(cells: seq<Cell<Entry>>, p: Pubkey -> bool)
    ensures ListsCells(cells, 0, p, [])
  {
    assert LockedSet(cells[..0]) == {};
  }

  /** A list over all cells has exactly the keys of the map that satisfy p. */
  lemma ListAll<T>(s: Shard<T>, m: map<Pubkey, Value<T>>, p: Pubkey -> bool, keys: seq<Pubkey>)
    requires Represents(s, m) && Counted(s.index) && ListsCells(s.index.cells, |s.index.cells|, p, keys)
    ensures Distinct(keys)
    ensures forall k :: k in keys <==> k in m && p(k)
    ensures (forall k :: p(k)) ==> |keys| == s.index.count
  {
    hide Represents, Distinct;
    var cells := s.index.cells;
    assert cells[..|cells|] == cells;
    forall k
      ensures k in keys <==> k in m && p(k)
    {
      RepresentsKeys(s, m, k);
      assert KeyBelow(cells, |cells|, k) <==> HasKey(cells, k);
    }
  }

  /** The key of a cell not yet looked at is not on the list. */
  lemma NextKeyIsNew(cells: seq<Cell<Entry>>, n: nat, p: Pubkey -> bool, keys: seq<Pubkey>)
    requires n < |cells| && KeysUnique(cells) && ListSound(cells, n, p, keys) && cells[n].lock != UID_UNLOCKED
    ensures cells[n].payload.key !in keys
  {
    assert !KeyBelow(cells, n, cells[n].payload.key);
  }

  lemma LockedOneMore(cells: seq<Cell<Entry>>, n: nat)
    requires n < |cells|
    ensures |LockedSet(cells[..n + 1])| == |LockedSet(cells[..n])| + if cells[n].lock != UID_UNLOCKED then 1 else 0
  {
    assert LockedSet(cells[..n + 1]) ==
           if cells[n].lock != UID_UNLOCKED then LockedSet(cells[..n]) + {n} else LockedSet(cells[..n]);
  }

  lemma SoundOneMore(cells: seq<Cell<Entry>>, n: nat, p: Pubkey -> bool, keys: seq<Pubkey>)
    requires n < |cells| && ListSound(cells, n, p, keys)
    ensures ListSound(cells, n + 1, p, keys)
    ensures cells[n].lock != UID_UNLOCKED && p(cells[n].payload.key) ==>
      ListSound(cells, n + 1, p, keys + [cells[n].payload.key])
  {
    forall k | KeyBelow(cells, n, k)
      ensures KeyBelow(cells, n + 1, k)
    {
      var i :| 0 <= i < n && cells[i].lock != UID_UNLOCKED && cells[i].payload.key == k;
      assert i < n + 1;
    }
    assert cells[n].lock != UID_UNLOCKED ==> KeyBelow(cells, n + 1, cells[n].payload.key);
  }

  lemma CompleteOneMore(cells: seq<Cell<Entry>>, n: nat, p: Pubkey -> bool, keys: seq<Pubkey>)
    requires n < |cells| && ListComplete(cells, n, p, keys)
    ensures ListComplete(cells, n + 1, p, keys + [cells[n].payload.key])
    ensures !(cells[n].lock != UID_UNLOCKED && p(cells[n].payload.key)) ==> ListComplete(cells, n + 1, p, keys)
  {
  }

  lemma ListOneMore(cells: seq<Cell<Entry>>, n: nat, p: Pubkey -> bool, keys: seq<Pubkey>)
    requires n < |cells| && KeysUnique(cells) && ListsCells(cells, n, p, keys)
    ensures ListsCells(cells, n + 1, p,
      if cells[n].lock != UID_UNLOCKED && p(cells[n].payload.key) then keys + [cells[n].payload.key] else keys)
  {
    hide KeysUnique, ListSound, ListComplete, LockedSet, Distinct;
    SoundOneMore(cells, n, p, keys);
    CompleteOneMore(cells, n, p, keys);
    LockedOneMore(cells, n);
    if cells[n].lock != UID_UNLOCKED && p(cells[n].payload.key) {
      NextKeyIsNew(cells, n, p, keys);
      DistinctAppend(keys, [cells[n].payload.key]);
    }
  }

  /** The items are the keys with their values. */
  ghost predicate ItemsMatch<T>(m: map<Pubkey, Value<T>>, keys: seq<Pubkey>, items: seq<BucketItem<T>>) {
    && |items| == |keys|
    && forall i :: 0 <= i < |items| ==> items[i].key == keys[i] && keys[i] in m && items[i].value == m[keys[i]]
  }

  lemma NoItems<T>(m: map<Pubkey, Value<T>>)
    ensures ItemsMatch(m, [], [])
  {
  }

  lemma ItemsMatchMore<T>(m: map<Pubkey, Value<T>>, keys: seq<Pubkey>, items: seq<BucketItem<T>>, item: BucketItem<T>)
    requires ItemsMatch(m, keys, items) && item.key in m && item.value == m[item.key]
    ensures ItemsMatch(m, keys + [item.key], items + [item])
  {
  }

  /** The items of m whose key satisfies p, each once. */
  ghost predicate ItemsOf<T>(m: map<Pubkey, Value<T>>, p: Pubkey -> bool, items: seq<BucketItem<T>>) {
    && (forall i, j :: 0 <= i < j < |items| ==> items[i].key != items[j].key)
    && (forall i :: 0 <= i < |items| ==>
          p(items[i].key) && items[i].key in m && items[i].value == m[items[i].key])
    && (forall k :: k in m && p(k) ==> BucketItem(k, m[k]) in items)
  }

  lemma ItemsListed<T>(s: Shard<T>, m: map<Pubkey, Value<T>>, p: Pubkey -> bool, keys: seq<Pubkey>,
                       items: seq<BucketItem<T>>)
    requires Represents(s, m) && Counted(s.index) && ListsCells(s.index.cells, |s.index.cells|, p, keys)
    requires ItemsMatch(m, keys, items)
    ensures ItemsOf(m, p, items)
    ensures (forall k :: p(k)) ==> |items| == s.index.count
  {
    hide Represents, ListsCells, Counted;
    ListAll(s, m, p, keys);
    forall k | k in m && p(k)
      ensures BucketItem(k, m[k]) in items
    {
      var i :| 0 <= i < |keys| && keys[i] == k;
      assert items[i] == BucketItem(k, m[k]);
    }
  }

  class Bucket<T> {
    const cfg: Config<T>
    var index: BucketStorage<Entry>
    var random: nat
    var data: seq<BucketStorage<seq<T>>>
    var active: nat
    var newIndex: Option<(nat, BucketStorage<Entry>)>
    var newData: Option<(nat, BucketStorage<seq<T>>)>
    var poisoned: bool
    /** The value of this bucket, kept up to date by every method. */
    ghost var shard: Shard<T>
    /** The value of a reallocation that waits to be installed. */
    ghost var pending: Option<Grown<T>>

    ghost function DataObjects(): set<object>
      reads this
    {
      (set st | st in data :: st.cells as object) + (set st | st in data :: st.count as object)
    }

    /** No two storages share cells or counters. */
    ghost predicate Separate()
      reads this
    {
      && index.cells as object !in DataObjects()
      && index.count as object !in DataObjects()
      && (forall b, c :: 0 <= b < c < |data| ==> data[b].cells != data[c].cells && data[b].count != data[c].count)
    }

    /** The ghost value is the value of the objects. */
    ghost predicate Coupled()
      reads this, index.cells, index.count, DataObjects()
    {
      && Separate()
      && index.Valid() && index.View() == shard.index
      && random == shard.random
      && |data| == |shard.data|
      && forall b :: 0 <= b < |data| ==> data[b].Valid() && data[b].View() == shard.data[b]
    }

    /** Every object this bucket may change. */
    ghost function Objects(): set<object>
      reads this
    {
      {index.cells as object, index.count} + DataObjects() + PendingObjects()
    }

    ghost predicate Idle()
      reads this
    {
      active == 0 && newIndex.None? && newData.None? && pending.None? && !poisoned
    }

    /** The counter has passed one: nothing will be installed any more. */
    ghost predicate Jammed()
      reads this
    {
      active >= 2 && pending.None?
    }

    /** A bucket as a writer has it: nothing waits to be installed. */
    ghost predicate Ready()
      reads this
    {
      Idle() || Jammed()
    }

    ghost function PendingObjects(): set<object>
      reads this
    {
      (if newIndex.Some? then {newIndex.value.1.cells as object, newIndex.value.1.count} else {}) +
      (if newData.Some? then {newData.value.1.cells as object, newData.value.1.count} else {})
    }

    /** Either nothing is pending, or one storage is that shares only the counter of the one it replaces. */
    ghost predicate PendingOk()
      reads this, index.cells, index.count, DataObjects(), PendingObjects()
    {
      if pending.None? then Ready()
      else
        && active == 1 && !poisoned
        && SameContents(cfg, shard, pending.value)
        && (match pending.value
            case NewIndex(seed, st) =>
              && newIndex.Some? && newData.None? && newIndex.value.0 == seed
              && var n := newIndex.value.1;
                 && n.Valid() && n.View() == st && n.count == index.count
                 && n.cells as object !in DataObjects() && n.cells != index.cells
            case NewData(b, st) =>
              && newIndex.None? && newData.Some? && newData.value.0 == b
              && var n := newData.value.1;
                 && n.Valid() && n.View() == st
                 && n.cells as object !in DataObjects() && n.cells as object != index.cells
                 && (if b < |data| then n.count == data[b].count
                     else n.count as object !in DataObjects() && n.count != index.count
                          && n.cells as object != n.count))
    }

    ghost predicate Valid()
      reads this, index.cells, index.count, DataObjects()
    {
      Coupled() && Inv(cfg, shard)
    }

    constructor (cfg: Config<T>, random: nat, count: Counter)
      requires count.value == 0
      ensures Valid() && Idle()
      ensures this.cfg == cfg && index.count == count && fresh(index.cells) && data == []
      ensures shard == EmptyShard(cfg, random) && Contents(cfg, shard) == map[]
    {
      this.cfg := cfg;
      this.index := new BucketStorage(DEFAULT_CAPACITY_POW2, ZeroEntry(), count);
      this.random := random;
      this.data := [];
      this.active := 0;
      this.newIndex := None;
      this.newData := None;
      this.poisoned := false;
      this.pending := None;
      this.shard := EmptyShard(cfg, random);
      new;
      EmptyShardOk(cfg, random);
      ContentsRepresented(cfg, shard);
      RepresentsUnique(shard, map[], Contents(cfg, shard));
    }

    // ---------- looking a key up ----------

    /** One pass over the window, remembering the first free cell. */
    method FindEntryMut(key: Pubkey) returns (r: ShardOps.Search)
      requires Valid()
      ensures r == ShardOps.FindEntryMut(cfg, shard.index.cells, shard.random, key)
      ensures |shard.index.cells| > 0 && WriteOutcomes.SearchEnds(cfg, shard, key, r)
    {
      ghost var cells := shard.index.cells;
      WriteOutcomes.SearchEndsIff(cfg, shard, key, ShardOps.FindEntryMut(cfg, cells, shard.random, key));
      hide WriteOutcomes.SearchEnds;
      var home := Home(cfg, key, random, index.cells.Length);
      var firstFree: Option<nat> := None;
      for i := 0 to cfg.maxSearch
        invariant ShardOps.Probe(cells, key, home, 0, cfg.maxSearch) ==
                  ShardOps.Probe(cells, key, home, i, cfg.maxSearch)
        invariant firstFree.None? ==>
          FirstFree(cells, home, 0, cfg.maxSearch) == FirstFree(cells, home, i, cfg.maxSearch)
        invariant firstFree.Some? ==> FirstFree(cells, home, 0, cfg.maxSearch) == firstFree
      {
        var ii := Slot(home, i, index.cells.Length);
        assert index.cells[ii] == cells[ii];
        if index.cells[ii].lock == UID_UNLOCKED {
          if firstFree.None? {
            firstFree := Some(ii);
          }
        } else if index.cells[ii].payload.key == key {
          return ShardOps.Found(ii);
        }
      }
      match firstFree
      case Some(ii) => r := ShardOps.Vacant(ii);
      case None => r := ShardOps.Full;
    }

    method FindEntry(key: Pubkey) returns (r: Option<nat>)
      requires Valid()
      ensures r == ShardOps.FindEntry(cfg, shard.index.cells, shard.random, key)
    {
      ghost var cells := shard.index.cells;
      var home := Home(cfg, key, random, index.cells.Length);
      for i := 0 to cfg.maxSearch
        invariant ShardOps.Probe(cells, key, home, 0, cfg.maxSearch) ==
                  ShardOps.Probe(cells, key, home, i, cfg.maxSearch)
      {
        var ii := Slot(home, i, index.cells.Length);
        assert index.cells[ii] == cells[ii];
        if index.cells[ii].lock != UID_UNLOCKED && index.cells[ii].payload.key == key {
          return Some(ii);
        }
      }
      r := None;
    }

    /** Reads the cell an entry owns; the uid in its header is the key's. */
    method EntryRead(i: nat) returns (r: Value<T>)
      requires Valid() && Locked(shard.index.cells, i)
      ensures Readable(shard.data, shard.index.cells[i].payload)
      ensures r == EntryValue(shard.data, shard.index.cells[i].payload)
    {
      assert index.cells[i] == shard.index.cells[i];
      EntryReadable(shard.data, shard.index.cells[i].payload, shard.index.cells[i].lock);
      var e := index.cells[i].payload;
      if e.numSlots > 0 {
        var d := data[SizeClass(e.numSlots)];
        var loc := DataLoc(e, d.pow2);
        assert d.View() == shard.data[SizeClass(e.numSlots)];
        assert CellInWindow(cfg, shard.index.cells, random, i);
        assert d.cells[loc].lock == KeyUid(cfg, e.key);
        r := Value(d.cells[loc].payload[..e.numSlots], e.refCount);
      } else {
        r := Value([], e.refCount);
      }
    }

    method ReadValue(key: Pubkey) returns (r: Option<Value<T>>)
      requires Valid()
      ensures r == ShardOps.Get(Contents(cfg, shard), key)
    {
      ContentsRepresented(cfg, shard);
      ShardOps.ReadIsLookup(cfg, shard, Contents(cfg, shard), key);
      EntriesReadable(cfg, shard);
      var i := FindEntry(key);
      match i
      case None => r := None;
      case Some(ii) =>
        var v := EntryRead(ii);
        r := Some(v);
    }

    // ---------- changing one cell ----------

    method PutEntry(i: nat, e: Entry)
      requires Coupled() && i < |shard.index.cells|
      modifies this`shard, index.cells
      ensures Coupled() && shard == ShardOps.SetEntry(old(shard), i, e)
    {
      index.Put(i, e);
      shard := ShardOps.SetEntry(shard, i, e);
    }

    method CreateEntry(i: nat, uid: nat, key: Pubkey)
      requires Coupled() && i < |shard.index.cells| && shard.index.cells[i].lock == UID_UNLOCKED && uid != UID_UNLOCKED
      modifies this`shard, index.cells, index.count
      ensures Coupled() && shard == ShardOps.CreateEntry(old(shard), i, uid, key)
    {
      assert index.cells[i] == shard.index.cells[i];
      var ok := index.Allocate(i, uid, false);
      index.Put(i, InitEntry(key));
      shard := ShardOps.CreateEntry(shard, i, uid, key);
      assert index.View().cells == shard.index.cells;
    }

    /** Overwrites the first elements of a data cell. */
    method PutSlots(b: nat, loc: nat, slots: seq<T>)
      requires Coupled() && b < |data| && loc < |shard.data[b].cells| && |slots| <= |shard.data[b].cells[loc].payload|
      modifies this`shard, data[b].cells
      ensures Coupled()
      ensures var c := old(shard).data[b].cells[loc];
              shard == old(shard).(data := ShardOps.SetCell(old(shard).data, b, loc,
                                           c.(payload := ShardOps.Overwrite(c.payload, slots)),
                                           old(shard).data[b].count))
    {
      var d := data[b];
      assert d.View() == shard.data[b];
      ghost var c := shard.data[b].cells[loc];
      d.Put(loc, ShardOps.Overwrite(d.cells[loc].payload, slots));
      shard := shard.(data := ShardOps.SetCell(shard.data, b, loc,
                                               c.(payload := ShardOps.Overwrite(c.payload, slots)),
                                               shard.data[b].count));
      assert data[b].View() == shard.data[b];
    }

    method FreeData(b: nat, loc: nat, uid: nat)
      requires Coupled() && b < |data| && loc < |shard.data[b].cells|
      requires shard.data[b].cells[loc].lock == uid != UID_UNLOCKED && shard.data[b].count >= 1
      modifies this`shard, data[b].cells, data[b].count
      ensures Coupled()
      ensures var c := old(shard).data[b].cells[loc];
              shard == old(shard).(data := ShardOps.SetCell(old(shard).data, b, loc,
                                           c.(lock := UID_UNLOCKED), old(shard).data[b].count - 1))
    {
      var d := data[b];
      assert d.View() == shard.data[b];
      ghost var c := shard.data[b].cells[loc];
      d.Free(loc, uid);
      shard := shard.(data := ShardOps.SetCell(shard.data, b, loc, c.(lock := UID_UNLOCKED), shard.data[b].count - 1));
      assert data[b].View() == shard.data[b];
    }

    method AllocateData(b: nat, loc: nat, uid: nat, slots: seq<T>)
      requires Coupled() && b < |data| && loc < |shard.data[b].cells| && |slots| <= |shard.data[b].cells[loc].payload|
      requires shard.data[b].cells[loc].lock == UID_UNLOCKED && uid != UID_UNLOCKED
      modifies this`shard, data[b].cells, data[b].count
      ensures Coupled()
      ensures var c := old(shard).data[b].cells[loc];
              shard == old(shard).(data := ShardOps.SetCell(old(shard).data, b, loc,
                                           Cell(uid, ShardOps.Overwrite(c.payload, slots)),
                                           old(shard).data[b].count + 1))
    {
      var d := data[b];
      assert d.View() == shard.data[b];
      ghost var c := shard.data[b].cells[loc];
      var ok := d.Allocate(loc, uid, false);
      d.Put(loc, ShardOps.Overwrite(d.cells[loc].payload, slots));
      shard := shard.(data := ShardOps.SetCell(shard.data, b, loc, Cell(uid, ShardOps.Overwrite(c.payload, slots)),
                                               shard.data[b].count + 1));
      assert data[b].View() == shard.data[b];
    }

    // ---------- writing ----------

    /** Finds or creates the entry of a key and sets its ref count. */
    method OpenEntry(key: Pubkey, refCount: nat) returns (r: Option<nat>)
      requires Valid() && |data| > 0
      modifies this`shard, index.cells, index.count
      ensures Valid()
      ensures match BucketSpec.OpenEntry(cfg, old(shard), key, refCount)
              case None => r.None? && shard == old(shard)
              case Some((s, i)) => r == Some(i) && shard == s && Locked(shard.index.cells, i)
    {
      hide Inv, ShardOps.FindEntryMut;
      OpenEntryKeepsInv(cfg, shard, key, refCount);
      var found := FindEntryMut(key);
      match found
      case Full => r := None;
      case Vacant(i) =>
        OpenNew(i, key, refCount);
        r := Some(i);
      case Found(i) =>
        SetRefCount(i, refCount);
        r := Some(i);
    }

    method OpenNew(i: nat, key: Pubkey, refCount: nat)
      requires Coupled() && i < |shard.index.cells| && shard.index.cells[i].lock == UID_UNLOCKED
      modifies this`shard, index.cells, index.count
      ensures Coupled()
      ensures shard == ShardOps.SetEntry(ShardOps.CreateEntry(old(shard), i, KeyUid(cfg, key), key), i,
                                         InitEntry(key).(refCount := refCount))
    {
      hide Coupled;
      CreateEntry(i, KeyUid(cfg, key), key);
      PutEntry(i, InitEntry(key).(refCount := refCount));
    }

    method SetRefCount(i: nat, refCount: nat)
      requires Coupled() && i < |shard.index.cells|
      modifies this`shard, index.cells
      ensures Coupled()
      ensures shard == ShardOps.SetEntry(old(shard), i, old(shard).index.cells[i].payload.(refCount := refCount))
    {
      assert index.cells[i] == shard.index.cells[i];
      PutEntry(i, index.cells[i].payload.(refCount := refCount));
    }

    /** Moves the slot list of an entry to the free cell ix of its new size class. */
    method Relocate(i: nat, ix: nat, slots: seq<T>)
      requires Coupled() && MoveReady(shard, i, ix, slots)
      modifies this`shard, index.cells, DataObjects()
      ensures Coupled()
      ensures shard == ShardOps.Move(old(shard), i, SizeClass(|slots|), ix, slots)
    {
      hide Coupled, Inv;
      RelocateFacts(i, ix, slots);
      var best := SizeClass(|slots|);
      var e, uid := index.cells[i].payload, index.cells[i].lock;
      var b := SizeClass(e.numSlots);
      var loc := DataLoc(e, data[b].pow2);
      PutEntry(i, e.(offset := ix, capPow := data[best].pow2, numSlots := |slots|));
      if e.numSlots > 0 {
        FreeData(b, loc, uid);
      }
      if |slots| > 0 {
        AllocateData(best, ix, uid, slots);
      }
    }

    lemma RelocateFacts(i: nat, ix: nat, slots: seq<T>)
      requires Coupled() && MoveReady(shard, i, ix, slots)
      ensures i < index.cells.Length && index.cells[i] == shard.index.cells[i] && |data| == |shard.data|
      ensures var b, best := SizeClass(shard.index.cells[i].payload.numSlots), SizeClass(|slots|);
              && b < |data| && data[b].pow2 == shard.data[b].pow2
              && best < |data| && data[best].pow2 == shard.data[best].pow2
    {
      var b, best := SizeClass(shard.index.cells[i].payload.numSlots), SizeClass(|slots|);
      assert data[b].View() == shard.data[b] && data[best].View() == shard.data[best];
    }

    method UpdateInPlace(i: nat, slots: seq<T>)
      requires Valid() && Locked(shard.index.cells, i) && shard.index.cells[i].payload.numSlots > 0
      requires SizeClass(|slots|) == SizeClass(shard.index.cells[i].payload.numSlots)
      modifies this`shard, index.cells, DataObjects()
      ensures Valid()
      ensures Placeable(old(shard).data, old(shard).index.cells[i].payload)
      ensures var (b, loc) := Place(old(shard).data, old(shard).index.cells[i].payload);
              loc < |old(shard).data[b].cells| && |slots| <= |old(shard).data[b].cells[loc].payload|
      ensures shard == ShardOps.UpdateInPlace(old(shard), i, slots)
    {
      ContentsRepresented(cfg, shard);
      ShardOps.UpdateInPlaceStep(cfg, shard, Contents(cfg, shard), i, slots);
      hide Inv, Contents, Represents;
      assert index.cells[i] == shard.index.cells[i];
      var e, uid := index.cells[i].payload, index.cells[i].lock;
      var b := SizeClass(e.numSlots);
      assert data[b].View() == shard.data[b];
      var loc := DataLoc(e, data[b].pow2);
      assert data[b].cells[loc].lock == uid;
      PutEntry(i, e.(numSlots := |slots|));
      PutSlots(b, loc, slots);
    }

    /** The first free cell of data storage b seen from `pos`. */
    method FindFreeData(b: nat, pos: nat) returns (r: Option<nat>)
      requires Valid() && b < |data|
      ensures |shard.data[b].cells| > 0
      ensures r == FirstFree(shard.data[b].cells, pos, 0, cfg.maxSearch)
    {
      InvData(cfg, shard, b);
      ghost var cells := shard.data[b].cells;
      var d := data[b];
      for k := 0 to cfg.maxSearch
        invariant FirstFree(cells, pos, 0, cfg.maxSearch) == FirstFree(cells, pos, k, cfg.maxSearch)
      {
        var ix := Slot(pos, k, d.cells.Length);
        assert d.cells[ix] == cells[ix];
        if d.cells[ix].lock == UID_UNLOCKED {
          return Some(ix);
        }
      }
      r := None;
    }

    /** The write attempt; `pos` is where the search for a data cell starts. */
    method TryWrite(key: Pubkey, slots: seq<T>, refCount: nat, pos: nat) returns (err: Option<Error>)
      requires Valid()
      modifies this`shard, index.cells, index.count, DataObjects()
      ensures Valid()
      ensures (shard, err) == BucketSpec.TryWrite(cfg, old(shard), key, slots, refCount, pos)
      ensures SizeClass(|slots|) < |old(data)| ==>
        && |old(shard).index.cells| > 0 && |old(shard).data[SizeClass(|slots|)].cells| > 0
        && var s := old(shard);
           var noEntry := WriteOutcomes.NoEntry(cfg, s, Contents(cfg, s), key);
           && ((err.Some? && err.value.IndexNoSpace?) <==> noEntry)
           && ((err.Some? && err.value.DataNoSpace?) <==>
                 !noEntry && WriteOutcomes.NoCell(cfg, s, Contents(cfg, s), key, slots, pos))
    {
      ContentsRepresented(cfg, shard);
      WriteOutcomes.TryWriteErrorIff(cfg, shard, Contents(cfg, shard), key, slots, refCount, pos);
      hide WriteOutcomes.NoEntry, WriteOutcomes.NoCell;
      assert |data| == |shard.data| && index.pow2 == shard.index.pow2;
      InvIndex(cfg, shard);
      hide Inv, Coupled, Represents, Contents, BucketSpec.WriteSlots, BucketSpec.OpenEntry;
      var best := SizeClass(|slots|);
      if best >= |data| {
        // fail early, before an index entry is allocated
        return Some(ShardOps.DataNoSpace(best, 0));
      }
      OpenEntryKeepsInv(cfg, shard, key, refCount);
      var entry := OpenEntry(key, refCount);
      if entry.None? {
        return Some(ShardOps.IndexNoSpace(index.pow2));
      }
      err := WriteSlots(entry.value, slots, pos);
    }

    /** In place if the size class stays, otherwise into the first free cell of the window. */
    method WriteSlots(i: nat, slots: seq<T>, pos: nat) returns (err: Option<Error>)
      requires Valid() && Locked(shard.index.cells, i) && SizeClass(|slots|) < |data|
      modifies this`shard, index.cells, DataObjects()
      ensures Valid()
      ensures (shard, err) == BucketSpec.WriteSlots(cfg, old(shard), i, slots, pos)
    {
      hide Inv, ShardOps.UpdateInPlace, FirstFree;
      assert index.cells[i] == shard.index.cells[i];
      var e := index.cells[i].payload;
      if SizeClass(|slots|) == SizeClass(e.numSlots) && e.numSlots > 0 {
        UpdateInPlace(i, slots);
        err := None;
      } else {
        err := MoveSlots(i, slots, pos);
      }
    }

    method MoveSlots(i: nat, slots: seq<T>, pos: nat) returns (err: Option<Error>)
      requires Valid() && Locked(shard.index.cells, i) && SizeClass(|slots|) < |data|
      requires var e := shard.index.cells[i].payload; !(SizeClass(|slots|) == SizeClass(e.numSlots) && e.numSlots > 0)
      modifies this`shard, index.cells, DataObjects()
      ensures Valid()
      ensures (shard, err) == BucketSpec.WriteSlots(cfg, old(shard), i, slots, pos)
    {
      WriteSlotsMoves(cfg, shard, i, slots, pos);
      hide Inv, ShardOps.Move, FirstFree, BucketSpec.WriteSlots;
      var best := SizeClass(|slots|);
      var free := FindFreeData(best, pos);
      if free.Some? {
        Relocate(i, free.value, slots);
        err := None;
      } else {
        assert data[best].View() == shard.data[best];
        err := Some(ShardOps.DataNoSpace(best, data[best].pow2));
      }
    }

    method DropCell(i: nat, e: Entry, uid: nat)
      requires Coupled() && i < |shard.index.cells| && shard.index.cells[i] == Cell(uid, e) && uid != UID_UNLOCKED
      requires shard.index.count >= 1
      modifies this`shard, index.cells, index.count
      ensures Coupled() && shard == ShardOps.DropCell(old(shard), i, e)
    {
      assert index.View() == shard.index;
      index.Free(i, uid);
      shard := ShardOps.DropCell(shard, i, e);
      assert index.View().cells == shard.index.cells;
    }

    /** Frees the data cell of a key, if any, and its index cell. */
    method DeleteKey(key: Pubkey)
      requires Valid()
      modifies this`shard, index.cells, index.count, DataObjects()
      ensures Valid()
      ensures shard == BucketSpec.DeleteKey(cfg, old(shard), key)
    {
      hide Inv, Contents, Represents, ShardOps.Remove;
      ContentsRepresented(cfg, shard);
      DeleteRefinesMap(cfg, shard, Contents(cfg, shard), key);
      var r := FindEntry(key);
      if r.Some? {
        RemoveAt(r.value);
      }
    }

    method RemoveAt(i: nat)
      requires Valid() && Locked(shard.index.cells, i)
      modifies this`shard, index.cells, index.count, DataObjects()
      ensures Coupled()
      ensures old(shard).index.count >= 1
      ensures Placeable(old(shard).data, old(shard).index.cells[i].payload)
      ensures var e := old(shard).index.cells[i].payload;
              e.numSlots > 0 ==>
                var (b, loc) := Place(old(shard).data, e);
                loc < |old(shard).data[b].cells| && old(shard).data[b].count >= 1
      ensures shard == ShardOps.Remove(old(shard), i)
    {
      OwnedCell(cfg, shard, i);
      ShardOps.RemoveInOrder(shard, i);
      hide Inv;
      assert index.cells[i] == shard.index.cells[i];
      var e, uid := index.cells[i].payload, index.cells[i].lock;
      if e.numSlots > 0 {
        var b := SizeClass(e.numSlots);
        assert data[b].View() == shard.data[b];
        FreeData(b, DataLoc(e, data[b].pow2), uid);
      }
      DropCell(i, e, uid);
    }

    method AddRef(key: Pubkey) returns (r: Option<nat>)
      requires Valid() && CanChangeRef(cfg, shard, key, 1)
      modifies this`shard, index.cells
      ensures Valid()
      ensures r == match ShardOps.Get(old(Contents(cfg, shard)), key)
                   case None => None
                   case Some(v) => Some(v.refCount + 1)
      ensures Contents(cfg, shard) == AddToRef(old(Contents(cfg, shard)), key, 1)
    {
      hide Valid, Contents, CanChangeRef, AddToRef;
      r := ChangeRef(key, 1);
    }

    method Unref(key: Pubkey) returns (r: Option<nat>)
      requires Valid() && CanChangeRef(cfg, shard, key, -1)
      modifies this`shard, index.cells
      ensures Valid()
      ensures r == match ShardOps.Get(old(Contents(cfg, shard)), key)
                   case None => None
                   case Some(v) => Some(v.refCount - 1)
      ensures Contents(cfg, shard) == AddToRef(old(Contents(cfg, shard)), key, -1)
    {
      hide Valid, Contents, CanChangeRef, AddToRef;
      r := ChangeRef(key, -1);
    }

    method ChangeRef(key: Pubkey, delta: int) returns (r: Option<nat>)
      requires Valid() && CanChangeRef(cfg, shard, key, delta)
      modifies this`shard, index.cells
      ensures Valid()
      ensures RefIs(old(Contents(cfg, shard)), key, delta, r)
      ensures Contents(cfg, shard) == AddToRef(old(Contents(cfg, shard)), key, delta)
    {
      hide Inv, Contents, Represents, BucketSpec.ChangeRef, ShardOps.FindEntry;
      ghost var m := Contents(cfg, shard);
      ContentsRepresented(cfg, shard);
      ShardOps.ReadIsLookup(cfg, shard, m, key);
      ChangeRefRefinesMap(cfg, shard, m, key, delta);
      r := ChangeEntryRef(key, delta);
      ContentsRepresented(cfg, shard);
      RepresentsUnique(shard, AddToRef(m, key, delta), Contents(cfg, shard));
    }

    method ChangeEntryRef(key: Pubkey, delta: int) returns (r: Option<nat>)
      requires Valid()
      requires var r := ShardOps.FindEntry(cfg, shard.index.cells, shard.random, key);
               r.Some? ==> r.value < |shard.index.cells| && shard.index.cells[r.value].payload.refCount + delta >= 0
      modifies this`shard, index.cells
      ensures Coupled()
      ensures (shard, r) == BucketSpec.ChangeRef(cfg, old(shard), key, delta)
    {
      hide Inv, WriteOutcomes.SearchEnds;
      var found := FindEntryMut(key);
      if found.Found? {
        var i := found.ix;
        assert index.cells[i] == shard.index.cells[i];
        var e := index.cells[i].payload;
        PutEntry(i, e.(refCount := e.refCount + delta));
        r := Some(e.refCount + delta);
      } else {
        r := None;
      }
    }

    // ---------- growing under a read lock ----------

    /** Counts a reallocation; a counter that was not zero is a panic, after it has gone up. */
    method AddReallocation() returns (ok: bool)
      modifies this`active
      ensures active == old(active) + 1 && (ok <==> old(active) == 0)
    {
      ok := active == 0;
      active := active + 1;
    }

    /** Builds a larger index unless the size given is stale, and publishes it. */
    method GrowIndex(currentPow2: nat, seeds: seq<nat>) returns (r: Ending)
      requires Valid() && PendingOk()
      modifies this`active, this`newIndex, this`pending, this`poisoned
      ensures Valid() && PendingOk() && newData == old(newData)
      ensures forall o :: o in PendingObjects() ==> o in old(PendingObjects()) || fresh(o) || o == index.count
      ensures GrowEffect(old(active), old(pending), ShardOps.IndexNoSpace(currentPow2), seeds, r)
      ensures currentPow2 != index.pow2 ==>
        r == Returned && active == old(active) && newIndex == old(newIndex) && poisoned == old(poisoned)
      ensures currentPow2 == index.pow2 ==>
        && (r == StillRunning <==>
              forall k: nat :: k < |seeds| ==> !IndexGrowth.Fits(cfg, shard, index.pow2 + 1 + k, seeds[k]))
        && (r == Returned ==>
              && active == 1 && newIndex.Some? && newIndex.value.1.pow2 > index.pow2
              && exists i :: 0 <= i < newIndex.value.1.cells.Length && newIndex.value.1.cells[i].lock == UID_UNLOCKED)
    {
      hide Inv, SameContents, BucketInsert.GrowIndex, IndexGrowth.Fits;
      if index.pow2 != currentPow2 {
        return Returned;
      }
      if BucketInsert.GrowIndex(cfg, shard, 1, seeds).Some? {
        IndexGrowth.GrownIndexHasFree(cfg, shard, seeds);
      }
      var st := BuildIndex(cfg, index, shard, seeds);
      if st.Some? {
        r := PublishIndex(st.value.0, st.value.1, seeds);
      } else {
        r := StillRunning;
      }
    }

    /**
     * What a grow request leaves: a first reallocation becomes pending, a further one jams
     * the counter, and one that builds nothing changes nothing.
     */
    ghost predicate GrowEffect(active0: nat, pending0: Option<Grown<T>>, err: Error, seeds: seq<nat>, r: Ending)
      reads this
    {
      && r == GrowEnding(cfg, shard, err, seeds, active0)
      && if CanGrow(shard, err) && BucketInsert.Grow(cfg, shard, err, seeds).Grew? then
           if active0 == 0 then active == 1 && pending == Some(BucketInsert.Grow(cfg, shard, err, seeds).g)
           else Jammed()
         else active == active0 && pending == pending0
    }

    /**
     * Fills the slot under the mutex, then counts. A panic there poisons the mutex, and a
     * poisoned one panics at once.
     */
    method PublishIndex(seed: nat, st: BucketStorage<Entry>, ghost seeds: seq<nat>) returns (r: Ending)
      requires Valid() && PendingOk() && st.Valid() && st.count == index.count
      requires st.cells as object !in DataObjects() && st.cells != index.cells
      requires BucketInsert.Grow(cfg, shard, ShardOps.IndexNoSpace(index.pow2), seeds) ==
               Grew(NewIndex(seed, st.View()))
      modifies this`active, this`newIndex, this`pending, this`poisoned
      ensures Valid() && PendingOk()
      ensures forall o :: o in PendingObjects() ==> o in old(PendingObjects()) || o == st.cells || o == index.count
      ensures if old(active) == 0 then r.Returned? && active == 1 && pending == Some(NewIndex(seed, st.View()))
              else r.Panicked? && Jammed()
    {
      hide Inv, SameContents, Contents, Represents, BucketInsert.GrowIndex, Install;
      ContentsRepresented(cfg, shard);
      GrowKeepsContents(cfg, shard, Contents(cfg, shard), ShardOps.IndexNoSpace(index.pow2), seeds);
      if poisoned {
        return Panicked;
      }
      newIndex := Some((seed, st));
      var ok := AddReallocation();
      if ok {
        pending := Some(NewIndex(seed, st.View()));
        r := Returned;
      } else {
        pending := None;
        poisoned := true;
        r := Panicked;
      }
    }

    /** Builds a larger copy of data storage b, or the first one, and publishes it. */
    method GrowData(b: nat, pow2: nat) returns (r: Ending)
      requires Valid() && PendingOk()
      modifies this`active, this`newData, this`pending
      ensures Valid() && PendingOk() && newIndex == old(newIndex)
      ensures forall o :: o in PendingObjects() ==> o in old(PendingObjects()) || fresh(o) || o in DataObjects()
      ensures GrowEffect(old(active), old(pending), ShardOps.DataNoSpace(b, pow2), [], r)
    {
      hide Inv, SameContents;
      var st: BucketStorage<seq<T>>;
      if b < |data| {
        assert data[b].View() == shard.data[b];
        if GrownPow2(pow2) < data[b].pow2 {
          return Panicked;
        }
        st := BuildResized(cfg, data[b], b, GrownPow2(pow2));
      } else {
        st := BuildNew(cfg, b, GrownPow2(pow2));
      }
      r := PublishData(b, st, pow2);
    }

    /** Counts, then fills the slot. */
    method PublishData(b: nat, st: BucketStorage<seq<T>>, ghost pow2: nat) returns (r: Ending)
      requires Valid() && PendingOk() && st.Valid() && CanGrowData(shard.data, b, pow2)
      requires st.cells as object !in DataObjects() && st.cells as object != index.cells
      requires if b < |data| then st.count == data[b].count
               else st.count as object !in DataObjects() && st.count != index.count && st.cells as object != st.count
      requires st.View() == Growth.GrowData(cfg, shard.data, b, pow2)
      modifies this`active, this`newData, this`pending
      ensures Valid() && PendingOk()
      ensures forall o :: o in PendingObjects() ==> o in old(PendingObjects()) || o == st.cells || o == st.count
      ensures if old(active) == 0 then r.Returned? && active == 1 && pending == Some(NewData(b, st.View()))
              else r.Panicked? && Jammed()
    {
      hide Inv, SameContents, Growth.GrowData, Contents, Represents;
      ContentsRepresented(cfg, shard);
      GrowKeepsContents(cfg, shard, Contents(cfg, shard), ShardOps.DataNoSpace(b, pow2), []);
      var ok := AddReallocation();
      if ok {
        newData := Some((b, st));
        pending := Some(NewData(b, st.View()));
        r := Returned;
      } else {
        pending := None;
        r := Panicked;
      }
    }

    method Grow(err: Error, seeds: seq<nat>) returns (r: Ending)
      requires Valid() && PendingOk()
      modifies this`active, this`newIndex, this`newData, this`pending, this`poisoned
      ensures Valid() && PendingOk()
      ensures forall o :: o in Objects() ==> o in old(Objects()) || fresh(o)
      ensures GrowEffect(old(active), old(pending), err, seeds, r)
    {
      hide Inv, SameContents, BucketInsert.GrowIndex, Growth.GrowData, PendingOk;
      match err
      case DataNoSpace(b, pow2) => r := GrowData(b, pow2);
      case IndexNoSpace(pow2) => r := GrowIndex(pow2, seeds);
    }

    // ---------- installing under the write lock ----------

    /** Appends a data storage that shares nothing with the others. */
    method PushData(st: BucketStorage<seq<T>>)
      requires Coupled() && st.Valid()
      requires st.cells as object !in DataObjects() && st.cells as object != index.cells
        && st.cells as object != index.count
      requires st.count as object !in DataObjects() && st.count as object != index.cells && st.count != index.count
      requires st.cells as object != st.count
      modifies this`data, this`shard
      ensures Coupled() && data == old(data) + [st]
      ensures DataObjects() == old(DataObjects()) + {st.cells as object, st.count}
      ensures shard == old(shard).(data := old(shard).data + [st.View()])
    {
      ghost var before, was := DataObjects(), data;
      data := data + [st];
      shard := shard.(data := shard.data + [st.View()]);
      assert forall d :: d in data <==> d in was || d == st;
      assert DataObjects() == before + {st.cells as object, st.count};
    }

    method PushNew()
      requires Coupled()
      modifies this`data, this`shard
      ensures Coupled() && fresh(DataObjects() - old(DataObjects()))
      ensures var was := old(shard).data;
              shard == old(shard).(data := was + [NewStorage(cfg, |was|, DEFAULT_CAPACITY_POW2)])
    {
      var st := BuildNew(cfg, |data|, DEFAULT_CAPACITY_POW2);
      PushData(st);
    }

    /** Fills the size classes below b with new storages. */
    method PadData(b: nat)
      requires Coupled() && |data| <= b
      modifies this`data, this`shard
      ensures Coupled() && fresh(DataObjects() - old(DataObjects()))
      ensures shard == old(shard).(data := old(shard).data + NewStorages(cfg, |old(shard).data|, b))
    {
      ghost var was := shard.data;
      assert was + NewStorages(cfg, |was|, |was|) == was;
      for k := |data| to b
        invariant Coupled() && k == |shard.data| && fresh(DataObjects() - old(DataObjects()))
        invariant shard == old(shard).(data := was + NewStorages(cfg, |was|, k))
      {
        PushNew();
        assert was + NewStorages(cfg, |was|, k + 1) ==
               (was + NewStorages(cfg, |was|, k)) + [NewStorage(cfg, k, DEFAULT_CAPACITY_POW2)];
      }
    }

    /** Replaces data storage b by a larger copy that shares its counter. */
    method ReplaceData(b: nat, st: BucketStorage<seq<T>>)
      requires Coupled() && b < |data| && st.Valid() && st.count == data[b].count
      requires st.cells as object !in DataObjects() && st.cells as object != index.cells
      modifies this`data, this`shard
      ensures Coupled()
      ensures DataObjects() <= old(DataObjects()) + {st.cells}
      ensures shard == old(shard).(data := old(shard).data[b := st.View()])
    {
      data := data[b := st];
      shard := shard.(data := shard.data[b := st.View()]);
    }

    method ApplyGrowIndex(seed: nat, st: BucketStorage<Entry>)
      requires Coupled() && st.Valid() && st.count == index.count && st.cells as object !in DataObjects()
      modifies this`index, this`random, this`shard
      ensures Coupled() && index == st && data == old(data)
      ensures DataObjects() == old(DataObjects()) && PendingObjects() == old(PendingObjects())
      ensures shard == old(shard).(index := st.View(), random := seed)
    {
      index := st;
      random := seed;
      shard := shard.(index := st.View(), random := seed);
    }

    method ApplyGrowData(b: nat, st: BucketStorage<seq<T>>)
      requires Coupled() && st.Valid()
      requires st.cells as object !in DataObjects() && st.cells as object != index.cells
        && st.cells as object != index.count
      requires if b < |data| then st.count == data[b].count
               else st.count as object !in DataObjects() && st.count as object != index.cells && st.count != index.count
                    && st.cells as object != st.count
      modifies this`data, this`shard
      ensures Coupled() && PendingObjects() == old(PendingObjects())
      ensures forall o :: o in DataObjects() ==>
        o in old(DataObjects()) || o == st.cells as object || o == st.count as object || fresh(o)
      ensures shard == Install(cfg, old(shard), NewData(b, st.View()))
    {
      if b < |data| {
        ReplaceData(b, st);
      } else {
        PadData(b);
        PushData(st);
      }
    }

    /** Every writer runs this first: a pending reallocation becomes the live storage. */
    method HandleDelayedGrows()
      requires Valid() && PendingOk()
      modifies this
      ensures Valid() && Ready() && (Idle() <==> old(active) <= 1) && index.count == old(index.count)
      ensures forall o :: o in Objects() ==> o in old(Objects()) || fresh(o)
      ensures shard == match old(pending) case None => old(shard) case Some(g) => Install(cfg, old(shard), g)
      ensures Contents(cfg, shard) == old(Contents(cfg, shard))
    {
      assert pending.Some? ==> SameContents(cfg, shard, pending.value);
      if active == 1 {
        if newIndex.Some? {
          InstallPendingIndex();
        } else {
          InstallPendingData();
        }
      }
    }

    method TakePending()
      requires Coupled() && !poisoned
      modifies this`active, this`newIndex, this`newData, this`pending
      ensures Coupled() && Idle() && PendingObjects() == {} && DataObjects() == old(DataObjects())
    {
      active := 0;
      newIndex, newData, pending := None, None, None;
    }

    method InstallPendingIndex()
      requires Valid() && PendingOk() && active == 1 && newIndex.Some?
      modifies this
      ensures Valid() && Idle() && index.count == old(index.count)
      ensures forall o :: o in Objects() ==> o in old(Objects()) || fresh(o)
      ensures old(pending).Some? && shard == Install(cfg, old(shard), old(pending).value)
    {
      var (seed, st) := newIndex.value;
      assert pending == Some(NewIndex(seed, st.View()));
      assert Inv(cfg, Install(cfg, shard, pending.value));
      assert st.Valid() && st.count == index.count && st.cells as object !in DataObjects();
      assert st.cells as object in PendingObjects();
      hide Inv, Coupled, PendingOk, DataObjects, PendingObjects;
      TakePending();
      ApplyGrowIndex(seed, st);
      assert shard == Install(cfg, old(shard), NewIndex(seed, st.View()));
    }

    method InstallPendingData()
      requires Valid() && PendingOk() && active == 1 && newIndex.None?
      modifies this
      ensures Valid() && Idle() && index.count == old(index.count)
      ensures forall o :: o in Objects() ==> o in old(Objects()) || fresh(o)
      ensures old(pending).Some? && shard == Install(cfg, old(shard), old(pending).value)
    {
      PendingDataFacts();
      var (b, st) := newData.value;
      hide Inv, Coupled, PendingOk, Install;
      TakePending();
      ApplyGrowData(b, st);
    }

    /** What a pending data storage may be relied on for. */
    lemma PendingDataFacts()
      requires Valid() && PendingOk() && active == 1 && newIndex.None?
      ensures newData.Some? && !poisoned
      ensures var (b, st) := newData.value;
              && pending == Some(NewData(b, st.View()))
              && Inv(cfg, Install(cfg, shard, pending.value))
              && st.Valid() && st.cells as object !in DataObjects()
              && st.cells as object in PendingObjects() && st.count as object in PendingObjects()
              && st.cells as object != index.cells && st.cells as object != index.count
              && (if b < |data| then st.count == data[b].count
                  else
                    && st.count as object !in DataObjects() && st.count as object != index.cells
                    && st.count != index.count && st.cells as object != st.count)
    {
      hide Inv;
    }

    // ---------- the public write operations ----------

    lemma ReadyIsOk()
      requires Ready()
      ensures PendingOk()
    {
    }

    /** Growing and installing at once, as a writer does between two attempts. */
    method GrowNow(err: Error, seeds: seq<nat>) returns (r: Ending)
      requires Valid() && Ready() && CanGrow(shard, err)
      modifies this
      ensures Valid() && Ready() && (Idle() <==> old(Idle())) && index.count == old(index.count)
      ensures forall o :: o in Objects() ==> o in old(Objects()) || fresh(o)
      ensures r == GrowEnding(cfg, old(shard), err, seeds, old(active))
      ensures var g := BucketInsert.Grow(cfg, old(shard), err, seeds);
              shard == if old(Idle()) && g.Grew? then Install(cfg, old(shard), g.g) else old(shard)
    {
      hide Inv, Coupled, PendingOk, SameContents, BucketInsert.Grow, Install, CanGrow;
      ReadyIsOk();
      r := Grow(err, seeds);
      if !r.Panicked? {
        HandleDelayedGrows();
      }
    }

    /**
     * Writes until it succeeds, growing after each failure. On a jammed bucket the first
     * growth panics.
     */
    method Insert(key: Pubkey, v: Value<T>, draws: seq<Draw>) returns (r: Ending)
      requires Valid() && Ready()
      modifies this, Objects()
      ensures Valid() && Ready() && (Idle() <==> old(Idle())) && index.count == old(index.count)
      ensures forall o :: o in Objects() ==> o in old(Objects()) || fresh(o)
      ensures old(Idle()) ==>
        var run := BucketInsert.Insert(cfg, old(shard), key, v, draws);
        shard == run.shard && r == if run.done then Returned else StillRunning
      ensures !old(Idle()) ==> (shard, r) == JammedInsert(cfg, old(shard), key, v, draws)
    {
      hide Inv, Coupled, JammedInsert, BucketInsert.Insert;
      if active == 0 {
        r := InsertIdle(key, v, draws);
      } else {
        r := InsertJammed(key, v, draws);
      }
    }

    method InsertJammed(key: Pubkey, v: Value<T>, draws: seq<Draw>) returns (r: Ending)
      requires Valid() && Jammed()
      modifies this, Objects()
      ensures Valid() && Jammed() && index.count == old(index.count)
      ensures forall o :: o in Objects() ==> o in old(Objects()) || fresh(o)
      ensures (shard, r) == JammedInsert(cfg, old(shard), key, v, draws)
    {
      hide Inv, Coupled, BucketInsert.Grow, Install, BucketSpec.TryWrite, CanGrow;
      if draws == [] {
        return StillRunning;
      }
      RoundCanGrow(cfg, shard, key, v, draws[0]);
      var err := TryWrite(key, v.slots, v.refCount, draws[0].pos);
      if err.None? {
        return Returned;
      }
      r := GrowNow(err.value, draws[0].seeds);
    }

    method InsertIdle(key: Pubkey, v: Value<T>, draws: seq<Draw>) returns (r: Ending)
      requires Valid() && Idle()
      modifies this, Objects()
      ensures Valid() && Idle() && index.count == old(index.count)
      ensures forall o :: o in Objects() ==> o in old(Objects()) || fresh(o)
      ensures var run := BucketInsert.Insert(cfg, old(shard), key, v, draws);
              shard == run.shard && r == if run.done then Returned else StillRunning
    {
      hide Inv, Coupled, BucketInsert.Grow, Install, BucketSpec.TryWrite, CanGrow, BucketInsert.Insert;
      ghost var run := BucketInsert.Insert(cfg, shard, key, v, draws);
      assert draws[0..] == draws;
      for k := 0 to |draws|
        invariant Valid() && Idle() && index.count == old(index.count)
        invariant forall o :: o in Objects() ==> o in old(Objects()) || fresh(o)
        invariant var rest := BucketInsert.Insert(cfg, shard, key, v, draws[k..]);
                  rest.shard == run.shard && rest.done == run.done
      {
        InsertUnroll(cfg, shard, key, v, draws[k..]);
        assert draws[k..][1..] == draws[k + 1..];
        var err := TryWrite(key, v.slots, v.refCount, draws[k].pos);
        if err.None? {
          return Returned;
        }
        r := GrowNow(err.value, draws[k].seeds);
        if r.StillRunning? {
          return;
        }
      }
      assert draws[|draws|..] == [];
      InsertNothing(cfg, shard, key, v);
      r := StillRunning;
    }

    /** Replaces or removes the value of a key by a function of the present one. */
    method Update(key: Pubkey, f: Option<Value<T>> -> Option<Value<T>>, draws: seq<Draw>) returns (r: Ending)
      requires Valid() && Ready()
      modifies this, Objects()
      ensures Valid() && Ready() && (Idle() <==> old(Idle())) && index.count == old(index.count)
      ensures forall o :: o in Objects() ==> o in old(Objects()) || fresh(o)
      ensures r.Panicked? ==> !Idle()
      ensures match f(ShardOps.Get(old(Contents(cfg, shard)), key))
              case None => r.Returned? && Contents(cfg, shard) == old(Contents(cfg, shard)) - {key}
              case Some(v) => InsertEffect(old(Contents(cfg, shard)), Contents(cfg, shard), key, v, r.Returned?)
    {
      hide Inv, Coupled, Contents, Represents, BucketSpec.DeleteKey, BucketInsert.Insert, InsertEffect, JammedInsert;
      ghost var m := Contents(cfg, shard);
      ContentsRepresented(cfg, shard);
      var current := ReadValue(key);
      var next := f(current);
      match next
      case None =>
        DeleteRefinesMap(cfg, shard, m, key);
        DeleteKey(key);
        r := Returned;
        ContentsAre(cfg, shard, m - {key});
      case Some(v) =>
        InsertChangesContents(cfg, shard, key, v, draws);
        JammedInsertChangesContents(cfg, shard, key, v, draws);
        r := Insert(key, v, draws);
    }

    // ---------- listing ----------

    lemma ListingFacts()
      requires Valid()
      ensures Inv(cfg, shard) && Represents(shard, Contents(cfg, shard))
      ensures KeysUnique(shard.index.cells) && Counted(shard.index)
      ensures index.cells[..] == shard.index.cells
    {
      hide Contents, Represents;
      ContentsRepresented(cfg, shard);
    }

    /** Every key once. */
    method Keys() returns (r: seq<Pubkey>)
      requires Valid()
      ensures |r| == shard.index.count && Distinct(r)
      ensures forall k :: k in r <==> k in Contents(cfg, shard)
    {
      hide *;
      ListingFacts();
      ghost var cells := shard.index.cells;
      ListNone(cells, _ => true);
      r := [];
      for n := 0 to index.cells.Length
        invariant ListsCells(cells, n, _ => true, r)
      {
        ListOneMore(cells, n, _ => true, r);
        if index.cells[n].lock != UID_UNLOCKED {
          r := r + [index.cells[n].payload.key];
        }
      }
      ListAll(shard, Contents(cfg, shard), _ => true, r);
    }

    method ItemAt(n: nat) returns (r: BucketItem<T>)
      requires Valid() && Locked(shard.index.cells, n)
      ensures r.key == shard.index.cells[n].payload.key
      ensures r.key in Contents(cfg, shard) && r.value == Contents(cfg, shard)[r.key]
    {
      ContentsRepresented(cfg, shard);
      RepresentsAt(shard, Contents(cfg, shard), n);
      assert index.cells[n] == shard.index.cells[n];
      hide Inv, Coupled, Represents, Contents;
      var v := EntryRead(n);
      r := BucketItem(index.cells[n].payload.key, v);
    }

    /** Every item whose key is in range, once, with its value. */
    method ItemsInRange(range: Pubkey -> bool) returns (r: seq<BucketItem<T>>)
      requires Valid()
      ensures ItemsOf(Contents(cfg, shard), range, r)
      ensures (forall k :: range(k)) ==> |r| == shard.index.count
    {
      hide Inv, Represents, Contents, ListsCells, KeysUnique, ItemsMatch, ItemsOf, Counted;
      ListingFacts();
      ghost var cells, m := shard.index.cells, Contents(cfg, shard);
      ghost var keys: seq<Pubkey> := [];
      r := [];
      NoItems(m);
      ListNone(cells, range);
      for n := 0 to index.cells.Length
        invariant ListsCells(cells, n, range, keys)
        invariant ItemsMatch(m, keys, r)
      {
        ListOneMore(cells, n, range, keys);
        var c := index.cells[n];
        if c.lock != UID_UNLOCKED && range(c.payload.key) {
          assert c == cells[n];
          var item := ItemAt(n);
          ItemsMatchMore(m, keys, r, item);
          r := r + [item];
          keys := keys + [item.key];
        }
      }
      ItemsListed(shard, m, range, keys, r);
    }
  }

  /** A new data storage with a counter of its own. */
  method BuildNew<T>(cfg: Config<T>, b: nat, pow2: nat) returns (st: BucketStorage<seq<T>>)
    ensures st.Valid() && fresh(st.cells) && fresh(st.count) && st.cells as object != st.count
    ensures st.View() == NewStorage(cfg, b, pow2)
  {
    var count := new Counter();
    st := new BucketStorage(pow2, ZeroCell(cfg, b), count);
  }

  /** A larger copy that shares the counter of the storage it will replace. */
  method BuildResized<T>(cfg: Config<T>, from: BucketStorage<seq<T>>, b: nat, pow2: nat)
    returns (st: BucketStorage<seq<T>>)
    requires from.Valid() && from.pow2 <= pow2
    ensures st.Valid() && fresh(st.cells) && st.count == from.count
    ensures st.View() == Resized(cfg, from.View(), b, pow2)
  {
    st := new BucketStorage(pow2, ZeroCell(cfg, b), from.count);
    st.CopyContents(from, ZeroCell(cfg, b));
  }

  /** Attempts at ever larger indexes until one works or the seeds run out. */
  method BuildIndex<T>(cfg: Config<T>, from: BucketStorage<Entry>, ghost s: Shard<T>, seeds: seq<nat>)
    returns (r: Option<(nat, BucketStorage<Entry>)>)
    requires from.Valid() && from.View() == s.index
    ensures r.Some? <==> BucketInsert.GrowIndex(cfg, s, 1, seeds).Some?
    ensures r.Some? ==>
      && r.value.1.Valid() && fresh(r.value.1.cells) && r.value.1.count == from.count
      && BucketInsert.GrowIndex(cfg, s, 1, seeds) == Some(NewIndex(r.value.0, r.value.1.View()))
    ensures r.None? <==> forall k: nat :: k < |seeds| ==> !IndexGrowth.Fits(cfg, s, from.pow2 + 1 + k, seeds[k])
    ensures r.Some? ==>
      exists k: nat :: k < |seeds|
        && r.value.0 == seeds[k] && r.value.1.pow2 == from.pow2 + 1 + k
        && IndexGrowth.Fits(cfg, s, from.pow2 + 1 + k, seeds[k])
        && forall j: nat :: j < k ==> !IndexGrowth.Fits(cfg, s, from.pow2 + 1 + j, seeds[j])
  {
    IndexGrowth.GrowIndexIsFirstFit(cfg, s, seeds);
    hide IndexGrowth.Fits;
    for k := 0 to |seeds|
      invariant from.View() == s.index
      invariant BucketInsert.GrowIndex(cfg, s, 1, seeds) == BucketInsert.GrowIndex(cfg, s, 1 + k, seeds[k..])
    {
      var st := RehashInto(cfg, from, from.pow2 + 1 + k, seeds[k]);
      assert seeds[k..][1..] == seeds[k + 1..];
      if st.Some? {
        return Some((seeds[k], st.value));
      }
    }
    assert seeds[|seeds|..] == [];
    r := None;
  }

  /** Takes the first free cell of the key's window in an index under construction; not counted again. */
  method CreateKey<T>(cfg: Config<T>, st: BucketStorage<Entry>, key: Pubkey, uid: nat, seed: nat)
    returns (r: Option<nat>)
    requires st.Valid() && uid != UID_UNLOCKED
    modifies st.cells
    ensures r == FirstFree(old(st.cells[..]), Home(cfg, key, seed, st.cells.Length), 0, cfg.maxSearch)
    ensures st.cells[..] ==
            if r.Some? then old(st.cells[..])[r.value := Cell(uid, InitEntry(key))] else old(st.cells[..])
  {
    var home := Home(cfg, key, seed, st.cells.Length);
    ghost var cells := st.cells[..];
    for i := 0 to cfg.maxSearch
      invariant st.cells[..] == cells
      invariant FirstFree(cells, home, 0, cfg.maxSearch) == FirstFree(cells, home, i, cfg.maxSearch)
    {
      var ii := Slot(home, i, st.cells.Length);
      if st.cells[ii].lock == UID_UNLOCKED {
        st.cells[ii] := Cell(uid, InitEntry(key));
        return Some(ii);
      }
    }
    r := None;
  }

  method CopyEntry<T>(cfg: Config<T>, st: BucketStorage<Entry>, c: Cell<Entry>, seed: nat) returns (ok: bool)
    requires st.Valid() && c.lock != UID_UNLOCKED
    modifies st.cells
    ensures var ii := FirstFree(old(st.cells[..]), Home(cfg, c.payload.key, seed, st.cells.Length), 0, cfg.maxSearch);
            && ok == ii.Some?
            && (ok ==> st.cells[..] == old(st.cells[..])[ii.value := c])
  {
    var ii := CreateKey(cfg, st, c.payload.key, c.lock, seed);
    ok := ii.Some?;
    if ok {
      st.Put(ii.value, c.payload);
    }
  }

  /** One attempt at a larger index; a failed attempt is dropped and leaves no trace. */
  method RehashInto<T>(cfg: Config<T>, from: BucketStorage<Entry>, pow2: nat, seed: nat)
    returns (r: Option<BucketStorage<Entry>>)
    requires from.Valid()
    ensures r.Some? <==> Rehash(cfg, from.cells[..], from.cells.Length, pow2, seed).Some?
    ensures r.Some? ==>
      && r.value.Valid() && fresh(r.value.cells) && r.value.pow2 == pow2 && r.value.count == from.count
      && Some(r.value.cells[..]) == Rehash(cfg, from.cells[..], from.cells.Length, pow2, seed)
  {
    ghost var was := from.cells[..];
    hide FirstFree, Rehash;
    var st := new BucketStorage(pow2, ZeroEntry(), from.count);
    RehashZero(cfg, was, pow2, seed);
    for ix := 0 to from.cells.Length
      invariant fresh(st.cells) && st.Valid() && from.cells[..] == was
      invariant Rehash(cfg, was, ix, pow2, seed) == Some(st.cells[..])
    {
      var c := from.cells[ix];
      RehashOne(cfg, was, ix, pow2, seed);
      if c.lock != UID_UNLOCKED {
        var ok := CopyEntry(cfg, st, c, seed);
        if !ok {
          RehashFails(cfg, was, ix + 1, pow2, seed);
          return None;
        }
      }
    }
    r := Some(st);
  }

  lemma RehashZero<T>(cfg: Config<T>, was: seq<Cell<Entry>>, pow2: nat, seed: nat)
    ensures Rehash(cfg, was, 0, pow2, seed) == Some(EmptyCells(pow2, ZeroEntry()))
  {
  }

  lemma RehashOne<T>(cfg: Config<T>, was: seq<Cell<Entry>>, n: nat, pow2: nat, seed: nat)
    requires n < |was| && Rehash(cfg, was, n, pow2, seed).Some?
    ensures var acc := Rehash(cfg, was, n, pow2, seed).value;
            Rehash(cfg, was, n + 1, pow2, seed) ==
            if was[n].lock == UID_UNLOCKED then Some(acc)
            else
              match FirstFree(acc, Home(cfg, was[n].payload.key, seed, |acc|), 0, cfg.maxSearch)
              case None => None
              case Some(ii) => Some(acc[ii := was[n]])
  {
  }

  /** A copy that fails part way fails as a whole. */
  lemma {:induction false} RehashFails<T>(cfg: Config<T>, was: seq<Cell<Entry>>, n: nat, pow2: nat, seed: nat)
    requires n <= |was| && Rehash(cfg, was, n, pow2, seed).None?
    ensures Rehash(cfg, was, |was|, pow2, seed).None?
    decreases |was| - n
  {
    if n < |was| {
      RehashFails(cfg, was, n + 1, pow2, seed);
    }
  }
}
