/**
 * When a write attempt fails, and where a successful one puts the entry and its slots,
 * said of the cells alone.
 */
module WriteOutcomes {
  import opened Storage
  import opened IndexEntry
  import opened Shard
  import opened ShardOps
  import opened BucketSpec

  /** Where the search for a key to write ends: at its cell, at the first free cell of its window, or nowhere. */
  ghost predicate SearchEnds<T>(cfg: Config<T>, s: Shard<T>, key: Pubkey, r: Search)
    requires |s.index.cells| > 0
  {
    var cells := s.index.cells;
    var uid := if cfg.keyHash(key) == 0 then 1 else cfg.keyHash(key);
    var home := cfg.indexHash(uid, s.random) % |cells|;
    match r
    case Found(i) => Locked(cells, i) && cells[i].payload.key == key
    case Vacant(i) => !HasKey(cells, key) && FirstFreeAt(cells, home, cfg.maxSearch, i)
    case Full => !HasKey(cells, key) && WindowFull(cells, home, cfg.maxSearch)
  }

  /** The search ends as it should, and in no other way. */
  lemma SearchEndsIff<T>(cfg: Config<T>, s: Shard<T>, key: Pubkey, r: Search)
    requires Inv(cfg, s)
    ensures |s.index.cells| > 0
    ensures SearchEnds(cfg, s, key, r) <==> r == FindEntryMut(cfg, s.index.cells, s.random, key)
  {
    hide Inv, IndexOk, FirstFreeAt, WindowFull, FirstFree;
    InvIndex(cfg, s);
    var cells := s.index.cells;
    var home := Home(cfg, key, s.random, |cells|);
    FindEntryComplete(cfg, s.index, s.random, key);
    FirstFreeIff(cells, home, cfg.maxSearch);
  }

  /** Writing would reuse the data cell the key has: it has slots, and the new ones need a cell of the same size. */
  ghost predicate InPlace<T>(m: map<Pubkey, Value<T>>, key: Pubkey, slots: seq<T>) {
    key in m && m[key].slots != [] && SizeClass(|m[key].slots|) == SizeClass(|slots|)
  }

  /** The key is absent, and its home cell and the others of its window are all locked. */
  ghost predicate NoEntry<T>(cfg: Config<T>, s: Shard<T>, m: map<Pubkey, Value<T>>, key: Pubkey)
    requires |s.index.cells| > 0
  {
    var uid := if cfg.keyHash(key) == 0 then 1 else cfg.keyHash(key);
    key !in m && WindowFull(s.index.cells, cfg.indexHash(uid, s.random) % |s.index.cells|, cfg.maxSearch)
  }

  /** The slots cannot be written in place, and the cells a search from `pos` looks at are all locked. */
  ghost predicate NoCell<T>(cfg: Config<T>, s: Shard<T>, m: map<Pubkey, Value<T>>, key: Pubkey, slots: seq<T>,
                            pos: nat)
    requires SizeClass(|slots|) < |s.data| && |s.data[SizeClass(|slots|)].cells| > 0
  {
    !InPlace(m, key, slots) && WindowFull(s.data[SizeClass(|slots|)].cells, pos, cfg.maxSearch)
  }

  lemma LockIsUid<T>(cfg: Config<T>, s: Shard<T>, i: nat)
    requires Inv(cfg, s) && Locked(s.index.cells, i)
    ensures s.index.cells[i].lock == KeyUid(cfg, s.index.cells[i].payload.key)
  {
    assert CellInWindow(cfg, s.index.cells, s.random, i);
  }

  /** The entry a write opens is the one the search ended at; a new one is empty. */
  lemma OpenEntryIs<T>(cfg: Config<T>, s: Shard<T>, key: Pubkey, refCount: nat, r: Search)
    requires Inv(cfg, s) && |s.index.cells| > 0 && SearchEnds(cfg, s, key, r)
    ensures Shaped(s.index)
    ensures var cells := s.index.cells;
            var uid := if cfg.keyHash(key) == 0 then 1 else cfg.keyHash(key);
            match r
            case Full => OpenEntry(cfg, s, key, refCount) == None
            case Found(i) =>
              var e := cells[i].payload.(refCount := refCount);
              OpenEntry(cfg, s, key, refCount) == Some((s.(index := s.index.(cells := cells[i := Cell(uid, e)])), i))
            case Vacant(i) =>
              var e := Entry(key, refCount, 0, 0, 0);
              OpenEntry(cfg, s, key, refCount)
              == Some((s.(index := s.index.(cells := cells[i := Cell(uid, e)], count := s.index.count + 1)), i))
  {
    hide Inv, IndexOk, FirstFreeAt, WindowFull, FirstFree;
    InvIndex(cfg, s);
    SearchEndsIff(cfg, s, key, r);
    match r
    case Found(i) => LockIsUid(cfg, s, i);
    case Vacant(i) =>
      var cells, c := s.index.cells, Cell(KeyUid(cfg, key), InitEntry(key));
      var c' := c.(payload := Entry(key, refCount, 0, 0, 0));
      assert cells[i := c][i := c'] == cells[i := c'];
    case Full =>
  }

  /** The cell ix of storage b is locked with `uid` and starts with the slots. */
  ghost predicate SlotsAt<T>(s: Shard<T>, b: nat, ix: nat, uid: nat, slots: seq<T>) {
    && b < |s.data| && ix < |s.data[b].cells| && s.data[b].cells[ix].lock == uid
    && |slots| <= |s.data[b].cells[ix].payload| && s.data[b].cells[ix].payload[..|slots|] == slots
  }

  lemma MovePlaces<T>(s: Shard<T>, i: nat, ix: nat, slots: seq<T>)
    requires MoveReady(s, i, ix, slots)
    ensures var b := SizeClass(|slots|);
            var Cell(uid, e) := s.index.cells[i];
            var s' := Move(s, i, b, ix, slots);
            && s' == s.(data := s'.data, index := s.index.(cells :=
                      s.index.cells[i := Cell(uid, Entry(e.key, e.refCount, ix, s.data[b].pow2, |slots|))]))
            && (slots != [] ==> SlotsAt(s', b, ix, uid, slots))
  {
    hide SizeClass, DataLoc;
    var b, s' := SizeClass(|slots|), Move(s, i, SizeClass(|slots|), ix, slots);
    if slots != [] {
      assert s'.data[b].cells[ix] == Cell(s.index.cells[i].lock, Overwrite(s.data[b].cells[ix].payload, slots));
    }
  }

  lemma UpdatePlaces<T>(s: Shard<T>, i: nat, slots: seq<T>)
    requires Locked(s.index.cells, i) && Placeable(s.data, s.index.cells[i].payload)
    requires var (b, loc) := Place(s.data, s.index.cells[i].payload);
             loc < |s.data[b].cells| && |slots| <= |s.data[b].cells[loc].payload|
    ensures var e := s.index.cells[i].payload;
            var s' := UpdateInPlace(s, i, slots);
            s' == s.(data := s'.data, index := s.index.(cells :=
                    s.index.cells[i := s.index.cells[i].(payload := e.(numSlots := |slots|))]))
  {
  }

  /** Where the slots of an entry go: its own cell if that has the right size, else the first free one from `pos`. */
  lemma WriteSlotsIs<T>(cfg: Config<T>, s: Shard<T>, i: nat, slots: seq<T>, pos: nat)
    requires Inv(cfg, s) && Locked(s.index.cells, i) && SizeClass(|slots|) < |s.data|
    ensures var b := SizeClass(|slots|);
            var e := s.index.cells[i].payload;
            var (s', err) := WriteSlots(cfg, s, i, slots, pos);
            && |s.data[b].cells| > 0
            && (err.Some? ==> err.value.DataNoSpace? && s' == s)
            && i < |s'.index.cells| && s'.index.cells[i].lock == s.index.cells[i].lock
            && s' == s.(data := s'.data, index := s.index.(cells := s.index.cells[i := s'.index.cells[i]]))
            && var e' := s'.index.cells[i].payload;
               if e.numSlots > 0 && SizeClass(e.numSlots) == b then
                 err.None? && e' == e.(numSlots := |slots|)
               else
                 && (err.Some? <==> WindowFull(s.data[b].cells, pos, cfg.maxSearch))
                 && forall ix: nat :: FirstFreeAt(s.data[b].cells, pos, cfg.maxSearch, ix) ==>
                      && e' == Entry(e.key, e.refCount, ix, s.data[b].pow2, |slots|)
                      && (slots != [] ==> SlotsAt(s', b, ix, s.index.cells[i].lock, slots))
  {
    hide Inv, Represents, Contents, FirstFreeAt, WindowFull, FirstFree, DataLoc, SizeClass;
    var b := SizeClass(|slots|);
    var e := s.index.cells[i].payload;
    OwnedCell(cfg, s, i);
    InvData(cfg, s, b);
    SizeClassFits(|slots|);
    if e.numSlots > 0 && SizeClass(e.numSlots) == b {
      UpdatePlaces(s, i, slots);
    } else {
      FirstFreeIff(s.data[b].cells, pos, cfg.maxSearch);
      WriteSlotsMoves(cfg, s, i, slots, pos);
      hide Move, WriteSlots, SlotsAt, MoveReady;
      match FirstFree(s.data[b].cells, pos, 0, cfg.maxSearch)
      case None =>
      case Some(ix) => MovePlaces(s, i, ix, slots);
    }
  }

  lemma SlotCount<T>(s: Shard<T>, m: map<Pubkey, Value<T>>, i: nat)
    requires Represents(s, m) && Locked(s.index.cells, i)
    ensures s.index.cells[i].payload.key in m
    ensures |m[s.index.cells[i].payload.key].slots| == s.index.cells[i].payload.numSlots
  {
    RepresentsAt(s, m, i);
  }

  /**
   * A write attempt fails for the index exactly when the key is absent and every cell of its
   * window is locked. It fails for the data exactly when it got past the index, cannot write
   * in place, and every cell from `pos` on that it may look at is locked.
   */
  lemma TryWriteErrorIff<T>(cfg: Config<T>, s: Shard<T>, m: map<Pubkey, Value<T>>,
                            key: Pubkey, slots: seq<T>, refCount: nat, pos: nat)
    requires Inv(cfg, s) && Represents(s, m)
    ensures var b := SizeClass(|slots|);
            var (s', err) := TryWrite(cfg, s, key, slots, refCount, pos);
            && (b >= |s.data| ==> s' == s && err == Some(DataNoSpace(b, 0)))
            && (b < |s.data| ==>
                  && |s.index.cells| > 0 && |s.data[b].cells| > 0
                  && var noEntry, noCell := NoEntry(cfg, s, m, key), NoCell(cfg, s, m, key, slots, pos);
                     && (err == Some(IndexNoSpace(s.index.pow2)) <==> noEntry)
                     && (err == Some(DataNoSpace(b, s.data[b].pow2)) <==> !noEntry && noCell)
                     && (err == None <==> !noEntry && !noCell))
  {
    hide Inv, Represents, Contents, FirstFreeAt, WindowFull, FirstFree, FindEntryMut, SizeClass, WriteSlots;
    InvIndex(cfg, s);
    if SizeClass(|slots|) < |s.data| {
      InvData(cfg, s, SizeClass(|slots|));
      var r := FindEntryMut(cfg, s.index.cells, s.random, key);
      SearchEndsIff(cfg, s, key, r);
      SearchEndsIff(cfg, s, key, Full);
      OpenEntryIs(cfg, s, key, refCount, r);
      OpenEntryStep(cfg, s, m, key, refCount);
      RepresentsKeys(s, m, key);
      TryWriteRefinesMap(cfg, s, m, key, slots, refCount, pos);
      hide OpenEntry;
      if r != Full {
        var (s1, i) := OpenEntry(cfg, s, key, refCount).value;
        WriteSlotsIs(cfg, s1, i, slots, pos);
        SlotCount(s1, Touched(m, key, refCount), i);
        var (s', err) := WriteSlots(cfg, s1, i, slots, pos);
        assert TryWrite(cfg, s, key, slots, refCount, pos) == (s', err);
        assert (s1.index.cells[i].payload.numSlots > 0
                && SizeClass(s1.index.cells[i].payload.numSlots) == SizeClass(|slots|)) <==> InPlace(m, key, slots);
      }
    }
  }

  /** The entry as the write opens it. */
  ghost function Opened(cells: seq<Cell<Entry>>, key: Pubkey, refCount: nat, r: Search): Entry
    requires r.Found? ==> r.ix < |cells|
  {
    if r.Found? then cells[r.ix].payload.(refCount := refCount) else Entry(key, refCount, 0, 0, 0)
  }

  /**
   * A write that got past the index changes one index cell only: the one its search ended at, which
   * then has the uid, the key and the ref count. In place the entry keeps its data cell; else it names
   * the first free cell of the data window, which is locked with the uid and starts with the slots.
   */
  lemma TryWritePlaces<T>(cfg: Config<T>, s: Shard<T>, m: map<Pubkey, Value<T>>,
                          key: Pubkey, slots: seq<T>, refCount: nat, pos: nat, r: Search)
    requires Inv(cfg, s) && Represents(s, m) && SizeClass(|slots|) < |s.data|
    requires |s.index.cells| > 0 && SearchEnds(cfg, s, key, r) && r != Full
    ensures var cells, b := s.index.cells, SizeClass(|slots|);
            var uid := if cfg.keyHash(key) == 0 then 1 else cfg.keyHash(key);
            var e := Opened(cells, key, refCount, r);
            var (s', err) := TryWrite(cfg, s, key, slots, refCount, pos);
            && s'.index.pow2 == s.index.pow2 && s'.random == s.random && r.ix < |s'.index.cells| == |cells|
            && s'.index.count == s.index.count + (if r.Vacant? then 1 else 0)
            && (forall j: nat :: j < |cells| && j != r.ix ==> s'.index.cells[j] == cells[j])
            && |s.data[b].cells| > 0
            && s'.index.cells[r.ix].lock == uid
            && var e' := s'.index.cells[r.ix].payload;
               && (err.Some? ==> e' == e)
               && (InPlace(m, key, slots) ==> e' == e.(numSlots := |slots|))
               && (!InPlace(m, key, slots) ==>
                     forall ix: nat :: FirstFreeAt(s.data[b].cells, pos, cfg.maxSearch, ix) ==>
                       && e' == Entry(key, refCount, ix, s.data[b].pow2, |slots|)
                       && (slots != [] ==> SlotsAt(s', b, ix, uid, slots)))
  {
    hide Inv, Represents, Contents, FirstFreeAt, WindowFull, FirstFree, FindEntryMut, SizeClass, WriteSlots;
    hide SlotsAt, SearchEnds;
    InvIndex(cfg, s);
    InvData(cfg, s, SizeClass(|slots|));
    SearchInRange(cfg, s, key, r);
    OpenEntryIs(cfg, s, key, refCount, r);
    OpenEntryStep(cfg, s, m, key, refCount);
    hide OpenEntry;
    var (s1, i) := OpenEntry(cfg, s, key, refCount).value;
    WriteSlotsIs(cfg, s1, i, slots, pos);
    SlotCount(s1, Touched(m, key, refCount), i);
    var (s', err) := WriteSlots(cfg, s1, i, slots, pos);
    assert TryWrite(cfg, s, key, slots, refCount, pos) == (s', err);
    assert (s1.index.cells[i].payload.numSlots > 0
            && SizeClass(s1.index.cells[i].payload.numSlots) == SizeClass(|slots|)) <==> InPlace(m, key, slots);
  }

  lemma SearchInRange<T>(cfg: Config<T>, s: Shard<T>, key: Pubkey, r: Search)
    requires |s.index.cells| > 0 && SearchEnds(cfg, s, key, r)
    ensures r != Full ==> r.ix < |s.index.cells|
  {
  }
}
