/**
 * A bucket's public operations as functions of a shard, with the plain-map meaning
 * of each. Random choices are arguments.
 */
module BucketSpec {
  import opened Powers
  import opened Storage
  import opened IndexEntry
  import opened Shard
  import opened ShardOps

  // ---------- writing ----------

  lemma OwnedCell<T>(cfg: Config<T>, s: Shard<T>, i: nat)
    requires Inv(cfg, s) && Locked(s.index.cells, i)
    ensures s.index.count >= 1
    ensures var e := s.index.cells[i].payload;
            && Placeable(s.data, e)
            && (e.numSlots > 0 ==>
                  var (b, loc) := Place(s.data, e);
                  && loc < |s.data[b].cells| && s.data[b].count >= 1
                  && s.data[b].cells[loc].lock == s.index.cells[i].lock
                  && |s.data[b].cells[loc].payload| == Pow2(b))
  {
    hide Inv, Represents;
    ContentsRepresented(cfg, s);
    RemoveStep(cfg, s, Contents(cfg, s), i);
    var b := SizeClass(s.index.cells[i].payload.numSlots);
    InvData(cfg, s, b);
  }

  /** Puts the slots of the entry at i where they fit, in place or in a free cell. */
  function WriteSlots<T>(cfg: Config<T>, s: Shard<T>, i: nat, slots: seq<T>, pos: nat): (Shard<T>, Option<Error>)
    requires Inv(cfg, s) && Locked(s.index.cells, i) && SizeClass(|slots|) < |s.data|
  {
    OwnedCell(cfg, s, i);
    SizeClassFits(|slots|);
    var e := s.index.cells[i].payload;
    var best := SizeClass(|slots|);
    assert DataStorageOk(s.data[best], best);
    if best == SizeClass(e.numSlots) && e.numSlots > 0 then
      (UpdateInPlace(s, i, slots), None)
    else
      match FirstFree(s.data[best].cells, pos, 0, cfg.maxSearch)
      case Some(ix) => (Claim(Release(s, i), i, best, ix, slots), None)
      case None => (s, Some(DataNoSpace(best, s.data[best].pow2)))
  }

  lemma WriteSlotsStep<T>(cfg: Config<T>, s: Shard<T>, m: map<Pubkey, Value<T>>, i: nat, slots: seq<T>, pos: nat)
    requires Inv(cfg, s) && Represents(s, m) && Locked(s.index.cells, i) && SizeClass(|slots|) < |s.data|
    ensures var (s', err) := WriteSlots(cfg, s, i, slots, pos);
            var e := s.index.cells[i].payload;
            && Inv(cfg, s')
            && (err.None? ==> Represents(s', m[e.key := Value(slots, e.refCount)]))
            && (err.Some? ==> s' == s)
            && |s'.data| == |s.data|
  {
    hide Inv, Represents, DataOk, DataStorageOk;
    var e := s.index.cells[i].payload;
    var best := SizeClass(|slots|);
    OwnedCell(cfg, s, i);
    InvData(cfg, s, best);
    SizeClassFits(|slots|);
    if best == SizeClass(e.numSlots) && e.numSlots > 0 {
      UpdateInPlaceStep(cfg, s, m, i, slots);
    } else {
      match FirstFree(s.data[best].cells, pos, 0, cfg.maxSearch)
      case None =>
      case Some(ix) =>
        ReleaseStep(cfg, s, m, i);
        var m1 := m[e.key := Value([], e.refCount)];
        ClaimStep(cfg, Release(s, i), m1, i, ix, slots);
        assert m1[e.key := Value(slots, e.refCount)] == m[e.key := Value(slots, e.refCount)];
    }
  }

  /** The cell to leave and the cell to take are what a move needs them to be. */
  ghost predicate MoveReady<T>(s: Shard<T>, i: nat, ix: nat, slots: seq<T>) {
    var best := SizeClass(|slots|);
    && Locked(s.index.cells, i)
    && best < |s.data| && ix < |s.data[best].cells| && s.data[best].cells[ix].lock == UID_UNLOCKED
    && |slots| <= |s.data[best].cells[ix].payload|
    && var e := s.index.cells[i].payload;
       && Placeable(s.data, e)
       && (e.numSlots > 0 ==>
             var (b, loc) := Place(s.data, e);
             && b != best && loc < |s.data[b].cells| && s.data[b].count >= 1
             && s.data[b].cells[loc].lock == s.index.cells[i].lock)
  }

  /** A write that does not fit in place, in the order in which a bucket does it. */
  lemma WriteSlotsMoves<T>(cfg: Config<T>, s: Shard<T>, i: nat, slots: seq<T>, pos: nat)
    requires Inv(cfg, s) && Locked(s.index.cells, i) && SizeClass(|slots|) < |s.data|
    requires !(SizeClass(|slots|) == SizeClass(s.index.cells[i].payload.numSlots)
               && s.index.cells[i].payload.numSlots > 0)
    ensures |s.data[SizeClass(|slots|)].cells| > 0
    ensures var best := SizeClass(|slots|);
            var e := s.index.cells[i].payload;
            match FirstFree(s.data[best].cells, pos, 0, cfg.maxSearch)
            case None => WriteSlots(cfg, s, i, slots, pos) == (s, Some(DataNoSpace(best, s.data[best].pow2)))
            case Some(ix) =>
              && MoveReady(s, i, ix, slots)
              && WriteSlots(cfg, s, i, slots, pos) == (Move(s, i, best, ix, slots), None)
              && Inv(cfg, Move(s, i, best, ix, slots))
  {
    hide Inv, Represents, Contents, Release, Claim, Move;
    ContentsRepresented(cfg, s);
    WriteSlotsStep(cfg, s, Contents(cfg, s), i, slots, pos);
    OwnedCell(cfg, s, i);
    InvData(cfg, s, SizeClass(|slots|));
    SizeClassFits(|slots|);
    match FirstFree(s.data[SizeClass(|slots|)].cells, pos, 0, cfg.maxSearch)
    case None =>
    case Some(ix) => MoveIsReleaseThenClaim(s, i, SizeClass(|slots|), ix, slots);
  }

  /** The entry of a key to be written: found, or newly created. */
  function OpenEntry<T>(cfg: Config<T>, s: Shard<T>, key: Pubkey, refCount: nat): Option<(Shard<T>, nat)>
    requires Shaped(s.index)
  {
    match FindEntryMut(cfg, s.index.cells, s.random, key)
    case Full => None
    case Found(i) =>
      Some((SetEntry(s, i, s.index.cells[i].payload.(refCount := refCount)), i))
    case Vacant(i) =>
      Some((SetEntry(CreateEntry(s, i, KeyUid(cfg, key), key), i, InitEntry(key).(refCount := refCount)), i))
  }

  /** What a write that found its entry but no room for its slots leaves in the map. */
  function Touched<T>(m: map<Pubkey, Value<T>>, key: Pubkey, refCount: nat): map<Pubkey, Value<T>> {
    m[key := Value(if key in m then m[key].slots else [], refCount)]
  }

  lemma OpenEntryStep<T>(cfg: Config<T>, s: Shard<T>, m: map<Pubkey, Value<T>>, key: Pubkey, refCount: nat)
    requires Inv(cfg, s) && Represents(s, m) && |s.data| > 0
    ensures match OpenEntry(cfg, s, key, refCount)
            case None => key !in m
            case Some((s', i)) =>
              && Inv(cfg, s') && Represents(s', Touched(m, key, refCount))
              && s'.data == s.data
              && Locked(s'.index.cells, i)
              && s'.index.cells[i].payload.key == key
              && s'.index.cells[i].payload.refCount == refCount
  {
    hide Inv, Represents, IndexOk;
    InvIndex(cfg, s);
    RepresentsKeys(s, m, key);
    var home := Home(cfg, key, s.random, |s.index.cells|);
    FindEntryComplete(cfg, s.index, s.random, key);
    FirstFreeSound(s.index.cells, home, 0, cfg.maxSearch);
    match FindEntryMut(cfg, s.index.cells, s.random, key)
    case Full =>
    case Found(i) =>
      SetRefCountStep(cfg, s, m, i, refCount);
    case Vacant(i) =>
      CreateEntryStep(cfg, s, m, i, key);
      var m1 := m[key := Value([], 0)];
      SetRefCountStep(cfg, CreateEntry(s, i, KeyUid(cfg, key), key), m1, i, refCount);
      assert m1[key := m1[key].(refCount := refCount)] == Touched(m, key, refCount);
  }

  lemma OpenEntryKeepsInv<T>(cfg: Config<T>, s: Shard<T>, key: Pubkey, refCount: nat)
    requires Inv(cfg, s) && |s.data| > 0
    ensures Shaped(s.index)
    ensures match FindEntryMut(cfg, s.index.cells, s.random, key)
            case Full => true
            case Found(i) => Locked(s.index.cells, i)
            case Vacant(i) => i < |s.index.cells| && s.index.cells[i].lock == UID_UNLOCKED
    ensures match OpenEntry(cfg, s, key, refCount)
            case None => true
            case Some((s', i)) => Inv(cfg, s') && Locked(s'.index.cells, i)
  {
    hide Inv, Represents, Contents;
    InvIndex(cfg, s);
    ContentsRepresented(cfg, s);
    OpenEntryStep(cfg, s, Contents(cfg, s), key, refCount);
  }

  function TryWrite<T>(cfg: Config<T>, s: Shard<T>, key: Pubkey, slots: seq<T>, refCount: nat, pos: nat)
    : (Shard<T>, Option<Error>)
    requires Inv(cfg, s)
  {
    var best := SizeClass(|slots|);
    if best >= |s.data| then
      // fail before an index entry is allocated
      (s, Some(DataNoSpace(best, 0)))
    else
      ContentsRepresented(cfg, s);
      OpenEntryStep(cfg, s, Contents(cfg, s), key, refCount);
      match OpenEntry(cfg, s, key, refCount)
      case None => (s, Some(IndexNoSpace(s.index.pow2)))
      case Some((s', i)) => WriteSlots(cfg, s', i, slots, pos)
  }

  /** The plain-map meaning of a write attempt with outcome `err`, on a bucket with `classes` data storages. */
  function MapTryWrite<T>(m: map<Pubkey, Value<T>>, key: Pubkey, slots: seq<T>, refCount: nat,
                          err: Option<Error>, classes: nat): map<Pubkey, Value<T>> {
    match err
    case None => m[key := Value(slots, refCount)]
    case Some(IndexNoSpace(_)) => m
    case Some(DataNoSpace(b, _)) => if b >= classes then m else Touched(m, key, refCount)
  }

  /**
   * A write keeps the invariant. On success the map has the new value; a missing data
   * storage or a full index window changes nothing; a failed search for a data cell
   * leaves the slot list of the key (empty if absent) and sets its ref count only.
   */
  lemma TryWriteRefinesMap<T>(cfg: Config<T>, s: Shard<T>, m: map<Pubkey, Value<T>>,
                              key: Pubkey, slots: seq<T>, refCount: nat, pos: nat)
    requires Inv(cfg, s) && Represents(s, m)
    ensures var (s', err) := TryWrite(cfg, s, key, slots, refCount, pos);
            && Inv(cfg, s')
            && Represents(s', MapTryWrite(m, key, slots, refCount, err, |s.data|))
            && |s'.data| == |s.data|
            && (err.Some? ==> s'.data == s.data)
            && (err.Some? && (err.value.IndexNoSpace? || SizeClass(|slots|) >= |s.data|) ==> s' == s)
            && (err.Some? && err.value.IndexNoSpace? ==> key !in m && err.value.pow2 == s.index.pow2)
            && (err.Some? && err.value.DataNoSpace? ==>
                  && err.value.sizeClass == SizeClass(|slots|)
                  && err.value.pow2 == if SizeClass(|slots|) < |s.data| then s.data[SizeClass(|slots|)].pow2 else 0)
  {
    hide Inv, Represents, IndexOk, DataOk;
    var best := SizeClass(|slots|);
    if best < |s.data| {
      InvIndex(cfg, s);
      OpenEntryStep(cfg, s, m, key, refCount);
      match OpenEntry(cfg, s, key, refCount)
      case None =>
      case Some((s1, i)) =>
        var m1 := Touched(m, key, refCount);
        WriteSlotsStep(cfg, s1, m1, i, slots, pos);
        assert m1[key := Value(slots, refCount)] == m[key := Value(slots, refCount)];
    }
  }

  // ---------- deleting and counting references ----------

  function DeleteKey<T>(cfg: Config<T>, s: Shard<T>, key: Pubkey): Shard<T>
    requires Inv(cfg, s)
  {
    match FindEntry(cfg, s.index.cells, s.random, key)
    case None => s
    case Some(i) =>
      FindEntryComplete(cfg, s.index, s.random, key);
      OwnedCell(cfg, s, i);
      Remove(s, i)
  }

  lemma DeleteRefinesMap<T>(cfg: Config<T>, s: Shard<T>, m: map<Pubkey, Value<T>>, key: Pubkey)
    requires Inv(cfg, s) && Represents(s, m)
    ensures Inv(cfg, DeleteKey(cfg, s, key))
    ensures Represents(DeleteKey(cfg, s, key), m - {key})
  {
    hide Inv, Represents, IndexOk;
    InvIndex(cfg, s);
    RepresentsKeys(s, m, key);
    FindEntryComplete(cfg, s.index, s.random, key);
    match FindEntry(cfg, s.index.cells, s.random, key)
    case None =>
      assert m - {key} == m;
    case Some(i) =>
      RemoveStep(cfg, s, m, i);
  }

  /** A delete unlocks the index cell of the key and the data cell its entry owned. */
  lemma DeleteUnlocks<T>(cfg: Config<T>, s: Shard<T>, i: nat)
    requires Inv(cfg, s) && Locked(s.index.cells, i)
    ensures Placeable(s.data, s.index.cells[i].payload)
    ensures var e := s.index.cells[i].payload;
            var s' := DeleteKey(cfg, s, e.key);
            && i < |s'.index.cells| && s'.index.cells[i].lock == UID_UNLOCKED && s'.index.count == s.index.count - 1
            && (e.numSlots > 0 ==>
                  var (b, loc) := Place(s.data, e);
                  && b < |s'.data| && loc < |s'.data[b].cells| && s'.data[b].cells[loc].lock == UID_UNLOCKED
                  && s'.data[b].count == s.data[b].count - 1)
  {
    hide Inv, IndexOk;
    InvIndex(cfg, s);
    FindEntryComplete(cfg, s.index, s.random, s.index.cells[i].payload.key);
    OwnedCell(cfg, s, i);
  }

  /** Sets the ref count of a present key; the source adds or subtracts one. */
  function ChangeRef<T>(cfg: Config<T>, s: Shard<T>, key: Pubkey, delta: int): (Shard<T>, Option<nat>)
    requires Inv(cfg, s)
    requires var r := FindEntry(cfg, s.index.cells, s.random, key);
             r.Some? ==> r.value < |s.index.cells| && s.index.cells[r.value].payload.refCount + delta >= 0
  {
    match FindEntry(cfg, s.index.cells, s.random, key)
    case None => (s, None)
    case Some(i) =>
      var e := s.index.cells[i].payload;
      (SetEntry(s, i, e.(refCount := e.refCount + delta)), Some(e.refCount + delta))
  }

  /** An increment or decrement acts on a present key only; a count never goes below zero. */
  lemma ChangeRefRefinesMap<T>(cfg: Config<T>, s: Shard<T>, m: map<Pubkey, Value<T>>, key: Pubkey, delta: int)
    requires Inv(cfg, s) && Represents(s, m)
    requires key in m ==> m[key].refCount + delta >= 0
    ensures var r := FindEntry(cfg, s.index.cells, s.random, key);
            r.Some? ==> r.value < |s.index.cells| && s.index.cells[r.value].payload.refCount + delta >= 0
    ensures var (s', r) := ChangeRef(cfg, s, key, delta);
            && Inv(cfg, s')
            && Represents(s', if key in m then m[key := m[key].(refCount := m[key].refCount + delta)] else m)
            && r == if key in m then Some(m[key].refCount + delta) else None
  {
    hide Inv, Represents, IndexOk;
    InvIndex(cfg, s);
    RepresentsKeys(s, m, key);
    FindEntryComplete(cfg, s.index, s.random, key);
    match FindEntry(cfg, s.index.cells, s.random, key)
    case None =>
    case Some(i) =>
      var e := s.index.cells[i].payload;
      RepresentsAt(s, m, i);
      SetRefCountStep(cfg, s, m, i, e.refCount + delta);
  }
}
