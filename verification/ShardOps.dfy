/** The operations of a bucket as functions on shards, and what each does to the plain map. */
module ShardOps {
  import opened Powers
  import opened Storage
  import opened IndexEntry
  import opened Shard

  datatype Error =
    | DataNoSpace(sizeClass: nat, pow2: nat)
    | IndexNoSpace(pow2: nat)

  // ---------- looking a key up ----------

  /** The cell of `key` among the steps j, j+1, .., max-1 of a probe. */
  function Probe(cells: seq<Cell<Entry>>, key: Pubkey, home: nat, j: nat, max: nat): (r: Option<nat>)
    requires |cells| > 0
    ensures r.Some? ==> Locked(cells, r.value) && cells[r.value].payload.key == key
    decreases max - j
  {
    if j >= max then None
    else
      var ii := Slot(home, j, |cells|);
      if cells[ii].lock != UID_UNLOCKED && cells[ii].payload.key == key then Some(ii)
      else Probe(cells, key, home, j + 1, max)
  }

  function FindEntry<T>(cfg: Config<T>, cells: seq<Cell<Entry>>, random: nat, key: Pubkey): Option<nat>
    requires |cells| > 0
  {
    Probe(cells, key, Home(cfg, key, random, |cells|), 0, cfg.maxSearch)
  }

  lemma {:induction false} ProbeSound(cells: seq<Cell<Entry>>, key: Pubkey, home: nat, j: nat, max: nat)
    requires |cells| > 0
    ensures match Probe(cells, key, home, j, max)
            case Some(ii) => Locked(cells, ii) && cells[ii].payload.key == key
            case None => forall k :: j <= k < max ==>
              var ii := Slot(home, k, |cells|);
              !(cells[ii].lock != UID_UNLOCKED && cells[ii].payload.key == key)
    decreases max - j
  {
    if j < max {
      var ii := Slot(home, j, |cells|);
      if !(cells[ii].lock != UID_UNLOCKED && cells[ii].payload.key == key) {
        ProbeSound(cells, key, home, j + 1, max);
      }
    }
  }

  /** The bounded probe finds exactly the cell that holds the key, wherever holes are. */
  lemma FindEntryComplete<T>(cfg: Config<T>, index: Storage<Entry>, random: nat, key: Pubkey)
    requires IndexOk(cfg, index, random)
    ensures var r := FindEntry(cfg, index.cells, random, key);
            && (r.Some? <==> HasKey(index.cells, key))
            && (r.Some? ==> Locked(index.cells, r.value) && index.cells[r.value].payload.key == key)
            && (forall i :: Locked(index.cells, i) && index.cells[i].payload.key == key ==> r == Some(i))
  {
    var cells := index.cells;
    var home := Home(cfg, key, random, |cells|);
    ProbeSound(cells, key, home, 0, cfg.maxSearch);
    forall i | Locked(cells, i) && cells[i].payload.key == key
      ensures FindEntry(cfg, cells, random, key) == Some(i)
    {
      assert CellInWindow(cfg, cells, random, i);
      SlotOfOffset(home, i, |cells|);
    }
    if HasKey(cells, key) {
      var i :| 0 <= i < |cells| && cells[i].lock != UID_UNLOCKED && cells[i].payload.key == key;
      assert Locked(cells, i);
    }
  }

  /** What a search for a key to write ends with. */
  datatype Search = Found(ix: nat) | Vacant(ix: nat) | Full

  function FindEntryMut<T>(cfg: Config<T>, cells: seq<Cell<Entry>>, random: nat, key: Pubkey): Search
    requires |cells| > 0
  {
    match FindEntry(cfg, cells, random, key)
    case Some(ii) => Found(ii)
    case None =>
      match FirstFree(cells, Home(cfg, key, random, |cells|), 0, cfg.maxSearch)
      case Some(ii) => Vacant(ii)
      case None => Full
  }

  /** The read path of a bucket. */
  function ReadValue<T>(cfg: Config<T>, s: Shard<T>, key: Pubkey): (r: Option<Value<T>>)
    requires |s.index.cells| > 0
    requires forall i :: 0 <= i < |s.index.cells| && s.index.cells[i].lock != UID_UNLOCKED ==>
      Readable(s.data, s.index.cells[i].payload)
  {
    match FindEntry(cfg, s.index.cells, s.random, key)
    case Some(i) =>
      Some(EntryValue(s.data, s.index.cells[i].payload))
    case None => None
  }

  function Get<T>(m: map<Pubkey, Value<T>>, key: Pubkey): Option<Value<T>> {
    if key in m then Some(m[key]) else None
  }

  /** Reading a key from a bucket is looking it up in the map the bucket represents. */
  lemma ReadIsLookup<T>(cfg: Config<T>, s: Shard<T>, m: map<Pubkey, Value<T>>, key: Pubkey)
    requires Inv(cfg, s) && Represents(s, m)
    ensures ReadValue(cfg, s, key) == Get(m, key)
  {
    FindEntryComplete(cfg, s.index, s.random, key);
    match FindEntry(cfg, s.index.cells, s.random, key)
    case Some(i) => assert EntryMatches(s.data, s.index.cells[i].payload, m);
    case None => 
  }

  // ---------- single changes ----------

  function SetEntry<T>(s: Shard<T>, i: nat, e: Entry): Shard<T>
    requires i < |s.index.cells|
  {
    s.(index := s.index.(cells := s.index.cells[i := s.index.cells[i].(payload := e)]))
  }

  function CreateEntry<T>(s: Shard<T>, i: nat, uid: nat, key: Pubkey): Shard<T>
    requires i < |s.index.cells|
  {
    s.(index := s.index.(cells := s.index.cells[i := Cell(uid, InitEntry(key))], count := s.index.count + 1))
  }

  function SetCell<T>(data: seq<DataStorage<T>>, b: nat, loc: nat, c: Cell<seq<T>>, count: nat): seq<DataStorage<T>>
    requires b < |data| && loc < |data[b].cells|
  {
    data[b := data[b].(cells := data[b].cells[loc := c], count := count)]
  }

  /** Overwriting the first elements of a cell. */
  function Overwrite<T>(was: seq<T>, slots: seq<T>): (r: seq<T>)
    requires |slots| <= |was|
    ensures |r| == |was| && r[..|slots|] == slots
  {
    slots + was[|slots|..]
  }

  /** The cell of an entry is unlocked and the entry becomes empty. */
  function Release<T>(s: Shard<T>, i: nat): Shard<T>
    requires i < |s.index.cells|
    requires var e := s.index.cells[i].payload;
             && SizeClass(e.numSlots) < |s.data| && e.capPow <= s.data[SizeClass(e.numSlots)].pow2
             && (e.numSlots > 0 ==>
                   var (b, loc) := Place(s.data, e); loc < |s.data[b].cells| && s.data[b].count >= 1)
  {
    var e := s.index.cells[i].payload;
    var s' := SetEntry(s, i, e.(offset := 0, capPow := 0, numSlots := 0));
    if e.numSlots > 0 then
      var (b, loc) := Place(s.data, e);
      var c := s.data[b].cells[loc];
      s'.(data := SetCell(s.data, b, loc, c.(lock := UID_UNLOCKED), s.data[b].count - 1))
    else s'
  }

  /** The entry at i gets the free cell `ix` of storage b for its new slots. */
  function Claim<T>(s: Shard<T>, i: nat, b: nat, ix: nat, slots: seq<T>): Shard<T>
    requires i < |s.index.cells| && b < |s.data| && ix < |s.data[b].cells|
    requires |slots| <= |s.data[b].cells[ix].payload|
  {
    var cell := s.index.cells[i];
    var s' := SetEntry(s, i, cell.payload.(offset := ix, capPow := s.data[b].pow2, numSlots := |slots|));
    if |slots| > 0 then
      var c := s.data[b].cells[ix];
      s'.(data := SetCell(s.data, b, ix, Cell(cell.lock, Overwrite(c.payload, slots)), s.data[b].count + 1))
    else s'
  }

  // ---------- frames ----------

  /** Changing one data cell keeps the storages in shape when the count follows. */
  lemma SetCellKeepsData<T>(data: seq<DataStorage<T>>, b: nat, loc: nat, c: Cell<seq<T>>, count: nat)
    requires DataOk(data) && b < |data| && loc < |data[b].cells|
    requires |c.payload| == |data[b].cells[loc].payload|
    requires count == data[b].count - (if data[b].cells[loc].lock != UID_UNLOCKED then 1 else 0)
                                    + (if c.lock != UID_UNLOCKED then 1 else 0)
    ensures DataOk(SetCell(data, b, loc, c, count))
  {
    LockedSetUpdate(data[b].cells, loc, c);
    assert DataStorageOk(data[b], b);
    assert DataStorageOk(SetCell(data, b, loc, c, count)[b], b);
  }

  /** An entry that owns another cell is not affected by a change of this one. */
  lemma SetCellFrame<T>(data: seq<DataStorage<T>>, b: nat, loc: nat, c: Cell<seq<T>>, count: nat,
                        e: Entry, uid: nat)
    requires DataOk(data) && b < |data| && loc < |data[b].cells|
    requires EntryOk(data, e, uid)
    requires e.numSlots > 0 ==> Place(data, e) != (b, loc)
    ensures var data' := SetCell(data, b, loc, c, count);
            && EntryOk(data', e, uid)
            && Place(data', e) == Place(data, e)
            && Readable(data, e) && Readable(data', e) && EntryValue(data', e) == EntryValue(data, e)
  {
    EntryReadable(data, e, uid);
  }

  /** Entries keep apart as long as capacities do not change. */
  lemma SetCellKeepsApart<T>(data: seq<DataStorage<T>>, b: nat, loc: nat, c: Cell<seq<T>>, count: nat,
                             e: Entry, f: Entry)
    requires b < |data| && loc < |data[b].cells|
    requires Apart(data, e, f)
    ensures Apart(SetCell(data, b, loc, c, count), e, f)
  {
  }

  // ---------- single changes keep the invariant ----------

  /** The part of the index invariant that a change of non-key fields cannot touch. */
  lemma SetEntryKeepsIndex<T>(cfg: Config<T>, s: Shard<T>, i: nat, e: Entry)
    requires Inv(cfg, s) && Locked(s.index.cells, i) && e.key == s.index.cells[i].payload.key
    ensures IndexOk(cfg, SetEntry(s, i, e).index, s.random)
  {
    var cells := s.index.cells;
    LockedSetUpdate(cells, i, cells[i].(payload := e));
    var cells' := SetEntry(s, i, e).index.cells;
    forall j | 0 <= j < |cells'| && cells'[j].lock != UID_UNLOCKED
      ensures CellInWindow(cfg, cells', s.random, j)
    {
      assert CellInWindow(cfg, cells, s.random, j);
    }
  }

  lemma SetEntryKeepsKeys(cells: seq<Cell<Entry>>, i: nat, e: Entry, k: Pubkey)
    requires Locked(cells, i) && e.key == cells[i].payload.key
    ensures HasKey(cells[i := cells[i].(payload := e)], k) == HasKey(cells, k)
  {
    var cells' := cells[i := cells[i].(payload := e)];
    if HasKey(cells, k) {
      var j :| 0 <= j < |cells| && cells[j].lock != UID_UNLOCKED && cells[j].payload.key == k;
      assert cells'[j].lock != UID_UNLOCKED && cells'[j].payload.key == k;
    }
    if HasKey(cells', k) {
      var j :| 0 <= j < |cells'| && cells'[j].lock != UID_UNLOCKED && cells'[j].payload.key == k;
      assert cells[j].lock != UID_UNLOCKED && cells[j].payload.key == k;
    }
  }

  /**
   * The general change of one entry: the entry at i becomes e, the data becomes
   * data', and every other entry still has its cell and its value. Then the
   * invariant holds again and the map changes at one key.
   */
  lemma ChangeOne<T>(cfg: Config<T>, s: Shard<T>, m: map<Pubkey, Value<T>>, i: nat, e: Entry,
                     data': seq<DataStorage<T>>)
    requires Inv(cfg, s) && Represents(s, m)
    requires Locked(s.index.cells, i) && e.key == s.index.cells[i].payload.key
    requires DataOk(data') && EntryOk(data', e, s.index.cells[i].lock)
    requires forall j :: Locked(s.index.cells, j) && j != i ==>
      && EntryOk(data', s.index.cells[j].payload, s.index.cells[j].lock)
      && EntryMatches(data', s.index.cells[j].payload, m)
      && Apart(data', s.index.cells[j].payload, e)
    requires forall j, k :: Locked(s.index.cells, j) && Locked(s.index.cells, k) && j != i && k != i && j != k ==>
      Apart(data', s.index.cells[j].payload, s.index.cells[k].payload)
    ensures var s' := SetEntry(s, i, e).(data := data');
            && Readable(data', e)
            && Inv(cfg, s')
            && Represents(s', m[e.key := EntryValue(data', e)])
  {
    hide WindowsOk, KeysUnique, EntryOk, Apart, Readable, EntryValue, HasKey;
    var cells := s.index.cells;
    EntryReadable(data', e, cells[i].lock);
    SetEntryKeepsIndex(cfg, s, i, e);
    ChangeOneEntries(s, i, e, data');
    ChangeOneRepresents(s, m, i, e, data');
  }

  lemma ChangeOneEntries<T>(s: Shard<T>, i: nat, e: Entry, data': seq<DataStorage<T>>)
    requires Locked(s.index.cells, i) && EntryOk(data', e, s.index.cells[i].lock)
    requires forall j :: Locked(s.index.cells, j) && j != i ==>
      && EntryOk(data', s.index.cells[j].payload, s.index.cells[j].lock)
      && Apart(data', s.index.cells[j].payload, e)
    requires forall j, k :: Locked(s.index.cells, j) && Locked(s.index.cells, k) && j != i && k != i && j != k ==>
      Apart(data', s.index.cells[j].payload, s.index.cells[k].payload)
    ensures EntriesOk(SetEntry(s, i, e).index.cells, data') && OwnersApart(SetEntry(s, i, e).index.cells, data')
  {
    hide EntryOk;
    var cells, cells' := s.index.cells, SetEntry(s, i, e).index.cells;
    forall j | 0 <= j < |cells'| && cells'[j].lock != UID_UNLOCKED
      ensures EntryOk(data', cells'[j].payload, cells'[j].lock)
    {
      assert Locked(cells, j);
    }
    forall j, k | 0 <= j < |cells'| && 0 <= k < |cells'| && j != k
               && cells'[j].lock != UID_UNLOCKED && cells'[k].lock != UID_UNLOCKED
      ensures Apart(data', cells'[j].payload, cells'[k].payload)
    {
      assert Locked(cells, j) && Locked(cells, k);
    }
  }

  lemma ChangeOneRepresents<T>(s: Shard<T>, m: map<Pubkey, Value<T>>, i: nat, e: Entry, data': seq<DataStorage<T>>)
    requires KeysUnique(s.index.cells) && Represents(s, m)
    requires Locked(s.index.cells, i) && e.key == s.index.cells[i].payload.key && Readable(data', e)
    requires forall j :: Locked(s.index.cells, j) && j != i ==> EntryMatches(data', s.index.cells[j].payload, m)
    ensures Represents(SetEntry(s, i, e).(data := data'), m[e.key := EntryValue(data', e)])
  {
    hide EntryValue, Readable;
    var cells, cells' := s.index.cells, SetEntry(s, i, e).index.cells;
    var m' := m[e.key := EntryValue(data', e)];
    forall j | 0 <= j < |cells'| && cells'[j].lock != UID_UNLOCKED
      ensures EntryMatches(data', cells'[j].payload, m')
    {
      assert Locked(cells, j);
    }
    forall k | k in m'
      ensures HasKey(cells', k)
    {
      SetEntryKeepsKeys(cells, i, e, k);
    }
  }

  /** Turns the change of one data cell into the premises of ChangeOne for the other entries. */
  lemma OthersUnaffected<T>(cfg: Config<T>, s: Shard<T>, m: map<Pubkey, Value<T>>, i: nat,
                            b: nat, loc: nat, c: Cell<seq<T>>, count: nat)
    requires Inv(cfg, s) && Represents(s, m)
    requires Locked(s.index.cells, i) && b < |s.data| && loc < |s.data[b].cells|
    requires forall j :: Locked(s.index.cells, j) && j != i && s.index.cells[j].payload.numSlots > 0 ==>
      Placeable(s.data, s.index.cells[j].payload) && Place(s.data, s.index.cells[j].payload) != (b, loc)
    ensures var data' := SetCell(s.data, b, loc, c, count);
            && (forall j :: Locked(s.index.cells, j) && j != i ==>
                  && EntryOk(data', s.index.cells[j].payload, s.index.cells[j].lock)
                  && EntryMatches(data', s.index.cells[j].payload, m))
            && (forall j, k :: Locked(s.index.cells, j) && Locked(s.index.cells, k) && j != k ==>
                  Apart(data', s.index.cells[j].payload, s.index.cells[k].payload))
  {
    var cells := s.index.cells;
    var data' := SetCell(s.data, b, loc, c, count);
    forall j | Locked(cells, j) && j != i
      ensures EntryOk(data', cells[j].payload, cells[j].lock)
      ensures EntryMatches(data', cells[j].payload, m)
    {
      SetCellFrame(s.data, b, loc, c, count, cells[j].payload, cells[j].lock);
    }
    forall j, k | Locked(cells, j) && Locked(cells, k) && j != k
      ensures Apart(data', cells[j].payload, cells[k].payload)
    {
      SetCellKeepsApart(s.data, b, loc, c, count, cells[j].payload, cells[k].payload);
    }
  }

  /** No other entry owns the cell of the entry at i. */
  lemma OthersElsewhere<T>(cfg: Config<T>, s: Shard<T>, i: nat)
    requires Inv(cfg, s) && Locked(s.index.cells, i) && s.index.cells[i].payload.numSlots > 0
    ensures Placeable(s.data, s.index.cells[i].payload)
    ensures forall j :: Locked(s.index.cells, j) && j != i && s.index.cells[j].payload.numSlots > 0 ==>
      && Placeable(s.data, s.index.cells[j].payload)
      && Place(s.data, s.index.cells[j].payload) != Place(s.data, s.index.cells[i].payload)
  {
    assert EntryOk(s.data, s.index.cells[i].payload, s.index.cells[i].lock);
    forall j | Locked(s.index.cells, j) && j != i && s.index.cells[j].payload.numSlots > 0
      ensures Placeable(s.data, s.index.cells[j].payload)
      ensures Place(s.data, s.index.cells[j].payload) != Place(s.data, s.index.cells[i].payload)
    {
      assert EntryOk(s.data, s.index.cells[j].payload, s.index.cells[j].lock);
      assert Apart(s.data, s.index.cells[j].payload, s.index.cells[i].payload);
    }
  }

  lemma CreateEntryKeepsIndex<T>(cfg: Config<T>, s: Shard<T>, i: nat, key: Pubkey)
    requires IndexOk(cfg, s.index, s.random)
    requires i < |s.index.cells| && s.index.cells[i].lock == UID_UNLOCKED
    requires Offset(Home(cfg, key, s.random, |s.index.cells|), i, |s.index.cells|) < cfg.maxSearch
    requires !HasKey(s.index.cells, key)
    ensures IndexOk(cfg, CreateEntry(s, i, KeyUid(cfg, key), key).index, s.random)
  {
    hide HasKey;
    var cells, cells' := s.index.cells, CreateEntry(s, i, KeyUid(cfg, key), key).index.cells;
    LockedSetUpdate(cells, i, cells'[i]);
    forall j | 0 <= j < |cells'| && cells'[j].lock != UID_UNLOCKED
      ensures CellInWindow(cfg, cells', s.random, j)
      ensures j != i ==> cells'[j].payload.key != key
    {
      if j != i {
        assert CellInWindow(cfg, cells, s.random, j);
        LockedHasKey(cells, j);
      }
    }
  }

  lemma LockedHasKey(cells: seq<Cell<Entry>>, i: nat)
    requires Locked(cells, i)
    ensures HasKey(cells, cells[i].payload.key)
  {
  }

  /** An empty entry owns nothing, so it is good beside all others. */
  lemma CreateEntryKeepsData<T>(cfg: Config<T>, s: Shard<T>, i: nat, key: Pubkey)
    requires Inv(cfg, s) && |s.data| > 0 && i < |s.index.cells| && s.index.cells[i].lock == UID_UNLOCKED
    ensures var cells' := CreateEntry(s, i, KeyUid(cfg, key), key).index.cells;
            EntriesOk(cells', s.data) && OwnersApart(cells', s.data)
  {
    hide IndexOk;
    InvData(cfg, s, 0);
    var cells' := CreateEntry(s, i, KeyUid(cfg, key), key).index.cells;
    forall j | 0 <= j < |cells'| && cells'[j].lock != UID_UNLOCKED
      ensures EntryOk(s.data, cells'[j].payload, cells'[j].lock)
    {
      if j != i { assert EntryOk(s.data, s.index.cells[j].payload, s.index.cells[j].lock); }
    }
  }

  lemma CreateEntryRepresents<T>(s: Shard<T>, m: map<Pubkey, Value<T>>, i: nat, uid: nat, key: Pubkey)
    requires Represents(s, m) && uid != UID_UNLOCKED
    requires i < |s.index.cells| && s.index.cells[i].lock == UID_UNLOCKED && !HasKey(s.index.cells, key)
    ensures Represents(CreateEntry(s, i, uid, key), m[key := Value([], 0)])
  {
    var cells, cells' := s.index.cells, CreateEntry(s, i, uid, key).index.cells;
    forall j | 0 <= j < |cells'| && cells'[j].lock != UID_UNLOCKED
      ensures EntryMatches(s.data, cells'[j].payload, m[key := Value([], 0)])
    {
      if j != i {
        LockedHasKey(cells, j);
        assert EntryMatches(s.data, cells[j].payload, m);
      }
    }
    forall k | k in m[key := Value([], 0)]
      ensures HasKey(cells', k)
    {
      if k == key {
        assert cells'[i].lock != UID_UNLOCKED && cells'[i].payload.key == k;
      } else {
        var j :| 0 <= j < |cells| && cells[j].lock != UID_UNLOCKED && cells[j].payload.key == k;
        assert cells'[j].lock != UID_UNLOCKED && cells'[j].payload.key == k;
      }
    }
  }

  /** A new key gets an empty slot list and ref count 0. */
  lemma CreateEntryStep<T>(cfg: Config<T>, s: Shard<T>, m: map<Pubkey, Value<T>>, i: nat, key: Pubkey)
    requires Inv(cfg, s) && Represents(s, m) && |s.data| > 0
    requires i < |s.index.cells| && s.index.cells[i].lock == UID_UNLOCKED
    requires Offset(Home(cfg, key, s.random, |s.index.cells|), i, |s.index.cells|) < cfg.maxSearch
    requires !HasKey(s.index.cells, key)
    ensures var s' := CreateEntry(s, i, KeyUid(cfg, key), key);
            && Inv(cfg, s')
            && Represents(s', m[key := Value([], 0)])
  {
    hide IndexOk, DataOk, EntriesOk, OwnersApart, Represents, HasKey;
    CreateEntryKeepsIndex(cfg, s, i, key);
    CreateEntryKeepsData(cfg, s, i, key);
    CreateEntryRepresents(s, m, i, KeyUid(cfg, key), key);
  }

  /** What ChangeOne asks about the other entries holds when the data stays. */
  lemma SameDataOthers<T>(cfg: Config<T>, s: Shard<T>, m: map<Pubkey, Value<T>>, i: nat)
    requires Inv(cfg, s) && Represents(s, m) && Locked(s.index.cells, i)
    ensures DataOk(s.data)
    ensures forall j :: Locked(s.index.cells, j) && j != i ==>
      && EntryOk(s.data, s.index.cells[j].payload, s.index.cells[j].lock)
      && EntryMatches(s.data, s.index.cells[j].payload, m)
      && Apart(s.data, s.index.cells[j].payload, s.index.cells[i].payload)
    ensures forall j, k :: Locked(s.index.cells, j) && Locked(s.index.cells, k) && j != i && k != i && j != k ==>
      Apart(s.data, s.index.cells[j].payload, s.index.cells[k].payload)
  {
    hide IndexOk, DataOk, EntryOk, EntryMatches, Apart;
  }

  lemma RefCountKeepsEntry<T>(data: seq<DataStorage<T>>, e: Entry, m: map<Pubkey, Value<T>>, uid: nat, refCount: nat)
    requires EntryOk(data, e, uid) && EntryMatches(data, e, m)
    ensures var e' := e.(refCount := refCount);
            && EntryOk(data, e', uid) && e.key in m
            && Readable(data, e') && EntryValue(data, e') == m[e.key].(refCount := refCount)
  {
  }

  lemma SetRefCountStep<T>(cfg: Config<T>, s: Shard<T>, m: map<Pubkey, Value<T>>, i: nat, refCount: nat)
    requires Inv(cfg, s) && Represents(s, m) && Locked(s.index.cells, i)
    ensures var e := s.index.cells[i].payload;
            var s' := SetEntry(s, i, e.(refCount := refCount));
            && Inv(cfg, s')
            && e.key in m
            && Represents(s', m[e.key := m[e.key].(refCount := refCount)])
  {
    hide Inv, Represents, EntryMatches;
    var e := s.index.cells[i].payload;
    RepresentsAt(s, m, i);
    InvEntry(cfg, s, i);
    RefCountKeepsEntry(s.data, e, m, s.index.cells[i].lock, refCount);
    SameDataOthers(cfg, s, m, i);
    forall j | Locked(s.index.cells, j) && j != i
      ensures Apart(s.data, s.index.cells[j].payload, e.(refCount := refCount))
    {
      assert Apart(s.data, s.index.cells[j].payload, e);
    }
    ChangeOne(cfg, s, m, i, e.(refCount := refCount), s.data);
  }

  /** Writing slots into the cell the entry already owns. */
  function UpdateInPlace<T>(s: Shard<T>, i: nat, slots: seq<T>): Shard<T>
    requires i < |s.index.cells|
    requires var e := s.index.cells[i].payload;
             && SizeClass(e.numSlots) < |s.data| && e.capPow <= s.data[SizeClass(e.numSlots)].pow2
             && var (b, loc) := Place(s.data, e);
                loc < |s.data[b].cells| && |slots| <= |s.data[b].cells[loc].payload|
  {
    var e := s.index.cells[i].payload;
    var (b, loc) := Place(s.data, e);
    var c := s.data[b].cells[loc];
    SetEntry(s, i, e.(numSlots := |slots|)).(
      data := SetCell(s.data, b, loc, c.(payload := Overwrite(c.payload, slots)), s.data[b].count))
  }

  lemma UpdateInPlaceStep<T>(cfg: Config<T>, s: Shard<T>, m: map<Pubkey, Value<T>>, i: nat, slots: seq<T>)
    requires Inv(cfg, s) && Represents(s, m) && Locked(s.index.cells, i)
    requires s.index.cells[i].payload.numSlots > 0
    requires SizeClass(|slots|) == SizeClass(s.index.cells[i].payload.numSlots)
    ensures Placeable(s.data, s.index.cells[i].payload)
    ensures var e := s.index.cells[i].payload;
            var (b, loc) := Place(s.data, e);
            && loc < |s.data[b].cells| && |slots| <= |s.data[b].cells[loc].payload|
            && s.data[b].cells[loc].lock == s.index.cells[i].lock
            && Inv(cfg, UpdateInPlace(s, i, slots))
            && Represents(UpdateInPlace(s, i, slots), m[e.key := Value(slots, e.refCount)])
  {
    hide Inv, Represents;
    var e := s.index.cells[i].payload;
    InvEntry(cfg, s, i);
    var (b, loc) := Place(s.data, e);
    InvData(cfg, s, b);
    SizeClassFits(|slots|);
    var c := s.data[b].cells[loc];
    var c' := c.(payload := Overwrite(c.payload, slots));
    var e' := e.(numSlots := |slots|);
    var data' := SetCell(s.data, b, loc, c', s.data[b].count);
    SetCellKeepsData(s.data, b, loc, c', s.data[b].count);
    OthersElsewhere(cfg, s, i);
    OthersUnaffected(cfg, s, m, i, b, loc, c', s.data[b].count);
    forall j | Locked(s.index.cells, j) && j != i
      ensures Apart(data', s.index.cells[j].payload, e')
    {
      assert Apart(data', s.index.cells[j].payload, e);
    }
    ChangeOne(cfg, s, m, i, e', data');
  }

  /** Releasing the cell of an entry empties its slot list. */
  lemma ReleaseStep<T>(cfg: Config<T>, s: Shard<T>, m: map<Pubkey, Value<T>>, i: nat)
    requires Inv(cfg, s) && Represents(s, m) && Locked(s.index.cells, i)
    ensures var e := s.index.cells[i].payload;
            && Placeable(s.data, e)
            && (e.numSlots > 0 ==>
                  var (b, loc) := Place(s.data, e);
                  && loc < |s.data[b].cells| && s.data[b].count >= 1
                  && s.data[b].cells[loc].lock == s.index.cells[i].lock)
            && Inv(cfg, Release(s, i))
            && Represents(Release(s, i), m[e.key := Value([], e.refCount)])
  {
    hide Inv, Represents;
    var e := s.index.cells[i].payload;
    var e' := e.(offset := 0, capPow := 0, numSlots := 0);
    InvEntry(cfg, s, i);
    InvData(cfg, s, SizeClass(e.numSlots));
    if e.numSlots > 0 {
      var (b, loc) := Place(s.data, e);
      assert s.index.cells[i].lock == s.data[b].cells[loc].lock;
      assert loc in LockedSet(s.data[b].cells);
      var c' := s.data[b].cells[loc].(lock := UID_UNLOCKED);
      SetCellKeepsData(s.data, b, loc, c', s.data[b].count - 1);
      OthersElsewhere(cfg, s, i);
      OthersUnaffected(cfg, s, m, i, b, loc, c', s.data[b].count - 1);
      ChangeOne(cfg, s, m, i, e', SetCell(s.data, b, loc, c', s.data[b].count - 1));
    } else {
      ReleaseNothing(cfg, s, m, i);
    }
  }

  lemma ReleaseNothing<T>(cfg: Config<T>, s: Shard<T>, m: map<Pubkey, Value<T>>, i: nat)
    requires Inv(cfg, s) && Represents(s, m) && Locked(s.index.cells, i)
    requires s.index.cells[i].payload.numSlots == 0 && Placeable(s.data, s.index.cells[i].payload)
    ensures var e := s.index.cells[i].payload;
            && Inv(cfg, Release(s, i))
            && Represents(Release(s, i), m[e.key := Value([], e.refCount)])
  {
    InvEntry(cfg, s, i);
    ChangeOne(cfg, s, m, i, s.index.cells[i].payload.(offset := 0, capPow := 0, numSlots := 0), s.data);
  }

  /** Claiming a free cell for an entry that owns none gives it the new slots. */
  lemma ClaimStep<T>(cfg: Config<T>, s: Shard<T>, m: map<Pubkey, Value<T>>, i: nat, ix: nat, slots: seq<T>)
    requires Inv(cfg, s) && Represents(s, m) && Locked(s.index.cells, i)
    requires s.index.cells[i].payload.numSlots == 0
    requires var b := SizeClass(|slots|);
             b < |s.data| && ix < |s.data[b].cells| && s.data[b].cells[ix].lock == UID_UNLOCKED
    ensures var b := SizeClass(|slots|);
            var e := s.index.cells[i].payload;
            && |slots| <= |s.data[b].cells[ix].payload|
            && Inv(cfg, Claim(s, i, b, ix, slots))
            && Represents(Claim(s, i, b, ix, slots), m[e.key := Value(slots, e.refCount)])
  {
    var b := SizeClass(|slots|);
    var e := s.index.cells[i].payload;
    var uid := s.index.cells[i].lock;
    assert CellInWindow(cfg, s.index.cells, s.random, i);
    assert DataStorageOk(s.data[b], b);
    SizeClassFits(|slots|);
    var e' := e.(offset := ix, capPow := s.data[b].pow2, numSlots := |slots|);
    assert DataLoc(e', s.data[b].pow2) == ix by { assert Pow2(0) == 1; }
    if |slots| > 0 {
      var c' := Cell(uid, Overwrite(s.data[b].cells[ix].payload, slots));
      SetCellKeepsData(s.data, b, ix, c', s.data[b].count + 1);
      forall j | Locked(s.index.cells, j) && j != i && s.index.cells[j].payload.numSlots > 0
        ensures Placeable(s.data, s.index.cells[j].payload) && Place(s.data, s.index.cells[j].payload) != (b, ix)
      {
        assert EntryOk(s.data, s.index.cells[j].payload, s.index.cells[j].lock);
      }
      OthersUnaffected(cfg, s, m, i, b, ix, c', s.data[b].count + 1);
      ChangeOne(cfg, s, m, i, e', SetCell(s.data, b, ix, c', s.data[b].count + 1));
    } else {
      ChangeOne(cfg, s, m, i, e', s.data);
    }
  }

  /**
   * A move in the order in which a bucket does it: the entry is redirected first, then
   * its old cell is freed, then the new cell is locked and filled.
   */
  function Move<T>(s: Shard<T>, i: nat, b: nat, ix: nat, slots: seq<T>): Shard<T>
    requires i < |s.index.cells| && b < |s.data| && ix < |s.data[b].cells|
    requires |slots| <= |s.data[b].cells[ix].payload|
    requires var e := s.index.cells[i].payload;
             && SizeClass(e.numSlots) < |s.data| && e.capPow <= s.data[SizeClass(e.numSlots)].pow2
             && (e.numSlots > 0 ==>
                   var (c, loc) := Place(s.data, e); c != b && loc < |s.data[c].cells| && s.data[c].count >= 1)
  {
    var Cell(uid, e) := s.index.cells[i];
    var s1 := SetEntry(s, i, e.(offset := ix, capPow := s.data[b].pow2, numSlots := |slots|));
    var s2 :=
      if e.numSlots > 0 then
        var (c, loc) := Place(s.data, e);
        s1.(data := SetCell(s1.data, c, loc, s.data[c].cells[loc].(lock := UID_UNLOCKED), s1.data[c].count - 1))
      else s1;
    if |slots| > 0 then
      s2.(data := SetCell(s2.data, b, ix, Cell(uid, Overwrite(s2.data[b].cells[ix].payload, slots)),
                          s2.data[b].count + 1))
    else s2
  }

  /** The order does not matter: releasing the old cell and then claiming the new one ends the same. */
  lemma MoveIsReleaseThenClaim<T>(s: Shard<T>, i: nat, b: nat, ix: nat, slots: seq<T>)
    requires i < |s.index.cells| && b < |s.data| && ix < |s.data[b].cells|
    requires |slots| <= |s.data[b].cells[ix].payload|
    requires var e := s.index.cells[i].payload;
             && SizeClass(e.numSlots) < |s.data| && e.capPow <= s.data[SizeClass(e.numSlots)].pow2
             && (e.numSlots > 0 ==>
                   var (c, loc) := Place(s.data, e); c != b && loc < |s.data[c].cells| && s.data[c].count >= 1)
    ensures Move(s, i, b, ix, slots) == Claim(Release(s, i), i, b, ix, slots)
  {
    var m, r := Move(s, i, b, ix, slots), Claim(Release(s, i), i, b, ix, slots);
    assert m.index.cells == r.index.cells;
    assert m.data == r.data;
  }

  /** The index cell i is unlocked, with whatever bytes e it keeps. */
  function DropCell<T>(s: Shard<T>, i: nat, e: Entry): Shard<T>
    requires i < |s.index.cells| && s.index.count >= 1
  {
    s.(index := s.index.(
      cells := s.index.cells[i := Cell(UID_UNLOCKED, e)],
      count := s.index.count - 1))
  }

  lemma DropCellKeepsIndex<T>(cfg: Config<T>, s: Shard<T>, i: nat, e: Entry)
    requires IndexOk(cfg, s.index, s.random) && Locked(s.index.cells, i)
    ensures s.index.count >= 1
    ensures IndexOk(cfg, DropCell(s, i, e).index, s.random)
  {
    assert i in LockedSet(s.index.cells);
    LockedSetUpdate(s.index.cells, i, Cell(UID_UNLOCKED, e));
    var cells' := DropCell(s, i, e).index.cells;
    forall j | 0 <= j < |cells'| && cells'[j].lock != UID_UNLOCKED
      ensures CellInWindow(cfg, cells', s.random, j)
    {
      assert CellInWindow(cfg, s.index.cells, s.random, j);
    }
  }

  lemma DropCellStep<T>(cfg: Config<T>, s: Shard<T>, m: map<Pubkey, Value<T>>, i: nat, e: Entry)
    requires Inv(cfg, s) && Represents(s, m) && Locked(s.index.cells, i)
    ensures s.index.count >= 1
    ensures Inv(cfg, DropCell(s, i, e))
    ensures Represents(DropCell(s, i, e), m - {s.index.cells[i].payload.key})
  {
    hide EntryOk, Apart;
    DropCellKeepsIndex(cfg, s, i, e);
    var cells, cells' := s.index.cells, DropCell(s, i, e).index.cells;
    var m' := m - {cells[i].payload.key};
    forall j | 0 <= j < |cells'| && cells'[j].lock != UID_UNLOCKED
      ensures EntryMatches(s.data, cells'[j].payload, m')
    {
      assert EntryMatches(s.data, cells[j].payload, m);
    }
    forall k | k in m'
      ensures HasKey(cells', k)
    {
      assert HasKey(cells, k);
      var j :| 0 <= j < |cells| && cells[j].lock != UID_UNLOCKED && cells[j].payload.key == k;
      assert cells'[j].lock != UID_UNLOCKED && cells'[j].payload.key == k;
    }
  }

  /** A key leaves the index and its data cell is unlocked. */
  function Remove<T>(s: Shard<T>, i: nat): Shard<T>
    requires i < |s.index.cells| && s.index.count >= 1
    requires var e := s.index.cells[i].payload;
             && SizeClass(e.numSlots) < |s.data| && e.capPow <= s.data[SizeClass(e.numSlots)].pow2
             && (e.numSlots > 0 ==>
                   var (b, loc) := Place(s.data, e); loc < |s.data[b].cells| && s.data[b].count >= 1)
  {
    DropCell(Release(s, i), i, s.index.cells[i].payload)
  }

  /** A removal in the order in which a bucket does it: data cell first, then index cell. */
  lemma RemoveInOrder<T>(s: Shard<T>, i: nat)
    requires i < |s.index.cells| && s.index.count >= 1
    requires var e := s.index.cells[i].payload;
             && SizeClass(e.numSlots) < |s.data| && e.capPow <= s.data[SizeClass(e.numSlots)].pow2
             && (e.numSlots > 0 ==>
                   var (b, loc) := Place(s.data, e); loc < |s.data[b].cells| && s.data[b].count >= 1)
    ensures var e := s.index.cells[i].payload;
            var s1 :=
              if e.numSlots > 0 then
                var (b, loc) := Place(s.data, e);
                s.(data := SetCell(s.data, b, loc, s.data[b].cells[loc].(lock := UID_UNLOCKED), s.data[b].count - 1))
              else s;
            DropCell(s1, i, e) == Remove(s, i)
  {
    var e := s.index.cells[i].payload;
    assert s.index.cells[i := Cell(UID_UNLOCKED, e)] == Remove(s, i).index.cells;
  }

  lemma RemoveStep<T>(cfg: Config<T>, s: Shard<T>, m: map<Pubkey, Value<T>>, i: nat)
    requires Inv(cfg, s) && Represents(s, m) && Locked(s.index.cells, i)
    ensures var e := s.index.cells[i].payload;
            && s.index.count >= 1
            && Placeable(s.data, e)
            && (e.numSlots > 0 ==>
                  var (b, loc) := Place(s.data, e);
                  && loc < |s.data[b].cells| && s.data[b].count >= 1
                  && s.data[b].cells[loc].lock == s.index.cells[i].lock)
            && Inv(cfg, Remove(s, i))
            && Represents(Remove(s, i), m - {e.key})
  {
    hide Inv, Represents, Place;
    ReleaseStep(cfg, s, m, i);
    var e := s.index.cells[i].payload;
    var m1 := m[e.key := Value([], e.refCount)];
    DropCellStep(cfg, Release(s, i), m1, i, e);
    assert m1 - {e.key} == m - {e.key};
  }
}
