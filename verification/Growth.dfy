/** Growing an index or a data storage, and installing the result. */
module Growth {
  import opened Powers
  import opened Storage
  import opened IndexEntry
  import opened Shard
  import opened ShardOps

  // ---------- data storages ----------

  function NewStorage<T>(cfg: Config<T>, b: nat, pow2: nat): DataStorage<T> {
    Storage(pow2, EmptyCells(pow2, ZeroCell(cfg, b)), 0)
  }

  function Resized<T>(cfg: Config<T>, d: DataStorage<T>, b: nat, pow2: nat): DataStorage<T>
    requires d.pow2 <= pow2
  {
    Storage(pow2, Spread(d.cells, pow2 - d.pow2, ZeroCell(cfg, b)), d.count)
  }

  function GrownPow2(pow2: nat): nat {
    if pow2 + 1 >= DEFAULT_CAPACITY_POW2 then pow2 + 1 else DEFAULT_CAPACITY_POW2
  }

  /** The size reported with the error is not stale by more than one doubling. */
  predicate CanGrowData<T>(data: seq<DataStorage<T>>, b: nat, pow2: nat) {
    b < |data| ==> data[b].pow2 <= GrownPow2(pow2)
  }

  /** What the source computes as the number of doublings, from capacities of storages of size class b. */
  function Increment<T>(data: seq<DataStorage<T>>, b: nat, pow2: nat): int
    requires b < |data|
  {
    GrownPow2(pow2) - data[b].pow2
  }

  /**
   * The subtraction stays in range exactly when the storage has been doubled at most
   * once since its size was reported, or is new where none was reported.
   */
  lemma ResizeDefinedIff<T>(data: seq<DataStorage<T>>, b: nat, pow2: nat, doublings: nat)
    requires b < |data| && (pow2 == 0 || pow2 >= DEFAULT_CAPACITY_POW2)
    requires data[b].pow2 == (if pow2 == 0 then DEFAULT_CAPACITY_POW2 else pow2) + doublings
    ensures CanGrowData(data, b, pow2) <==> Increment(data, b, pow2) >= 0
    ensures Increment(data, b, pow2) >= 0 <==> doublings <= if pow2 == 0 then 0 else 1
  {
  }

  function GrowData<T>(cfg: Config<T>, data: seq<DataStorage<T>>, b: nat, pow2: nat): DataStorage<T>
    requires CanGrowData(data, b, pow2)
  {
    if b < |data| then Resized(cfg, data[b], b, GrownPow2(pow2))
    else NewStorage(cfg, b, GrownPow2(pow2))
  }

  /** Data storages with numbers from, from+1, .., to-1, all new. */
  function NewStorages<T>(cfg: Config<T>, from: nat, to: nat): (r: seq<DataStorage<T>>)
    requires from <= to
    ensures |r| == to - from
    ensures forall k :: 0 <= k < |r| ==> r[k] == NewStorage(cfg, from + k, DEFAULT_CAPACITY_POW2)
  {
    seq(to - from, k requires 0 <= k < to - from => NewStorage(cfg, from + k, DEFAULT_CAPACITY_POW2))
  }

  function InstallData<T>(cfg: Config<T>, data: seq<DataStorage<T>>, b: nat, d: DataStorage<T>): seq<DataStorage<T>> {
    if b < |data| then data[b := d]
    else data + NewStorages(cfg, |data|, b) + [d]
  }

  /** The storage is new: all its cells are free and have room for 2^b elements. */
  ghost predicate Fresh<T>(d: DataStorage<T>, b: nat, pow2: nat) {
    && d.pow2 == pow2 && |d.cells| == Pow2(pow2) && d.count == 0
    && forall i :: 0 <= i < |d.cells| ==> d.cells[i].lock == UID_UNLOCKED && |d.cells[i].payload| == Pow2(b)
  }

  /**
   * Installing a storage of size class b changes no other; those missing below it are added,
   * each new and of the least capacity.
   */
  lemma InstallDataIs<T>(cfg: Config<T>, data: seq<DataStorage<T>>, b: nat, d: DataStorage<T>)
    ensures var data' := InstallData(cfg, data, b, d);
            && |data'| == (if b < |data| then |data| else b + 1) && data'[b] == d
            && (forall c :: 0 <= c < |data| && c != b ==> data'[c] == data[c])
            && (forall c: nat :: |data| <= c < b ==> Fresh(data'[c], c, 5))
  {
    hide Pow2;
  }

  /** A missing storage is made with 32 cells or, where a size was reported, with twice that; an old one doubles. */
  lemma GrowDataIs<T>(cfg: Config<T>, data: seq<DataStorage<T>>, b: nat, pow2: nat)
    requires CanGrowData(data, b, pow2) && (pow2 == 0 || pow2 >= 5)
    ensures var d, p := GrowData(cfg, data, b, pow2), if pow2 == 0 then 5 else pow2 + 1;
            && (b >= |data| ==> Fresh(d, b, p))
            && (b < |data| ==>
                  && d.pow2 == p && d.count == data[b].count
                  && |d.cells| == |data[b].cells| * Pow2(p - data[b].pow2))
  {
    hide Pow2;
  }

  lemma NewStorageOk<T>(cfg: Config<T>, b: nat, pow2: nat)
    requires pow2 >= DEFAULT_CAPACITY_POW2
    ensures DataStorageOk(NewStorage(cfg, b, pow2), b)
  {
    EmptyHasNoLocked(pow2, ZeroCell(cfg, b));
  }

  lemma ResizedOk<T>(cfg: Config<T>, d: DataStorage<T>, b: nat, pow2: nat)
    requires DataStorageOk(d, b) && d.pow2 <= pow2
    ensures DataStorageOk(Resized(cfg, d, b, pow2), b)
  {
    SpreadCount(d.cells, pow2 - d.pow2, ZeroCell(cfg, b));
    Pow2Add(d.pow2, pow2 - d.pow2);
    SpreadPayload(d.cells, pow2 - d.pow2, ZeroCell(cfg, b), Pow2(b));
  }

  lemma SpreadPayload<T>(cells: seq<Cell<seq<T>>>, inc: nat, zero: seq<T>, n: nat)
    requires |zero| == n && forall i :: 0 <= i < |cells| ==> |cells[i].payload| == n
    ensures forall j :: 0 <= j < |Spread(cells, inc, zero)| ==> |Spread(cells, inc, zero)[j].payload| == n
  {
    forall j | 0 <= j < |Spread(cells, inc, zero)|
      ensures |Spread(cells, inc, zero)[j].payload| == n
    {
      DivBelow(j, |cells|, Pow2(inc));
    }
  }

  lemma GrowDataOk<T>(cfg: Config<T>, data: seq<DataStorage<T>>, b: nat, pow2: nat)
    requires DataOk(data) && CanGrowData(data, b, pow2)
    ensures DataStorageOk(GrowData(cfg, data, b, pow2), b)
  {
    if b < |data| {
      ResizedOk(cfg, data[b], b, GrownPow2(pow2));
    } else {
      NewStorageOk(cfg, b, GrownPow2(pow2));
    }
  }

  lemma InstallDataOk<T>(cfg: Config<T>, data: seq<DataStorage<T>>, b: nat, d: DataStorage<T>)
    requires DataOk(data) && DataStorageOk(d, b)
    ensures DataOk(InstallData(cfg, data, b, d))
  {
    var data' := InstallData(cfg, data, b, d);
    forall k | 0 <= k < |data'|
      ensures DataStorageOk(data'[k], k)
    {
      if |data| <= k < b {
        NewStorageOk(cfg, k, DEFAULT_CAPACITY_POW2);
      } else if k < |data| {
        assert DataStorageOk(data[k], k);
      }
    }
  }

  /** An entry keeps its cell and its value, unchanged itself, when a data storage is grown. */
  lemma EntrySurvivesGrow<T>(cfg: Config<T>, data: seq<DataStorage<T>>, b: nat, pow2: nat, e: Entry, uid: nat)
    requires DataOk(data) && CanGrowData(data, b, pow2) && EntryOk(data, e, uid)
    ensures var data' := InstallData(cfg, data, b, GrowData(cfg, data, b, pow2));
            && EntryOk(data', e, uid)
            && Readable(data, e) && Readable(data', e)
            && EntryValue(data', e) == EntryValue(data, e)
  {
    var data' := InstallData(cfg, data, b, GrowData(cfg, data, b, pow2));
    var c := SizeClass(e.numSlots);
    EntryReadable(data, e, uid);
    assert DataStorageOk(data[c], c);
    if c == b {
      if e.numSlots > 0 {
        DataLocAfterGrow(e, data[b].cells, data[b].pow2, GrownPow2(pow2), ZeroCell(cfg, b));
      }
    } else {
      assert data'[c] == data[c];
    }
  }

  lemma ApartSurvivesGrow<T>(cfg: Config<T>, data: seq<DataStorage<T>>, b: nat, pow2: nat, e: Entry, f: Entry)
    requires CanGrowData(data, b, pow2) && Placeable(data, e) && Placeable(data, f) && Apart(data, e, f)
    ensures Apart(InstallData(cfg, data, b, GrowData(cfg, data, b, pow2)), e, f)
  {
    if e.numSlots > 0 && f.numSlots > 0 && SizeClass(e.numSlots) == b == SizeClass(f.numSlots) {
      DataLocStaysDistinct(e, f, data[b].pow2, GrownPow2(pow2));
    }
  }

  /** Installing a grown data storage keeps the invariant and the map. */
  lemma InstallDataStep<T>(cfg: Config<T>, s: Shard<T>, m: map<Pubkey, Value<T>>, b: nat, pow2: nat)
    requires Inv(cfg, s) && Represents(s, m) && CanGrowData(s.data, b, pow2)
    ensures var s' := s.(data := InstallData(cfg, s.data, b, GrowData(cfg, s.data, b, pow2)));
            Inv(cfg, s') && Represents(s', m)
  {
    var data' := InstallData(cfg, s.data, b, GrowData(cfg, s.data, b, pow2));
    var cells := s.index.cells;
    GrowDataOk(cfg, s.data, b, pow2);
    InstallDataOk(cfg, s.data, b, GrowData(cfg, s.data, b, pow2));
    forall i | 0 <= i < |cells| && cells[i].lock != UID_UNLOCKED
      ensures EntryOk(data', cells[i].payload, cells[i].lock) && EntryMatches(data', cells[i].payload, m)
    {
      assert EntryMatches(s.data, cells[i].payload, m);
      EntrySurvivesGrow(cfg, s.data, b, pow2, cells[i].payload, cells[i].lock);
    }
    forall i, j | 0 <= i < |cells| && 0 <= j < |cells| && i != j
               && cells[i].lock != UID_UNLOCKED && cells[j].lock != UID_UNLOCKED
      ensures Apart(data', cells[i].payload, cells[j].payload)
    {
      assert EntryOk(s.data, cells[i].payload, cells[i].lock) && EntryOk(s.data, cells[j].payload, cells[j].lock);
      ApartSurvivesGrow(cfg, s.data, b, pow2, cells[i].payload, cells[j].payload);
    }
  }

  // ---------- the index ----------

  /** An index cell of a newly created file. */
  function ZeroEntry(): Entry {
    InitEntry(Pubkey(seq(32, _ => 0)))
  }

  /**
   * Copies the first n cells of an index into a new one with 2^pow2 cells and
   * another seed; fails when some key finds no free cell in its window.
   */
  function Rehash<T>(cfg: Config<T>, was: seq<Cell<Entry>>, n: nat, pow2: nat, random: nat)
    : (r: Option<seq<Cell<Entry>>>)
    requires n <= |was|
    ensures r.Some? ==> |r.value| == Pow2(pow2)
  {
    if n == 0 then Some(EmptyCells(pow2, ZeroEntry()))
    else
      match Rehash(cfg, was, n - 1, pow2, random)
      case None => None
      case Some(acc) =>
        var c := was[n - 1];
        if c.lock == UID_UNLOCKED then Some(acc)
        else
          match FirstFree(acc, Home(cfg, c.payload.key, random, |acc|), 0, cfg.maxSearch)
          case None => None
          case Some(ii) => Some(acc[ii := c])
  }

  /** The locked cells of `acc` are, in some order, those among the first n of `was`. */
  ghost predicate Holds(acc: seq<Cell<Entry>>, was: seq<Cell<Entry>>, n: nat)
    requires n <= |was|
  {
    && (forall j :: 0 <= j < |acc| && acc[j].lock != UID_UNLOCKED ==> acc[j] in was[..n])
    && (forall i :: 0 <= i < n && was[i].lock != UID_UNLOCKED ==> was[i] in acc)
  }

  lemma RehashNothing<T>(cfg: Config<T>, was: seq<Cell<Entry>>, pow2: nat, random: nat)
    ensures var acc := EmptyCells(pow2, ZeroEntry());
            && WindowsOk(cfg, acc, random)
            && KeysUnique(acc)
            && Holds(acc, was, 0)
            && |LockedSet(acc)| == 0 == |LockedSet(was[..0])|
  {
    EmptyHasNoLocked(pow2, ZeroEntry());
    assert LockedSet(was[..0]) == {};
  }

  lemma HoldsSkip(acc: seq<Cell<Entry>>, was: seq<Cell<Entry>>, n: nat)
    requires 0 < n <= |was| && was[n - 1].lock == UID_UNLOCKED && Holds(acc, was, n - 1)
    ensures Holds(acc, was, n)
  {
    assert was[..n] == was[..n - 1] + [was[n - 1]];
  }

  lemma {:induction false} RehashOk<T>(cfg: Config<T>, was: seq<Cell<Entry>>, oldRandom: nat, n: nat, pow2: nat,
                                       random: nat)
    requires n <= |was| && WindowsOk(cfg, was, oldRandom) && KeysUnique(was)
    requires Rehash(cfg, was, n, pow2, random).Some?
    ensures var acc := Rehash(cfg, was, n, pow2, random).value;
            && WindowsOk(cfg, acc, random)
            && KeysUnique(acc)
            && Holds(acc, was, n)
            && |LockedSet(acc)| == |LockedSet(was[..n])|
  {
    hide WindowsOk, KeysUnique, Holds;
    if n == 0 {
      RehashNothing(cfg, was, pow2, random);
    } else {
      RehashOk(cfg, was, oldRandom, n - 1, pow2, random);
      var prev := Rehash(cfg, was, n - 1, pow2, random).value;
      var c := was[n - 1];
      assert was[..n] == was[..n - 1] + [c];
      if c.lock == UID_UNLOCKED {
        assert LockedSet(was[..n]) == LockedSet(was[..n - 1]);
        HoldsSkip(prev, was, n);
      } else {
        assert LockedSet(was[..n]) == LockedSet(was[..n - 1]) + {n - 1};
        RehashStep(cfg, was, oldRandom, n, prev, random);
      }
    }
  }

  lemma RehashStep<T>(cfg: Config<T>, was: seq<Cell<Entry>>, oldRandom: nat, n: nat, prev: seq<Cell<Entry>>,
                      random: nat)
    requires 0 < n <= |was| && WindowsOk(cfg, was, oldRandom) && KeysUnique(was)
    requires was[n - 1].lock != UID_UNLOCKED && |prev| > 0
    requires WindowsOk(cfg, prev, random) && KeysUnique(prev) && Holds(prev, was, n - 1)
    requires FirstFree(prev, Home(cfg, was[n - 1].payload.key, random, |prev|), 0, cfg.maxSearch).Some?
    ensures var ii := FirstFree(prev, Home(cfg, was[n - 1].payload.key, random, |prev|), 0, cfg.maxSearch).value;
            && ii < |prev|
            && var acc := prev[ii := was[n - 1]];
            && WindowsOk(cfg, acc, random)
            && KeysUnique(acc)
            && Holds(acc, was, n)
            && |LockedSet(acc)| == |LockedSet(prev)| + 1
  {
    var c := was[n - 1];
    var home := Home(cfg, c.payload.key, random, |prev|);
    FirstFreeSound(prev, home, 0, cfg.maxSearch);
    var ii := FirstFree(prev, home, 0, cfg.maxSearch).value;
    var acc := prev[ii := c];
    LockedSetUpdate(prev, ii, c);
    assert CellInWindow(cfg, was, oldRandom, n - 1);
    forall j | 0 <= j < |acc| && acc[j].lock != UID_UNLOCKED
      ensures CellInWindow(cfg, acc, random, j)
      ensures j != ii ==> acc[j].payload.key != c.payload.key
      ensures acc[j] in was[..n]
    {
      if j != ii {
        assert CellInWindow(cfg, prev, random, j);
        var i :| 0 <= i < n - 1 && was[..n - 1][i] == prev[j];
        assert was[..n][i] == acc[j];
      } else {
        assert was[..n][n - 1] == c;
      }
    }
    forall i | 0 <= i < n && was[i].lock != UID_UNLOCKED
      ensures was[i] in acc
    {
      if i == n - 1 {
        assert acc[ii] == c;
      } else {
        var j :| 0 <= j < |prev| && prev[j] == was[i];
        assert acc[j] == was[i];
      }
    }
  }

  /** A rehashed index finds every key with its entry unchanged, and nothing else. */
  lemma RehashFindsSame<T>(cfg: Config<T>, index: Storage<Entry>, random: nat, pow2: nat, random': nat, key: Pubkey)
    requires IndexOk(cfg, index, random)
    requires Rehash(cfg, index.cells, |index.cells|, pow2, random').Some?
    ensures var cells' := Rehash(cfg, index.cells, |index.cells|, pow2, random').value;
            var r, r' := FindEntry(cfg, index.cells, random, key), FindEntry(cfg, cells', random', key);
            && IndexOk(cfg, Storage(pow2, cells', index.count), random')
            && r.Some? == r'.Some?
            && (r.Some? ==> r.value < |index.cells| && r'.value < |cells'| && cells'[r'.value] == index.cells[r.value])
  {
    var cells := index.cells;
    var cells' := Rehash(cfg, cells, |cells|, pow2, random').value;
    RehashOk(cfg, cells, random, |cells|, pow2, random');
    assert cells[..|cells|] == cells;
    var index' := Storage(pow2, cells', index.count);
    FindEntryComplete(cfg, index, random, key);
    FindEntryComplete(cfg, index', random', key);
    var r, r' := FindEntry(cfg, cells, random, key), FindEntry(cfg, cells', random', key);
    if r.Some? {
      var j :| 0 <= j < |cells'| && cells'[j] == cells[r.value];
      assert Locked(cells', j);
    }
    if r'.Some? {
      assert cells'[r'.value] in cells;
      var i :| 0 <= i < |cells| && cells[i] == cells'[r'.value];
      assert Locked(cells, i);
    }
  }

  /** Entries moved to other index cells still own their data cells, and no two the same. */
  lemma MovedEntriesOk<T>(cells: seq<Cell<Entry>>, cells': seq<Cell<Entry>>, data: seq<DataStorage<T>>)
    requires Holds(cells', cells, |cells|) && KeysUnique(cells')
    requires EntriesOk(cells, data) && OwnersApart(cells, data)
    ensures EntriesOk(cells', data) && OwnersApart(cells', data)
  {
    assert cells[..|cells|] == cells;
    forall j, k | 0 <= j < |cells'| && 0 <= k < |cells'| && j != k
               && cells'[j].lock != UID_UNLOCKED && cells'[k].lock != UID_UNLOCKED
      ensures Apart(data, cells'[j].payload, cells'[k].payload)
    {
      assert cells'[j] in cells && cells'[k] in cells;
      var i :| 0 <= i < |cells| && cells[i] == cells'[j];
      var l :| 0 <= l < |cells| && cells[l] == cells'[k];
      assert i != l;
    }
  }

  lemma MovedEntriesRepresent<T>(s: Shard<T>, s': Shard<T>, m: map<Pubkey, Value<T>>)
    requires Represents(s, m) && s'.data == s.data
    requires Holds(s'.index.cells, s.index.cells, |s.index.cells|)
    ensures Represents(s', m)
  {
    var cells, cells' := s.index.cells, s'.index.cells;
    assert cells[..|cells|] == cells;
    forall k | k in m
      ensures HasKey(cells', k)
    {
      assert HasKey(cells, k);
      var i :| 0 <= i < |cells| && cells[i].lock != UID_UNLOCKED && cells[i].payload.key == k;
      var j :| 0 <= j < |cells'| && cells'[j] == cells[i];
      assert cells'[j].lock != UID_UNLOCKED && cells'[j].payload.key == k;
    }
  }

  /** Installing a rehashed index keeps the invariant and the map. */
  lemma InstallIndexStep<T>(cfg: Config<T>, s: Shard<T>, m: map<Pubkey, Value<T>>, pow2: nat, random: nat)
    requires Inv(cfg, s) && Represents(s, m)
    requires Rehash(cfg, s.index.cells, |s.index.cells|, pow2, random).Some?
    ensures var cells' := Rehash(cfg, s.index.cells, |s.index.cells|, pow2, random).value;
            var s' := Shard(Storage(pow2, cells', s.index.count), random, s.data);
            Inv(cfg, s') && Represents(s', m)
  {
    hide WindowsOk, KeysUnique, Holds, EntriesOk, OwnersApart, DataOk, Represents;
    var cells := s.index.cells;
    var cells' := Rehash(cfg, cells, |cells|, pow2, random).value;
    RehashOk(cfg, cells, s.random, |cells|, pow2, random);
    assert cells[..|cells|] == cells;
    MovedEntriesOk(cells, cells', s.data);
    MovedEntriesRepresent(s, Shard(Storage(pow2, cells', s.index.count), random, s.data), m);
  }
}
