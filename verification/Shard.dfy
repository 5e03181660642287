/**
 * The state of one bucket as a value: its index, the random seed of the index and
 * its data storages. Storage b has cells of 2^b elements.
 *
 * A shard represents a plain map from keys to slot list and ref count. Every
 * operation below is shown to keep the shard invariant and to act on that map.
 */
module Shard {
  import opened Powers
  import opened Storage
  import opened IndexEntry

  datatype Value<T> = Value(slots: seq<T>, refCount: nat)

  /**
   * Hashing is a parameter: `keyHash` of a key gives its uid, `indexHash` of a uid
   * and the seed gives the home cell. `zero` is the element whose bytes are all zero.
   */
  datatype Config<!T> = Config(
    keyHash: Pubkey -> nat,
    indexHash: (nat, nat) -> nat,
    maxSearch: nat,
    zero: T)

  type DataStorage<T> = Storage<seq<T>>

  datatype Shard<T> = Shard(index: Storage<Entry>, random: nat, data: seq<DataStorage<T>>)

  function KeyUid<T>(cfg: Config<T>, key: Pubkey): (uid: nat)
    ensures uid >= 1
  {
    var h := cfg.keyHash(key);
    if h >= 1 then h else 1
  }

  function Home<T>(cfg: Config<T>, key: Pubkey, random: nat, cap: nat): (r: nat)
    requires cap > 0
    ensures r < cap
  {
    cfg.indexHash(KeyUid(cfg, key), random) % cap
  }

  function ZeroCell<T>(cfg: Config<T>, b: nat): (r: seq<T>)
    ensures |r| == Pow2(b)
  {
    seq(Pow2(b), _ => cfg.zero)
  }

  // ---------- the index ----------

  /** A locked cell carries the uid of its key and lies in the probe window of that key. */
  ghost predicate CellInWindow<T>(cfg: Config<T>, cells: seq<Cell<Entry>>, random: nat, i: nat)
    requires i < |cells|
  {
    var key := cells[i].payload.key;
    && cells[i].lock == KeyUid(cfg, key)
    && Offset(Home(cfg, key, random, |cells|), i, |cells|) < cfg.maxSearch
  }

  ghost predicate WindowsOk<T>(cfg: Config<T>, cells: seq<Cell<Entry>>, random: nat) {
    forall i :: 0 <= i < |cells| && cells[i].lock != UID_UNLOCKED ==> CellInWindow(cfg, cells, random, i)
  }

  ghost predicate KeysUnique(cells: seq<Cell<Entry>>) {
    forall i, j ::
      (0 <= i < |cells| && 0 <= j < |cells| && i != j
       && cells[i].lock != UID_UNLOCKED && cells[j].lock != UID_UNLOCKED) ==>
      cells[i].payload.key != cells[j].payload.key
  }

  ghost predicate IndexOk<T>(cfg: Config<T>, index: Storage<Entry>, random: nat) {
    && Shaped(index)
    && Counted(index)
    && WindowsOk(cfg, index.cells, random)
    && KeysUnique(index.cells)
  }

  // ---------- the data storages ----------

  ghost predicate DataStorageOk<T>(d: DataStorage<T>, b: nat) {
    && Shaped(d)
    && Counted(d)
    && d.pow2 >= DEFAULT_CAPACITY_POW2
    && forall i :: 0 <= i < |d.cells| ==> |d.cells[i].payload| == Pow2(b)
  }

  ghost predicate DataOk<T>(data: seq<DataStorage<T>>) {
    forall b :: 0 <= b < |data| ==> DataStorageOk(data[b], b)
  }

  // ---------- entries and the cells they own ----------

  /** The storage of the entry's size class exists and was not smaller when the entry was made. */
  ghost predicate Placeable<T>(data: seq<DataStorage<T>>, e: Entry) {
    var b := SizeClass(e.numSlots);
    b < |data| && e.capPow <= data[b].pow2
  }

  /** Where the slot list of an entry is: a size class and a cell. */
  function Place<T>(data: seq<DataStorage<T>>, e: Entry): (nat, nat)
    requires SizeClass(e.numSlots) < |data| && e.capPow <= data[SizeClass(e.numSlots)].pow2
  {
    var b := SizeClass(e.numSlots);
    (b, DataLoc(e, data[b].pow2))
  }

  /** An entry with a non-empty slot list owns an in-range cell locked with its uid. */
  ghost predicate EntryOk<T>(data: seq<DataStorage<T>>, e: Entry, uid: nat) {
    && Placeable(data, e)
    && (e.numSlots > 0 ==>
          && e.offset < Pow2(e.capPow)
          && var (b, loc) := Place(data, e);
             loc < |data[b].cells| && data[b].cells[loc].lock == uid)
  }

  ghost predicate EntriesOk<T>(index: seq<Cell<Entry>>, data: seq<DataStorage<T>>) {
    forall i :: 0 <= i < |index| && index[i].lock != UID_UNLOCKED ==>
      EntryOk(data, index[i].payload, index[i].lock)
  }

  /** Two entries do not own the same cell. */
  ghost predicate Apart<T>(data: seq<DataStorage<T>>, e: Entry, f: Entry) {
    Placeable(data, e) && Placeable(data, f) && e.numSlots > 0 && f.numSlots > 0 ==>
      Place(data, e) != Place(data, f)
  }

  ghost predicate OwnersApart<T>(index: seq<Cell<Entry>>, data: seq<DataStorage<T>>) {
    forall i, j ::
      (0 <= i < |index| && 0 <= j < |index| && i != j
       && index[i].lock != UID_UNLOCKED && index[j].lock != UID_UNLOCKED) ==>
      Apart(data, index[i].payload, index[j].payload)
  }

  /** The invariant of every reachable bucket. */
  ghost predicate Inv<T>(cfg: Config<T>, s: Shard<T>) {
    && IndexOk(cfg, s.index, s.random)
    && DataOk(s.data)
    && EntriesOk(s.index.cells, s.data)
    && OwnersApart(s.index.cells, s.data)
  }

  /** The parts of the invariant that lookups need, for proofs that keep it folded. */
  lemma InvIndex<T>(cfg: Config<T>, s: Shard<T>)
    requires Inv(cfg, s)
    ensures IndexOk(cfg, s.index, s.random) && Shaped(s.index) && |s.index.cells| > 0
  {
  }

  lemma InvData<T>(cfg: Config<T>, s: Shard<T>, b: nat)
    requires Inv(cfg, s) && b < |s.data|
    ensures DataOk(s.data) && DataStorageOk(s.data[b], b) && |s.data[b].cells| > 0
  {
  }

  lemma InvEntry<T>(cfg: Config<T>, s: Shard<T>, i: nat)
    requires Inv(cfg, s) && Locked(s.index.cells, i)
    ensures EntryOk(s.data, s.index.cells[i].payload, s.index.cells[i].lock)
  {
  }

  // ---------- what a shard represents ----------

  predicate Readable<T>(data: seq<DataStorage<T>>, e: Entry) {
    e.numSlots > 0 ==>
      && SizeClass(e.numSlots) < |data|
      && e.capPow <= data[SizeClass(e.numSlots)].pow2
      && var (b, loc) := Place(data, e);
         loc < |data[b].cells| && e.numSlots <= |data[b].cells[loc].payload|
  }

  /** The value an entry stands for, read from the cell it owns. */
  function EntryValue<T>(data: seq<DataStorage<T>>, e: Entry): Value<T>
    requires Readable(data, e)
  {
    if e.numSlots > 0 then
      var (b, loc) := Place(data, e);
      Value(data[b].cells[loc].payload[..e.numSlots], e.refCount)
    else
      Value([], e.refCount)
  }

  /** In a good shard the cell of an entry is large enough for its slot list. */
  lemma EntryReadable<T>(data: seq<DataStorage<T>>, e: Entry, uid: nat)
    requires DataOk(data) && EntryOk(data, e, uid)
    ensures Readable(data, e)
  {
    SizeClassFits(e.numSlots);
  }

  ghost predicate HasKey(cells: seq<Cell<Entry>>, key: Pubkey) {
    exists i :: 0 <= i < |cells| && cells[i].lock != UID_UNLOCKED && cells[i].payload.key == key
  }

  /** The entry's value is the one the map has for its key. */
  ghost predicate EntryMatches<T>(data: seq<DataStorage<T>>, e: Entry, m: map<Pubkey, Value<T>>) {
    e.key in m && Readable(data, e) && m[e.key] == EntryValue(data, e)
  }

  /** The shard stands for the plain map m: same keys, same values. */
  ghost predicate Represents<T>(s: Shard<T>, m: map<Pubkey, Value<T>>) {
    && (forall i :: 0 <= i < |s.index.cells| && s.index.cells[i].lock != UID_UNLOCKED ==>
          EntryMatches(s.data, s.index.cells[i].payload, m))
    && (forall k :: k in m ==> HasKey(s.index.cells, k))
  }

  lemma RepresentsAt<T>(s: Shard<T>, m: map<Pubkey, Value<T>>, i: nat)
    requires Represents(s, m) && Locked(s.index.cells, i)
    ensures EntryMatches(s.data, s.index.cells[i].payload, m)
  {
  }

  lemma RepresentsKeys<T>(s: Shard<T>, m: map<Pubkey, Value<T>>, key: Pubkey)
    requires Represents(s, m)
    ensures key in m <==> HasKey(s.index.cells, key)
  {
    if HasKey(s.index.cells, key) {
      var i :| 0 <= i < |s.index.cells| && s.index.cells[i].lock != UID_UNLOCKED && s.index.cells[i].payload.key == key;
      assert EntryMatches(s.data, s.index.cells[i].payload, m);
    }
  }

  /** A shard represents at most one map. */
  lemma RepresentsUnique<T>(s: Shard<T>, m: map<Pubkey, Value<T>>, m': map<Pubkey, Value<T>>)
    requires Represents(s, m) && Represents(s, m')
    ensures m == m'
  {
    forall k | k in m ensures k in m' && m[k] == m'[k] {
      var i :| 0 <= i < |s.index.cells| && s.index.cells[i].lock != UID_UNLOCKED && s.index.cells[i].payload.key == k;
      assert EntryMatches(s.data, s.index.cells[i].payload, m);
      assert EntryMatches(s.data, s.index.cells[i].payload, m');
    }
    forall k | k in m' ensures k in m {
      var i :| 0 <= i < |s.index.cells| && s.index.cells[i].lock != UID_UNLOCKED && s.index.cells[i].payload.key == k;
      assert EntryMatches(s.data, s.index.cells[i].payload, m);
    }
  }

  ghost function CellOf(cells: seq<Cell<Entry>>, key: Pubkey): (i: nat)
    requires HasKey(cells, key)
    ensures i < |cells| && cells[i].lock != UID_UNLOCKED && cells[i].payload.key == key
  {
    var i :| 0 <= i < |cells| && cells[i].lock != UID_UNLOCKED && cells[i].payload.key == key;
    i
  }

  ghost function KeySet(cells: seq<Cell<Entry>>): (r: set<Pubkey>)
    ensures forall k :: k in r <==> HasKey(cells, k)
  {
    set i | 0 <= i < |cells| && cells[i].lock != UID_UNLOCKED :: cells[i].payload.key
  }

  lemma EntriesReadable<T>(cfg: Config<T>, s: Shard<T>)
    requires Inv(cfg, s)
    ensures forall i :: 0 <= i < |s.index.cells| && s.index.cells[i].lock != UID_UNLOCKED ==>
      Readable(s.data, s.index.cells[i].payload)
  {
    forall i | 0 <= i < |s.index.cells| && s.index.cells[i].lock != UID_UNLOCKED
      ensures Readable(s.data, s.index.cells[i].payload)
    {
      EntryReadable(s.data, s.index.cells[i].payload, s.index.cells[i].lock);
    }
  }

  /** The plain map of a shard. */
  ghost function Contents<T>(cfg: Config<T>, s: Shard<T>): (m: map<Pubkey, Value<T>>)
    requires Inv(cfg, s)
  {
    EntriesReadable(cfg, s);
    map k | k in KeySet(s.index.cells) :: EntryValue(s.data, s.index.cells[CellOf(s.index.cells, k)].payload)
  }

  lemma ContentsRepresented<T>(cfg: Config<T>, s: Shard<T>)
    requires Inv(cfg, s)
    ensures Represents(s, Contents(cfg, s))
  {
    EntriesReadable(cfg, s);
    forall i | 0 <= i < |s.index.cells| && s.index.cells[i].lock != UID_UNLOCKED
      ensures EntryMatches(s.data, s.index.cells[i].payload, Contents(cfg, s))
    {
      assert HasKey(s.index.cells, s.index.cells[i].payload.key);
      assert CellOf(s.index.cells, s.index.cells[i].payload.key) == i;
    }
  }

  /** Different locked cells hold different keys, so the counter of the index is the number of keys. */
  lemma CountIsKeyCount<T>(cfg: Config<T>, s: Shard<T>)
    requires Inv(cfg, s)
    ensures s.index.count == |KeySet(s.index.cells)| == |Contents(cfg, s)|
  {
    KeyCard(s.index.cells, LockedSet(s.index.cells));
    var m := Contents(cfg, s);
    assert KeySet(s.index.cells) == KeysAt(s.index.cells, LockedSet(s.index.cells));
    assert m.Keys == KeySet(s.index.cells);
  }

  ghost function KeysAt(cells: seq<Cell<Entry>>, a: set<nat>): set<Pubkey>
    requires forall i :: i in a ==> i < |cells|
  {
    set i | i in a :: cells[i].payload.key
  }

  lemma {:induction false} KeyCard(cells: seq<Cell<Entry>>, a: set<nat>)
    requires KeysUnique(cells) && a <= LockedSet(cells)
    ensures |KeysAt(cells, a)| == |a|
    decreases a
  {
    if a != {} {
      var x :| x in a;
      var b := a - {x};
      KeyCard(cells, b);
      assert KeysAt(cells, a) == KeysAt(cells, b) + {cells[x].payload.key};
      assert cells[x].payload.key !in KeysAt(cells, b);
    }
  }

  lemma ContentsAre<T>(cfg: Config<T>, s: Shard<T>, m: map<Pubkey, Value<T>>)
    requires Inv(cfg, s)
    ensures Represents(s, m) ==> Contents(cfg, s) == m
  {
    ContentsRepresented(cfg, s);
    if Represents(s, m) {
      RepresentsUnique(s, m, Contents(cfg, s));
    }
  }
}
