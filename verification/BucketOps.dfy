/** The write operations of a bucket as one step relation, refining the same operation on a plain map. */
module BucketOps {
  import opened Powers
  import opened Storage
  import opened IndexEntry
  import opened Shard
  import opened ShardOps
  import opened BucketSpec
  import opened Growth
  import opened BucketInsert

  /** Ref counts are 64-bit. */
  const REF_COUNT_LIMIT: nat := 0x1_0000_0000_0000_0000

  datatype Op<!T> =
    | OpInsert(key: Pubkey, v: Value<T>, draws: seq<Draw>)
    | OpTryWrite(key: Pubkey, v: Value<T>, pos: nat)
    | OpUpdate(key: Pubkey, f: Option<Value<T>> -> Option<Value<T>>, draws: seq<Draw>)
    | OpDelete(key: Pubkey)
    | OpAddRef(key: Pubkey)
    | OpUnref(key: Pubkey)

  function EmptyShard<T>(cfg: Config<T>, random: nat): Shard<T> {
    Shard(Storage(DEFAULT_CAPACITY_POW2, EmptyCells(DEFAULT_CAPACITY_POW2, ZeroEntry()), 0), random, [])
  }

  /** A new bucket has 32 free index cells, the seed it was given, and no data storage. */
  lemma EmptyShardOk<T>(cfg: Config<T>, random: nat)
    ensures var s := EmptyShard(cfg, random);
            && |s.index.cells| == 32 && LockedSet(s.index.cells) == {} && s.index.count == 0
            && s.random == random && s.data == []
    ensures Inv(cfg, EmptyShard(cfg, random))
    ensures Represents(EmptyShard(cfg, random), map[])
  {
    EmptyHasNoLocked(DEFAULT_CAPACITY_POW2, ZeroEntry());
    assert Pow2(DEFAULT_CAPACITY_POW2) == 32;
  }

  function Read<T>(cfg: Config<T>, s: Shard<T>, key: Pubkey): Option<Value<T>>
    requires Inv(cfg, s)
  {
    InvIndex(cfg, s);
    EntriesReadable(cfg, s);
    ReadValue(cfg, s, key)
  }

  predicate CanChangeRef<T>(cfg: Config<T>, s: Shard<T>, key: Pubkey, delta: int)
    requires Inv(cfg, s)
  {
    var v := Read(cfg, s, key);
    v.Some? ==> 0 <= v.value.refCount + delta < REF_COUNT_LIMIT
  }

  lemma ChangeRefDefined<T>(cfg: Config<T>, s: Shard<T>, key: Pubkey, delta: int)
    requires Inv(cfg, s) && CanChangeRef(cfg, s, key, delta)
    ensures |s.index.cells| > 0
    ensures var r := FindEntry(cfg, s.index.cells, s.random, key);
            r.Some? ==> r.value < |s.index.cells| && s.index.cells[r.value].payload.refCount + delta >= 0
  {
    hide Inv, Represents, Contents;
    InvIndex(cfg, s);
    ContentsRepresented(cfg, s);
    ReadIsLookup(cfg, s, Contents(cfg, s), key);
    ChangeRefRefinesMap(cfg, s, Contents(cfg, s), key, delta);
  }

  /**
   * An insert takes part in a run when it returns; counts are changed only within
   * their 64-bit range, which the callers guarantee.
   */
  predicate Completes<T>(cfg: Config<T>, s: Shard<T>, op: Op<T>)
    requires Inv(cfg, s)
  {
    match op
    case OpInsert(key, v, draws) => Insert(cfg, s, key, v, draws).done
    case OpTryWrite(_, _, _) => true
    case OpUpdate(key, f, draws) =>
      var next := f(Read(cfg, s, key));
      next.Some? ==> Insert(cfg, s, key, next.value, draws).done
    case OpDelete(_) => true
    case OpAddRef(key) => CanChangeRef(cfg, s, key, 1)
    case OpUnref(key) => CanChangeRef(cfg, s, key, -1)
  }

  function Perform<T>(cfg: Config<T>, s: Shard<T>, op: Op<T>): Shard<T>
    requires Inv(cfg, s) && Completes(cfg, s, op)
  {
    match op
    case OpInsert(key, v, draws) => Insert(cfg, s, key, v, draws).shard
    case OpTryWrite(key, v, pos) => TryWrite(cfg, s, key, v.slots, v.refCount, pos).0
    case OpUpdate(key, f, draws) =>
      (match f(Read(cfg, s, key))
       case None => DeleteKey(cfg, s, key)
       case Some(v) => Insert(cfg, s, key, v, draws).shard)
    case OpDelete(key) => DeleteKey(cfg, s, key)
    case OpAddRef(key) =>
      ChangeRefDefined(cfg, s, key, 1);
      ChangeRef(cfg, s, key, 1).0
    case OpUnref(key) =>
      ChangeRefDefined(cfg, s, key, -1);
      ChangeRef(cfg, s, key, -1).0
  }

  /** How a write attempt ended, as far as a plain map can tell. */
  datatype Outcome = Wrote | Refused | RefCountOnly

  function OutcomeOf<T>(cfg: Config<T>, s: Shard<T>, op: Op<T>): Outcome
    requires Inv(cfg, s)
  {
    match op
    case OpTryWrite(key, v, pos) =>
      (match TryWrite(cfg, s, key, v.slots, v.refCount, pos).1
       case None => Wrote
       case Some(IndexNoSpace(_)) => Refused
       case Some(DataNoSpace(b, _)) => if b >= |s.data| then Refused else RefCountOnly)
    case _ => Wrote
  }

  function AddToRef<T>(m: map<Pubkey, Value<T>>, key: Pubkey, delta: int): map<Pubkey, Value<T>> {
    if key in m && m[key].refCount + delta >= 0 then m[key := m[key].(refCount := m[key].refCount + delta)] else m
  }

  /** The new count of a present key. */
  predicate RefIs<T>(m: map<Pubkey, Value<T>>, key: Pubkey, delta: int, r: Option<nat>) {
    if key in m then m[key].refCount + delta >= 0 && r == Some(m[key].refCount + delta) else r.None?
  }

  /** The same operation on a plain map. */
  function PlainOp<T>(m: map<Pubkey, Value<T>>, op: Op<T>, outcome: Outcome): map<Pubkey, Value<T>> {
    match op
    case OpInsert(key, v, _) => m[key := v]
    case OpTryWrite(key, v, _) =>
      (match outcome
       case Wrote => m[key := v]
       case Refused => m
       case RefCountOnly => Touched(m, key, v.refCount))
    case OpUpdate(key, f, _) =>
      (match f(Get(m, key))
       case None => m - {key}
       case Some(v) => m[key := v])
    case OpDelete(key) => m - {key}
    case OpAddRef(key) => AddToRef(m, key, 1)
    case OpUnref(key) => AddToRef(m, key, -1)
  }

  /** Every operation keeps the invariant and does to the represented map what it does to a plain one. */
  lemma PerformRefinesPlain<T>(cfg: Config<T>, s: Shard<T>, m: map<Pubkey, Value<T>>, op: Op<T>)
    requires Inv(cfg, s) && Represents(s, m) && Completes(cfg, s, op)
    ensures Inv(cfg, Perform(cfg, s, op))
    ensures Represents(Perform(cfg, s, op), PlainOp(m, op, OutcomeOf(cfg, s, op)))
  {
    hide Inv, Represents, Contents, Insert, TryWrite, DeleteKey, ChangeRef;
    ReadIsLookup(cfg, s, m, op.key);
    match op
    case OpInsert(key, v, draws) => InsertRefinesMap(cfg, s, m, key, v, draws);
    case OpTryWrite(key, v, pos) =>
      TryWriteRefinesMap(cfg, s, m, key, v.slots, v.refCount, pos);
    case OpUpdate(key, f, draws) =>
      match f(Read(cfg, s, key)) {
        case None => DeleteRefinesMap(cfg, s, m, key);
        case Some(v) => InsertRefinesMap(cfg, s, m, key, v, draws);
      }
    case OpDelete(key) => DeleteRefinesMap(cfg, s, m, key);
    case OpAddRef(key) => ChangeRefRefinesMap(cfg, s, m, key, 1);
    case OpUnref(key) => ChangeRefRefinesMap(cfg, s, m, key, -1);
  }
}
