/** The locked handle on one shard of the map, with a method per call of its interface. */
module BucketApis {
  import opened Storage
  import opened BucketStorages
  import opened IndexEntry
  import opened Shard
  import opened ShardOps
  import opened BucketSpec
  import opened BucketInsert
  import opened BucketOps
  import opened Buckets

  class BucketApi<T> {
    const cfg: Config<T>
    const count: Counter
    var bucket: Bucket?<T>
    /** The lock is poisoned: a call has panicked under it, and every later one panics at once. */
    var dead: bool

    ghost function Objects(): set<object>
      reads this, bucket
    {
      {this, count} + if bucket == null then {} else {bucket} + bucket.Objects()
    }

    ghost predicate Valid()
      reads this, bucket, Objects()
    {
      if bucket == null then count.value == 0
      else
        && bucket.cfg == cfg && bucket.index.count == count && bucket.Valid() && bucket.PendingOk()
        && this as object !in bucket.Objects()
    }

    /** The plain map this handle stands for. */
    ghost function Model(): map<Pubkey, Value<T>>
      requires Valid()
      reads this, bucket, Objects()
    {
      if bucket == null then map[] else Contents(cfg, bucket.shard)
    }

    constructor (cfg: Config<T>)
      ensures Valid() && Model() == map[] && this.cfg == cfg && bucket == null && !dead
      ensures fresh(count) && count.value == 0
    {
      this.cfg := cfg;
      this.count := new Counter();
      this.bucket := null;
      this.dead := false;
    }

    method ReadValue(key: Pubkey) returns (r: Option<Value<T>>)
      requires Valid() && !dead
      ensures r == Get(Model(), key)
    {
      if bucket == null {
        r := None;
      } else {
        r := bucket.ReadValue(key);
      }
    }

    /** The shared counter is the number of keys. */
    method BucketLen() returns (r: nat)
      requires Valid()
      ensures r == |Model()|
    {
      r := count.value;
      if bucket != null {
        CountIsKeyCount(cfg, bucket.shard);
      }
    }

    /** Takes the write lock: creates the bucket on first use, otherwise installs what is pending. */
    method GetWriteBucket(seed: nat) returns (b: Bucket<T>)
      requires Valid()
      modifies this, bucket
      ensures Valid() && bucket == b && b.Ready() && Model() == old(Model()) && dead == old(dead)
      ensures b.Idle() <==> (old(bucket) == null || old(bucket.active) <= 1)
      ensures old(bucket) == null || b == old(bucket)
      ensures forall o :: o in Objects() ==> o in old(Objects()) || fresh(o)
    {
      hide Inv, Bucket.PendingOk, Bucket.Coupled, Contents, Represents, Install;
      if bucket == null {
        b := CreateBucket(seed);
      } else {
        b := bucket;
        b.HandleDelayedGrows();
        b.ReadyIsOk();
      }
    }

    method CreateBucket(seed: nat) returns (b: Bucket<T>)
      requires Valid() && bucket == null
      modifies this
      ensures Valid() && bucket == b && b.Idle() && Model() == map[] && dead == old(dead)
      ensures forall o :: o in Objects() ==> o in old(Objects()) || fresh(o)
    {
      hide Inv, Bucket.PendingOk, Contents;
      b := new Bucket(cfg, seed, count);
      bucket := b;
      b.ReadyIsOk();
    }

    /** The bucket has passed the assertion on its counter. */
    ghost predicate Jammed()
      reads this, bucket
    {
      bucket != null && bucket.active >= 2
    }

    /** Sets the value of one key. Only on a jammed bucket can it panic, and that kills the lock. */
    method Insert(key: Pubkey, v: Value<T>, seed: nat, draws: seq<Draw>) returns (r: Ending)
      requires Valid() && !dead
      modifies this, Objects()
      ensures Valid() && (dead <==> r.Panicked?) && (r.Panicked? ==> old(Jammed()))
      ensures InsertEffect(old(Model()), Model(), key, v, r.Returned?)
      ensures forall o :: o in Objects() ==> o in old(Objects()) || fresh(o)
    {
      hide Inv, Bucket.Coupled, Bucket.PendingOk, Contents, BucketInsert.Insert, InsertEffect, JammedInsert;
      var b := GetWriteBucket(seed);
      InsertChangesContents(cfg, b.shard, key, v, draws);
      JammedInsertChangesContents(cfg, b.shard, key, v, draws);
      r := b.Insert(key, v, draws);
      b.ReadyIsOk();
      dead := r.Panicked?;
    }

    /** One attempt, with the three possible effects on the map. */
    method TryWrite(key: Pubkey, v: Value<T>, seed: nat, pos: nat) returns (err: Option<Buckets.Error>)
      requires Valid() && !dead
      modifies this, Objects()
      ensures Valid() && !dead
      ensures Model() == AfterAttempt(old(Model()), key, v, err)
      ensures forall o :: o in Objects() ==> o in old(Objects()) || fresh(o)
    {
      hide Inv, Bucket.Coupled, Bucket.PendingOk, Contents, BucketSpec.TryWrite, AfterAttempt;
      ghost var m := Model();
      var b := GetWriteBucket(seed);
      AttemptEffect(cfg, b.shard, key, v, pos);
      err := b.TryWrite(key, v.slots, v.refCount, pos);
      b.ReadyIsOk();
    }

    method DeleteKey(key: Pubkey, seed: nat)
      requires Valid() && !dead
      modifies this, Objects()
      ensures Valid() && !dead && Model() == old(Model()) - {key}
      ensures forall o :: o in Objects() ==> o in old(Objects()) || fresh(o)
    {
      hide Inv, Bucket.Coupled, Bucket.PendingOk, Contents, Represents, BucketSpec.DeleteKey;
      ghost var m := Model();
      var b := GetWriteBucket(seed);
      ContentsRepresented(cfg, b.shard);
      DeleteRefinesMap(cfg, b.shard, m, key);
      b.DeleteKey(key);
      b.ReadyIsOk();
      ContentsAre(cfg, b.shard, m - {key});
    }

    method Update(key: Pubkey, f: Option<Value<T>> -> Option<Value<T>>, seed: nat, draws: seq<Draw>) returns (r: Ending)
      requires Valid() && !dead
      modifies this, Objects()
      ensures Valid() && (dead <==> r.Panicked?) && (r.Panicked? ==> old(Jammed()))
      ensures match f(Get(old(Model()), key))
              case None => r.Returned? && Model() == old(Model()) - {key}
              case Some(v) => InsertEffect(old(Model()), Model(), key, v, r.Returned?)
      ensures forall o :: o in Objects() ==> o in old(Objects()) || fresh(o)
    {
      hide Inv, Bucket.Coupled, Bucket.PendingOk, Contents, InsertEffect;
      var b := GetWriteBucket(seed);
      r := b.Update(key, f, draws);
      b.ReadyIsOk();
      dead := r.Panicked?;
    }

    method AddRef(key: Pubkey, seed: nat) returns (r: Option<nat>)
      requires Valid() && !dead && (key in Model() ==> Model()[key].refCount + 1 < REF_COUNT_LIMIT)
      modifies this, Objects()
      ensures Valid() && !dead && Model() == AddToRef(old(Model()), key, 1)
      ensures r == if key in old(Model()) then Some(old(Model())[key].refCount + 1) else None
      ensures forall o :: o in Objects() ==> o in old(Objects()) || fresh(o)
    {
      hide Valid, Model, AddToRef;
      r := ChangeRef(key, seed, 1);
    }

    method Unref(key: Pubkey, seed: nat) returns (r: Option<nat>)
      requires Valid() && !dead && (key in Model() ==> 0 < Model()[key].refCount <= REF_COUNT_LIMIT)
      modifies this, Objects()
      ensures Valid() && !dead && Model() == AddToRef(old(Model()), key, -1)
      ensures r == if key in old(Model()) then Some(old(Model())[key].refCount - 1) else None
      ensures forall o :: o in Objects() ==> o in old(Objects()) || fresh(o)
    {
      hide Valid, Model, AddToRef;
      r := ChangeRef(key, seed, -1);
    }

    method ChangeRef(key: Pubkey, seed: nat, delta: int) returns (r: Option<nat>)
      requires Valid() && !dead && (key in Model() ==> 0 <= Model()[key].refCount + delta < REF_COUNT_LIMIT)
      modifies this, Objects()
      ensures Valid() && !dead && Model() == AddToRef(old(Model()), key, delta)
      ensures RefIs(old(Model()), key, delta, r)
      ensures forall o :: o in Objects() ==> o in old(Objects()) || fresh(o)
    {
      hide Inv, Bucket.Coupled, Bucket.PendingOk, Contents, CanChangeRef, AddToRef, RefIs;
      var b := GetWriteBucket(seed);
      CanChangeRefIs(cfg, b.shard, key, delta);
      r := b.ChangeRef(key, delta);
      b.ReadyIsOk();
    }

    /** Under the read lock only slots and counter change; the map stays what it is, also when the call panics. */
    method Grow(err: Buckets.Error, seeds: seq<nat>) returns (r: Ending)
      requires Valid() && !dead
      modifies bucket
      ensures Valid() && Model() == old(Model())
      ensures bucket == null ==> r.Returned?
      ensures bucket != null ==>
        && bucket.shard == old(bucket.shard)
        && bucket.GrowEffect(old(bucket.active), old(bucket.pending), err, seeds, r)
      ensures forall o :: o in Objects() ==> o in old(Objects()) || fresh(o)
    {
      hide Inv, Bucket.Coupled, Bucket.PendingOk, Contents, Bucket.GrowEffect;
      r := Returned;
      if bucket != null {
        r := bucket.Grow(err, seeds);
      }
    }
  }

  /**
   * What an attempt does to the map, told from its result alone: an error with capacity
   * zero or about the index changed nothing, another data error set the ref count only.
   */
  function AfterAttempt<T>(m: map<Pubkey, Value<T>>, key: Pubkey, v: Value<T>, err: Option<Buckets.Error>)
    : map<Pubkey, Value<T>>
  {
    match err
    case None => m[key := v]
    case Some(IndexNoSpace(_)) => m
    case Some(DataNoSpace(_, pow2)) => if pow2 == 0 then m else Touched(m, key, v.refCount)
  }

  lemma CanChangeRefIs<T>(cfg: Config<T>, s: Shard<T>, key: Pubkey, delta: int)
    requires Inv(cfg, s)
    ensures CanChangeRef(cfg, s, key, delta) <==>
            (key in Contents(cfg, s) ==> 0 <= Contents(cfg, s)[key].refCount + delta < REF_COUNT_LIMIT)
  {
    hide Inv, Contents, Represents;
    ContentsRepresented(cfg, s);
    ReadIsLookup(cfg, s, Contents(cfg, s), key);
  }

  lemma AttemptEffect<T>(cfg: Config<T>, s: Shard<T>, key: Pubkey, v: Value<T>, pos: nat)
    requires Inv(cfg, s)
    ensures var (s', err) := BucketSpec.TryWrite(cfg, s, key, v.slots, v.refCount, pos);
            Inv(cfg, s') && Contents(cfg, s') == AfterAttempt(Contents(cfg, s), key, v, err)
  {
    hide Inv, Contents, Represents, BucketSpec.TryWrite;
    var m := Contents(cfg, s);
    var (s', err) := BucketSpec.TryWrite(cfg, s, key, v.slots, v.refCount, pos);
    ContentsRepresented(cfg, s);
    TryWriteRefinesMap(cfg, s, m, key, v.slots, v.refCount, pos);
    if SizeClass(|v.slots|) < |s.data| {
      InvData(cfg, s, SizeClass(|v.slots|));
    }
    ContentsAre(cfg, s', MapTryWrite(m, key, v.slots, v.refCount, err, |s.data|));
  }
}
