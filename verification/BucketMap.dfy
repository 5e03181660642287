/** The whole map: one locked handle per shard, and every call sent to the shard of its key. */
module BucketMaps {
  import opened Powers
  import opened Storage
  import opened IndexEntry
  import opened Shard
  import opened ShardOps
  import opened BucketInsert
  import opened BucketOps
  import opened Buckets
  import opened BucketApis
  import opened KeyShards
  import opened ShardedRuns

  class BucketMap<T> {
    const cfg: Config<T>
    const pow2: nat
    const buckets: seq<BucketApi<T>>

    ghost function Inner(): set<object>
      reads buckets
    {
      set a | a in buckets && a.bucket != null :: a.bucket as object
    }

    ghost function Objects(): set<object>
      reads buckets, Inner()
    {
      set a, o | a in buckets && o in a.Objects() :: o
    }

    /** Shards share no object. */
    ghost predicate Separate()
      reads buckets, Inner()
    {
      forall b, c :: 0 <= b < |buckets| && 0 <= c < |buckets| && b != c ==>
        buckets[b].Objects() !! buckets[c].Objects()
    }

    ghost predicate ShardIs(b: nat, m: map<Pubkey, Value<T>>)
      requires b < |buckets|
      reads buckets[b], buckets[b].bucket, buckets[b].Objects()
    {
      buckets[b].cfg == cfg && buckets[b].Valid() && buckets[b].Model() == m
    }

    /** The shards together stand for the plain map m: each one for the part of m with its keys. */
    ghost predicate StandsFor(m: map<Pubkey, Value<T>>)
      reads buckets, Inner(), Objects()
    {
      && pow2 < WORD_BITS && |buckets| == Pow2(pow2) && KeysOk(m)
      && Separate()
      && forall b :: 0 <= b < |buckets| ==> ShardIs(b, Part(m, pow2, b))
    }

    /** There is only one such map. */
    lemma StandsForOne(m: map<Pubkey, Value<T>>, m': map<Pubkey, Value<T>>)
      requires StandsFor(m) && StandsFor(m')
      ensures m == m'
    {
      hide BucketApi.Valid, BucketApi.Model, Part;
      forall k: Pubkey | |k.bytes| == KEY_BYTES
        ensures Get(m, k) == Get(m', k)
      {
        var ix := ShardOf(k);
        assert ShardIs(ix, Part(m, pow2, ix)) && ShardIs(ix, Part(m', pow2, ix));
        PartLookup(m, pow2, k);
        PartLookup(m', pow2, k);
      }
      assert forall k :: k in m ==> Get(m, k) == Get(m', k);
      assert forall k :: k in m' ==> Get(m, k) == Get(m', k);
    }

    function ShardOf(key: Pubkey): (ix: nat)
      requires |key.bytes| == KEY_BYTES && pow2 < WORD_BITS
      ensures ix < Pow2(pow2)
    {
      BucketIxInRange(key, pow2);
      BucketIx(key, pow2)
    }

    constructor (cfg: Config<T>, maxBuckets: nat, ghost p: nat)
      requires p < WORD_BITS && maxBuckets == Pow2(p)
      ensures StandsFor(map[]) && this.cfg == cfg && |buckets| == maxBuckets && fresh(Objects())
      ensures forall b :: 0 <= b < |buckets| ==> !buckets[b].dead
    {
      hide Log2, Bucket.Valid, Bucket.PendingOk;
      var apis: seq<BucketApi<T>> := [];
      for b := 0 to maxBuckets
        invariant |apis| == b
        invariant forall c :: 0 <= c < b ==>
          && fresh(apis[c]) && fresh(apis[c].count) && apis[c].bucket == null && !apis[c].dead
          && apis[c].cfg == cfg && apis[c].count.value == 0
        invariant forall c, d :: 0 <= c < d < b ==> apis[c] != apis[d] && apis[c].count != apis[d].count
      {
        var a := new BucketApi(cfg);
        apis := apis + [a];
      }
      this.cfg := cfg;
      Log2OfPow2(p);
      this.pow2 := Log2(maxBuckets);
      this.buckets := apis;
    }

    /** The lock of the key's shard is poisoned. */
    ghost predicate Dead(key: Pubkey)
      requires |key.bytes| == KEY_BYTES && pow2 < WORD_BITS && |buckets| == Pow2(pow2)
      reads buckets
    {
      buckets[ShardOf(key)].dead
    }

    method ReadValue(key: Pubkey, ghost m: map<Pubkey, Value<T>>) returns (r: Option<Value<T>>)
      requires |key.bytes| == KEY_BYTES && StandsFor(m) && !Dead(key)
      ensures r == Get(m, key)
    {
      var ix := ShardOf(key);
      PartLookup(m, pow2, key);
      assert ShardIs(ix, Part(m, pow2, ix));
      r := buckets[ix].ReadValue(key);
    }

    /** The objects of all shards but one. */
    ghost function Others(ix: nat): set<object>
      reads buckets, Inner()
    {
      set b, o | 0 <= b < |buckets| && b != ix && o in buckets[b].Objects() :: o
    }

    lemma OthersApart(ix: nat)
      requires Separate() && ix < |buckets|
      ensures Others(ix) !! buckets[ix].Objects() && buckets[ix].Objects() <= Objects() && allocated(Others(ix))
      ensures buckets[ix] in buckets[ix].Objects()
    {
    }

    /** New objects of one shard do not make shards overlap. */
    twostate lemma SeparateAfter(ix: nat)
      requires old(Separate()) && ix < |buckets|
      requires forall b :: 0 <= b < |buckets| && b != ix ==>
        buckets[b].Objects() == old(buckets[b].Objects()) && buckets[b].Objects() !! buckets[ix].Objects()
      ensures Separate()
    {
      hide BucketApi.Objects;
    }

    /**
     * A call on shard `at.0` of a map that stood for `at.1`, which touched no object of the
     * other shards: those stand for what they stood for.
     */
    twostate lemma OthersStay(at: (nat, map<Pubkey, Value<T>>))
      requires at.0 < |buckets| && pow2 < WORD_BITS && KeysOk(at.1)
      requires old(forall b :: 0 <= b < |buckets| && b != at.0 ==> ShardIs(b, Part(at.1, pow2, b)))
      requires unchanged(old(Others(at.0)))
      ensures forall b :: 0 <= b < |buckets| && b != at.0 ==>
        && ShardIs(b, Part(at.1, pow2, b))
        && buckets[b].Objects() == old(buckets[b].Objects()) && buckets[b].Objects() <= old(Others(at.0))
    {
      hide BucketApi.Valid, BucketApi.Model, Part, KeysOk;
      forall b | 0 <= b < |buckets| && b != at.0
        ensures buckets[b].Objects() == old(buckets[b].Objects()) && buckets[b].Objects() <= old(Others(at.0))
        ensures ShardIs(b, Part(at.1, pow2, b))
      {
        assert old(ShardIs(b, Part(at.1, pow2, b)));
        assert forall o :: o in old(buckets[b].Objects()) ==> o in old(Others(at.0));
      }
    }

    /** When one shard has changed at one key, the shards stand for the map changed at that key. */
    lemma Reassembled(ix: nat, m: map<Pubkey, Value<T>>, key: Pubkey, v: Option<Value<T>>)
      requires pow2 < WORD_BITS && |buckets| == Pow2(pow2) && KeysOk(m) && Separate()
      requires |key.bytes| == KEY_BYTES && ix == BucketIx(key, pow2) < |buckets|
      requires ShardIs(ix, SetAt(Part(m, pow2, ix), key, v))
      requires forall b :: 0 <= b < |buckets| && b != ix ==> ShardIs(b, Part(m, pow2, b))
      ensures StandsFor(SetAt(m, key, v))
    {
      hide ShardIs, Part, KeysOk, SetAt;
      PartSetAt(m, pow2, ix, key, v);
      forall b | 0 <= b < |buckets|
        ensures ShardIs(b, Part(SetAt(m, key, v), pow2, b))
      {
        PartSetAt(m, pow2, b, key, v);
      }
    }

    method DeleteKey(key: Pubkey, seed: nat, ghost m: map<Pubkey, Value<T>>)
      requires |key.bytes| == KEY_BYTES && StandsFor(m) && !Dead(key)
      modifies buckets[ShardOf(key)].Objects()
      ensures StandsFor(m - {key}) && !Dead(key)
      ensures forall o :: o in Objects() ==> o in old(Objects()) || fresh(o)
    {
      hide BucketApi.Valid, BucketApi.Model, BucketApi.Objects, Part, KeysOk, Others, InsertEffect, AfterAttempt,
        AddToRef;
      var ix := ShardOf(key);
      OthersApart(ix);
      PartLookup(m, pow2, key);
      assert ShardIs(ix, Part(m, pow2, ix));
      ghost var others := Others(ix);
      buckets[ix].DeleteKey(key, seed);
      OthersStay((ix, m));
      assert forall o :: o in others ==> !fresh(o);
      SeparateAfter(ix);
      Reassembled(ix, m, key, None);
    }

    method Insert(key: Pubkey, v: Value<T>, seed: nat, draws: seq<Draw>, ghost m: map<Pubkey, Value<T>>)
      returns (r: Ending, ghost m': map<Pubkey, Value<T>>)
      requires |key.bytes| == KEY_BYTES && StandsFor(m) && !Dead(key)
      modifies buckets[ShardOf(key)].Objects()
      ensures StandsFor(m') && InsertEffect(m, m', key, v, r.Returned?)
      ensures (Dead(key) <==> r.Panicked?) && (r.Panicked? ==> old(buckets[ShardOf(key)].Jammed()))
      ensures forall o :: o in Objects() ==> o in old(Objects()) || fresh(o)
    {
      hide BucketApi.Valid, BucketApi.Model, BucketApi.Objects, Part, KeysOk, Others, InsertEffect, AfterAttempt,
        AddToRef;
      var ix := ShardOf(key);
      OthersApart(ix);
      PartLookup(m, pow2, key);
      assert ShardIs(ix, Part(m, pow2, ix));
      ghost var others := Others(ix);
      r := buckets[ix].Insert(key, v, seed, draws);
      OthersStay((ix, m));
      assert forall o :: o in others ==> !fresh(o);
      SeparateAfter(ix);
      ghost var w := InsertValue(m, Part(m, pow2, ix), buckets[ix].Model(), key, v, r.Returned?);
      Reassembled(ix, m, key, w);
      m' := SetAt(m, key, w);
    }

    method Update(key: Pubkey, f: Option<Value<T>> -> Option<Value<T>>, seed: nat, draws: seq<Draw>,
                  ghost m: map<Pubkey, Value<T>>) returns (r: Ending, ghost m': map<Pubkey, Value<T>>)
      requires |key.bytes| == KEY_BYTES && StandsFor(m) && !Dead(key)
      modifies buckets[ShardOf(key)].Objects()
      ensures StandsFor(m')
      ensures match f(Get(m, key))
              case None => r.Returned? && m' == m - {key}
              case Some(v) => InsertEffect(m, m', key, v, r.Returned?)
      ensures (Dead(key) <==> r.Panicked?) && (r.Panicked? ==> old(buckets[ShardOf(key)].Jammed()))
      ensures forall o :: o in Objects() ==> o in old(Objects()) || fresh(o)
    {
      hide BucketApi.Valid, BucketApi.Model, BucketApi.Objects, Part, KeysOk, Others, InsertEffect, AfterAttempt,
        AddToRef;
      var ix := ShardOf(key);
      OthersApart(ix);
      PartLookup(m, pow2, key);
      assert ShardIs(ix, Part(m, pow2, ix));
      ghost var others := Others(ix);
      r := buckets[ix].Update(key, f, seed, draws);
      OthersStay((ix, m));
      assert forall o :: o in others ==> !fresh(o);
      SeparateAfter(ix);
      ghost var w: Option<Value<T>> := None;
      match f(Get(m, key)) {
        case None =>
        case Some(v) => w := InsertValue(m, Part(m, pow2, ix), buckets[ix].Model(), key, v, r.Returned?);
      }
      Reassembled(ix, m, key, w);
      m' := SetAt(m, key, w);
    }

    method TryInsert(key: Pubkey, v: Value<T>, seed: nat, pos: nat, ghost m: map<Pubkey, Value<T>>)
      returns (err: Option<Buckets.Error>)
      requires |key.bytes| == KEY_BYTES && StandsFor(m) && !Dead(key)
      modifies buckets[ShardOf(key)].Objects()
      ensures StandsFor(AfterAttempt(m, key, v, err)) && !Dead(key)
      ensures forall o :: o in Objects() ==> o in old(Objects()) || fresh(o)
    {
      hide BucketApi.Valid, BucketApi.Model, BucketApi.Objects, Part, KeysOk, Others, InsertEffect, AfterAttempt,
        AddToRef;
      var ix := ShardOf(key);
      OthersApart(ix);
      PartLookup(m, pow2, key);
      assert ShardIs(ix, Part(m, pow2, ix));
      ghost var others := Others(ix);
      err := buckets[ix].TryWrite(key, v, seed, pos);
      OthersStay((ix, m));
      assert forall o :: o in others ==> !fresh(o);
      SeparateAfter(ix);
      ghost var w := AttemptValue(m, Part(m, pow2, ix), key, v, err);
      Reassembled(ix, m, key, w);
    }

    method AddRef(key: Pubkey, seed: nat, ghost m: map<Pubkey, Value<T>>) returns (r: Option<nat>)
      requires |key.bytes| == KEY_BYTES && StandsFor(m) && !Dead(key)
      requires key in m ==> m[key].refCount + 1 < REF_COUNT_LIMIT
      modifies buckets[ShardOf(key)].Objects()
      ensures StandsFor(AddToRef(m, key, 1)) && !Dead(key)
      ensures r == if key in m then Some(m[key].refCount + 1) else None
      ensures forall o :: o in Objects() ==> o in old(Objects()) || fresh(o)
    {
      hide BucketApi.Valid, BucketApi.Model, BucketApi.Objects, Part, KeysOk, Others, InsertEffect, AfterAttempt,
        AddToRef;
      var ix := ShardOf(key);
      OthersApart(ix);
      PartLookup(m, pow2, key);
      assert ShardIs(ix, Part(m, pow2, ix));
      ghost var others := Others(ix);
      r := buckets[ix].AddRef(key, seed);
      OthersStay((ix, m));
      assert forall o :: o in others ==> !fresh(o);
      SeparateAfter(ix);
      ghost var w := RefValue(m, Part(m, pow2, ix), key, 1);
      Reassembled(ix, m, key, w);
    }

    method Unref(key: Pubkey, seed: nat, ghost m: map<Pubkey, Value<T>>) returns (r: Option<nat>)
      requires |key.bytes| == KEY_BYTES && StandsFor(m) && !Dead(key)
      requires key in m ==> 0 < m[key].refCount <= REF_COUNT_LIMIT
      modifies buckets[ShardOf(key)].Objects()
      ensures StandsFor(AddToRef(m, key, -1)) && !Dead(key)
      ensures r == if key in m then Some(m[key].refCount - 1) else None
      ensures forall o :: o in Objects() ==> o in old(Objects()) || fresh(o)
    {
      hide BucketApi.Valid, BucketApi.Model, BucketApi.Objects, Part, KeysOk, Others, InsertEffect, AfterAttempt,
        AddToRef;
      var ix := ShardOf(key);
      OthersApart(ix);
      PartLookup(m, pow2, key);
      assert ShardIs(ix, Part(m, pow2, ix));
      ghost var others := Others(ix);
      r := buckets[ix].Unref(key, seed);
      OthersStay((ix, m));
      assert forall o :: o in others ==> !fresh(o);
      SeparateAfter(ix);
      ghost var w := RefValue(m, Part(m, pow2, ix), key, -1);
      Reassembled(ix, m, key, w);
    }
  }

  /** What an insert into one shard leaves at its key, and that it does the same to the whole map. */
  lemma InsertValue<T>(m: map<Pubkey, Value<T>>, part: map<Pubkey, Value<T>>, part': map<Pubkey, Value<T>>,
                       key: Pubkey, v: Value<T>, done: bool) returns (w: Option<Value<T>>)
    requires Get(part, key) == Get(m, key) && InsertEffect(part, part', key, v, done)
    ensures part' == SetAt(part, key, w) && InsertEffect(m, SetAt(m, key, w), key, v, done)
  {
    w := Get(part', key);
    assert SetAt(part, key, Get(part, key)) == part;
    assert SetAt(m, key, Get(m, key)) == m;
  }

  lemma AttemptValue<T>(m: map<Pubkey, Value<T>>, part: map<Pubkey, Value<T>>, key: Pubkey, v: Value<T>,
                        err: Option<Buckets.Error>) returns (w: Option<Value<T>>)
    requires Get(part, key) == Get(m, key)
    ensures AfterAttempt(part, key, v, err) == SetAt(part, key, w) && AfterAttempt(m, key, v, err) == SetAt(m, key, w)
  {
    w := Get(AfterAttempt(m, key, v, err), key);
    assert SetAt(part, key, Get(part, key)) == part;
    assert SetAt(m, key, Get(m, key)) == m;
  }

  lemma RefValue<T>(m: map<Pubkey, Value<T>>, part: map<Pubkey, Value<T>>, key: Pubkey, delta: int)
    returns (w: Option<Value<T>>)
    requires Get(part, key) == Get(m, key)
    ensures AddToRef(part, key, delta) == SetAt(part, key, w) && AddToRef(m, key, delta) == SetAt(m, key, w)
  {
    w := Get(AddToRef(m, key, delta), key);
    assert SetAt(part, key, Get(part, key)) == part;
    assert SetAt(m, key, Get(m, key)) == m;
  }
}
