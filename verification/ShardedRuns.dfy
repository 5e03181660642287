/** Runs of the whole map: every write goes to the shard of its key, growers may be at work on any shard. */
module ShardedRuns {
  import opened Powers
  import opened Storage
  import opened IndexEntry
  import opened Shard
  import opened ShardOps
  import opened BucketOps
  import opened GrowProtocol
  import opened KeyShards

  /** A step of one shard. */
  datatype MapStep<!T> = MapStep(shard: nat, step: Step<T>)

  function NewMap<T>(pow2: nat): (r: seq<Api<T>>)
    ensures |r| == Pow2(pow2)
  {
    seq(Pow2(pow2), _ => NewApi<T>())
  }

  /** The shard exists, the step is enabled there, and a write is for a key of that shard. */
  ghost predicate MapEnabled<T>(cfg: Config<T>, pow2: nat, apis: seq<Api<T>>, s: MapStep<T>)
    requires pow2 < WORD_BITS
  {
    && s.shard < |apis|
    && Enabled(cfg, apis[s.shard], s.step)
    && (s.step.Write? ==> |s.step.op.key.bytes| == KEY_BYTES && BucketIx(s.step.op.key, pow2) == s.shard)
  }

  ghost function MapNext<T>(cfg: Config<T>, pow2: nat, apis: seq<Api<T>>, s: MapStep<T>): seq<Api<T>>
    requires pow2 < WORD_BITS && MapEnabled(cfg, pow2, apis, s)
  {
    apis[s.shard := Next(cfg, apis[s.shard], s.step)]
  }

  ghost function MapPlainNext<T>(cfg: Config<T>, pow2: nat, apis: seq<Api<T>>, m: map<Pubkey, Value<T>>, s: MapStep<T>)
    : map<Pubkey, Value<T>>
    requires pow2 < WORD_BITS && MapEnabled(cfg, pow2, apis, s)
  {
    PlainNext(cfg, apis[s.shard], m, s.step)
  }

  ghost predicate MapValidRun<T>(cfg: Config<T>, pow2: nat, apis: seq<Api<T>>, steps: seq<MapStep<T>>)
    requires pow2 < WORD_BITS
    decreases |steps|
  {
    steps == [] ||
    (MapEnabled(cfg, pow2, apis, steps[0]) && MapValidRun(cfg, pow2, MapNext(cfg, pow2, apis, steps[0]), steps[1..]))
  }

  ghost function MapFinal<T>(cfg: Config<T>, pow2: nat, apis: seq<Api<T>>, steps: seq<MapStep<T>>): seq<Api<T>>
    requires pow2 < WORD_BITS && MapValidRun(cfg, pow2, apis, steps)
    decreases |steps|
  {
    if steps == [] then apis else MapFinal(cfg, pow2, MapNext(cfg, pow2, apis, steps[0]), steps[1..])
  }

  ghost function MapPlainFinal<T>(cfg: Config<T>, pow2: nat, apis: seq<Api<T>>, m: map<Pubkey, Value<T>>,
                                  steps: seq<MapStep<T>>)
    : map<Pubkey, Value<T>>
    requires pow2 < WORD_BITS && MapValidRun(cfg, pow2, apis, steps)
    decreases |steps|
  {
    if steps == [] then m
    else MapPlainFinal(cfg, pow2, MapNext(cfg, pow2, apis, steps[0]), MapPlainNext(cfg, pow2, apis, m, steps[0]),
                       steps[1..])
  }

  /** Each shard stands for its part of the map. */
  ghost predicate MapInv<T>(cfg: Config<T>, pow2: nat, apis: seq<Api<T>>, m: map<Pubkey, Value<T>>)
    requires pow2 < WORD_BITS
  {
    && KeysOk(m)
    && |apis| == Pow2(pow2)
    && forall b :: 0 <= b < |apis| ==> ApiInv(cfg, apis[b], Part(m, pow2, b))
  }

  /** What an operation makes of the value of its key. */
  function Effect<T>(v: Option<Value<T>>, op: Op<T>, outcome: Outcome): Option<Value<T>> {
    match op
    case OpInsert(_, w, _) => Some(w)
    case OpTryWrite(_, w, _) =>
      (match outcome
       case Wrote => Some(w)
       case Refused => v
       case RefCountOnly => Some(Value(if v.Some? then v.value.slots else [], w.refCount)))
    case OpUpdate(_, f, _) => f(v)
    case OpDelete(_) => None
    case OpAddRef(_) => if v.Some? then Some(v.value.(refCount := v.value.refCount + 1)) else None
    case OpUnref(_) => if v.Some? && v.value.refCount > 0 then Some(v.value.(refCount := v.value.refCount - 1)) else v
  }

  function SetAt<T>(m: map<Pubkey, Value<T>>, key: Pubkey, v: Option<Value<T>>): map<Pubkey, Value<T>> {
    match v
    case None => m - {key}
    case Some(w) => m[key := w]
  }

  lemma OpIsLocal<T>(m: map<Pubkey, Value<T>>, op: Op<T>, outcome: Outcome)
    ensures PlainOp(m, op, outcome) == SetAt(m, op.key, Effect(Get(m, op.key), op, outcome))
  {
    assert SetAt(m, op.key, Get(m, op.key)) == m;
  }

  lemma PartSetAt<T>(m: map<Pubkey, Value<T>>, pow2: nat, b: nat, key: Pubkey, v: Option<Value<T>>)
    requires KeysOk(m) && pow2 < WORD_BITS && |key.bytes| == KEY_BYTES
    ensures KeysOk(SetAt(m, key, v))
    ensures Part(SetAt(m, key, v), pow2, b) ==
            if BucketIx(key, pow2) == b then SetAt(Part(m, pow2, b), key, v) else Part(m, pow2, b)
  {
    match v
    case None => PartRemove(m, pow2, b, key);
    case Some(w) => PartInsert(m, pow2, b, key, w);
  }

  /** An operation acts on its own shard's part of the map and on no other. */
  lemma PartOp<T>(m: map<Pubkey, Value<T>>, pow2: nat, op: Op<T>, outcome: Outcome, b: nat)
    requires KeysOk(m) && pow2 < WORD_BITS && |op.key.bytes| == KEY_BYTES
    ensures KeysOk(PlainOp(m, op, outcome))
    ensures Part(PlainOp(m, op, outcome), pow2, b) ==
            if BucketIx(op.key, pow2) == b then PlainOp(Part(m, pow2, b), op, outcome) else Part(m, pow2, b)
  {
    PartLookup(m, pow2, op.key);
    hide PlainOp, Effect, SetAt, Part, KeysOk;
    OpIsLocal(m, op, outcome);
    OpIsLocal(Part(m, pow2, b), op, outcome);
    PartSetAt(m, pow2, b, op.key, Effect(Get(m, op.key), op, outcome));
  }

  /** What is left of an operation after a panic also acts on its own shard's part only. */
  lemma PartEffect<T>(cfg: Config<T>, s: Shard<T>, m: map<Pubkey, Value<T>>, pow2: nat, e: Option<Op<T>>, key: Pubkey,
                      b: nat)
    requires Inv(cfg, s) && KeysOk(m) && pow2 < WORD_BITS && |key.bytes| == KEY_BYTES
      && (e.Some? ==> e.value.key == key)
    ensures KeysOk(PlainEffect(cfg, s, m, e))
    ensures Part(PlainEffect(cfg, s, m, e), pow2, b) ==
            if BucketIx(key, pow2) == b then PlainEffect(cfg, s, Part(m, pow2, b), e) else Part(m, pow2, b)
  {
    hide Inv, PlainOp, Part, KeysOk, OutcomeOf, BucketIx;
    match e
    case None =>
    case Some(op) => PartOp(m, pow2, op, OutcomeOf(cfg, s, op), b);
  }

  lemma MapStepKeepsInv<T>(cfg: Config<T>, pow2: nat, apis: seq<Api<T>>, m: map<Pubkey, Value<T>>, s: MapStep<T>)
    requires pow2 < WORD_BITS && MapInv(cfg, pow2, apis, m) && MapEnabled(cfg, pow2, apis, s)
    ensures MapInv(cfg, pow2, MapNext(cfg, pow2, apis, s), MapPlainNext(cfg, pow2, apis, m, s))
  {
    hide ApiInv, Next, PlainEffect, Effective, Ends, Part, KeysOk, Inv, Installed, CanInstall, BucketIx;
    var a := apis[s.shard];
    StepKeepsInv(cfg, a, Part(m, pow2, s.shard), s.step);
    if s.step.Write? && !a.dead {
      var sh := Installed(cfg, a, s.step.seed);
      var e := Effective(cfg, sh, Jammed(a), s.step.op);
      EffectiveKey(cfg, sh, Jammed(a), s.step.op);
      forall b | 0 <= b < |apis|
        ensures KeysOk(PlainEffect(cfg, sh, m, e))
        ensures Part(PlainEffect(cfg, sh, m, e), pow2, b) ==
                if b == s.shard then PlainEffect(cfg, sh, Part(m, pow2, b), e) else Part(m, pow2, b)
      {
        PartEffect(cfg, sh, m, pow2, e, s.step.op.key, b);
      }
    }
  }

  lemma EffectiveKey<T>(cfg: Config<T>, s: Shard<T>, jammed: bool, op: Op<T>)
    requires Inv(cfg, s) && Ends(cfg, s, jammed, op)
    ensures var e := Effective(cfg, s, jammed, op); e.Some? ==> e.value.key == op.key
  {
    hide Inv, Ends, Completes, PanicsUnref, PanicsGrowing;
  }

  lemma {:induction false} MapRunKeepsInv<T>(cfg: Config<T>, pow2: nat, apis: seq<Api<T>>, m: map<Pubkey, Value<T>>,
                                             steps: seq<MapStep<T>>)
    requires pow2 < WORD_BITS && MapInv(cfg, pow2, apis, m) && MapValidRun(cfg, pow2, apis, steps)
    ensures MapInv(cfg, pow2, MapFinal(cfg, pow2, apis, steps), MapPlainFinal(cfg, pow2, apis, m, steps))
    decreases |steps|
  {
    hide MapInv, MapEnabled, MapNext, MapPlainNext;
    if steps != [] {
      MapStepKeepsInv(cfg, pow2, apis, m, steps[0]);
      MapRunKeepsInv(cfg, pow2, MapNext(cfg, pow2, apis, steps[0]), MapPlainNext(cfg, pow2, apis, m, steps[0]),
                     steps[1..]);
    }
  }

  lemma NewMapInv<T>(cfg: Config<T>, pow2: nat)
    requires pow2 < WORD_BITS
    ensures MapInv(cfg, pow2, NewMap<T>(pow2), map[])
  {
    hide ApiInv;
    var m0: map<Pubkey, Value<T>> := map[];
    NewApiInv(cfg);
    forall b | 0 <= b < Pow2(pow2)
      ensures ApiInv(cfg, NewMap<T>(pow2)[b], Part(m0, pow2, b))
    {
      assert Part(m0, pow2, b) == map[];
    }
  }

  /**
   * For any power-of-two number of shards and any interleaving of writers and growers
   * on them, with or without failed assertions, every read that returns gives the value
   * in one plain map to which all writes were applied in order.
   */
  lemma MapRunRefinesPlainMap<T>(cfg: Config<T>, pow2: nat, steps: seq<MapStep<T>>, key: Pubkey)
    requires pow2 < WORD_BITS && MapValidRun(cfg, pow2, NewMap<T>(pow2), steps) && |key.bytes| == KEY_BYTES
    ensures var apis := MapFinal(cfg, pow2, NewMap<T>(pow2), steps);
            var m := MapPlainFinal(cfg, pow2, NewMap<T>(pow2), map[], steps);
            && BucketIx(key, pow2) < |apis|
            && var a := apis[BucketIx(key, pow2)];
               && (a.bucket.Some? ==> Inv(cfg, a.bucket.value))
               && (!a.dead ==> ReadApi(cfg, a, key) == Get(m, key))
  {
    hide Inv, Represents, Part, ProtocolOk;
    NewMapInv(cfg, pow2);
    MapRunKeepsInv(cfg, pow2, NewMap<T>(pow2), map[], steps);
    var apis := MapFinal(cfg, pow2, NewMap<T>(pow2), steps);
    var m := MapPlainFinal(cfg, pow2, NewMap<T>(pow2), map[], steps);
    BucketIxInRange(key, pow2);
    PartLookup(m, pow2, key);
    var ix := BucketIx(key, pow2);
    ReadApiIsLookup(cfg, apis[ix], Part(m, pow2, ix), key);
  }
}
