/**
 * The lock discipline around one bucket. Writers hold the write lock and install a
 * pending reallocation before they change anything. Growers hold the read lock, so
 * several may run at once, each publishing in two separate actions: the storage goes
 * into a mutex-protected slot and an atomic counter of active reallocations goes up,
 * in this order for an index and in the other order for a data storage.
 *
 * Bumping a counter that is not zero panics. A panic under the read lock ends the
 * thread only; if it held the mutex of the slots, that mutex is poisoned. A panic under
 * the write lock poisons the lock of the bucket, and every later call panics at once.
 */
module GrowProtocol {
  import opened Storage
  import opened IndexEntry
  import opened Shard
  import opened ShardOps
  import opened BucketSpec
  import opened BucketInsert
  import opened BucketOps

  /** What a thread that holds the read lock still has to do. */
  datatype Grower<T> =
    | Built(g: Grown<T>)          // nothing published
    | IndexPlaced(g: Grown<T>)    // slot filled, mutex held, counter not yet bumped
    | DataCounted(g: Grown<T>)    // counter bumped, slot not yet filled

  /** `poisoned` is about the mutex of the slots, `dead` about the lock of the bucket. */
  datatype Api<T> = Api(
    bucket: Option<Shard<T>>,
    active: nat,
    newIndex: Option<Grown<T>>,
    newData: Option<Grown<T>>,
    growers: map<nat, Grower<T>>,
    poisoned: bool,
    dead: bool)

  datatype Step<!T> =
    | StartGrow(thread: nat, err: Error, seeds: seq<nat>)
    | Publish(thread: nat)
    | Write(op: Op<T>, seed: nat)

  function NewApi<T>(): Api<T> {
    Api(None, 0, None, None, map[], false, false)
  }

  /** The assertion on the counter has failed at some time. */
  predicate Jammed<T>(a: Api<T>) {
    a.active >= 2
  }

  predicate MutexFree<T>(a: Api<T>) {
    forall t :: t in a.growers ==> !a.growers[t].IndexPlaced?
  }

  // ---------- growers ----------

  /** A grow request does something: the bucket is there and the request is not a panic by itself. */
  predicate Grows<T>(a: Api<T>, err: Error) {
    !a.dead && a.bucket.Some? && CanGrow(a.bucket.value, err)
  }

  /** add_reallocation: thread t goes on as in `next`, or panics and is gone. */
  function Bump<T>(a: Api<T>, t: nat, next: map<nat, Grower<T>>): Api<T> {
    a.(active := a.active + 1, growers := if a.active == 0 then next else a.growers - {t})
  }

  /** The next action of a grower. With the mutex poisoned, taking it is a panic. */
  function Published<T>(a: Api<T>, t: nat): Api<T>
    requires t in a.growers
  {
    var gone := a.growers - {t};
    match a.growers[t]
    case Built(g) =>
      if g.NewData? then Bump(a, t, a.growers[t := DataCounted(g)])
      else if a.poisoned then a.(growers := gone)
      else a.(newIndex := Some(g), growers := a.growers[t := IndexPlaced(g)])
    case IndexPlaced(g) => Bump(a, t, gone).(poisoned := a.poisoned || a.active != 0)
    case DataCounted(g) => if a.poisoned then a.(growers := gone) else a.(newData := Some(g), growers := gone)
  }

  // ---------- writers ----------

  /** handle_delayed_grows, as run by every writer; the unwrap needs a filled slot. */
  predicate CanInstall<T>(a: Api<T>) {
    a.bucket.Some? && a.active == 1 ==> a.newIndex.Some? || a.newData.Some?
  }

  function Installed<T>(cfg: Config<T>, a: Api<T>, seed: nat): Shard<T>
    requires CanInstall(a)
  {
    match a.bucket
    case None => EmptyShard(cfg, seed)
    case Some(s) =>
      if a.active == 1 then
        Install(cfg, s, if a.newIndex.Some? then a.newIndex.value else a.newData.value)
      else s
  }

  /** The insert that an operation comes down to. */
  function InsertOf<T>(cfg: Config<T>, s: Shard<T>, op: Op<T>): Option<(Pubkey, Value<T>, seq<Draw>)>
    requires Inv(cfg, s)
  {
    match op
    case OpInsert(key, v, draws) => Some((key, v, draws))
    case OpUpdate(key, f, draws) =>
      (match f(Read(cfg, s, key))
       case None => None
       case Some(v) => Some((key, v, draws)))
    case _ => None
  }

  /** The first attempt of an insert fails, so it has to grow. */
  predicate MustGrow<T>(cfg: Config<T>, s: Shard<T>, op: Op<T>)
    requires Inv(cfg, s)
  {
    match InsertOf(cfg, s, op)
    case None => false
    case Some((key, v, draws)) =>
      draws != [] && TryWrite(cfg, s, key, v.slots, v.refCount, draws[0].pos).1.Some?
  }

  /** What the grow after a failed first attempt builds. */
  function FirstGrow<T>(cfg: Config<T>, s: Shard<T>, op: Op<T>): GrowOutcome<T>
    requires Inv(cfg, s) && MustGrow(cfg, s, op)
  {
    var (key, v, draws) := InsertOf(cfg, s, op).value;
    RoundCanGrow(cfg, s, key, v, draws[0]);
    var (s1, err) := TryWrite(cfg, s, key, v.slots, v.refCount, draws[0].pos);
    Grow(cfg, s1, err.value, draws[0].seeds)
  }

  /** On a jammed bucket a grow under the write lock panics as soon as it has built something. */
  predicate PanicsGrowing<T>(cfg: Config<T>, s: Shard<T>, jammed: bool, op: Op<T>)
    requires Inv(cfg, s)
  {
    jammed && MustGrow(cfg, s, op) && FirstGrow(cfg, s, op).Grew?
  }

  /** A decrement of a ref count of zero panics before it changes anything. */
  predicate PanicsUnref<T>(cfg: Config<T>, s: Shard<T>, op: Op<T>)
    requires Inv(cfg, s)
  {
    op.OpUnref? && var v := Read(cfg, s, op.key); v.Some? && v.value.refCount == 0
  }

  /** The operation comes to an end: it returns, or it panics. */
  predicate Ends<T>(cfg: Config<T>, s: Shard<T>, jammed: bool, op: Op<T>)
    requires Inv(cfg, s)
  {
    || PanicsUnref(cfg, s, op)
    || PanicsGrowing(cfg, s, jammed, op)
    || (Completes(cfg, s, op) && !(jammed && MustGrow(cfg, s, op)))
  }

  /** What of an operation takes effect: all of it, or the first attempt only, or nothing. */
  function Effective<T>(cfg: Config<T>, s: Shard<T>, jammed: bool, op: Op<T>): (r: Option<Op<T>>)
    requires Inv(cfg, s) && Ends(cfg, s, jammed, op)
    ensures r.Some? ==> Completes(cfg, s, r.value) && r.value.key == op.key
  {
    if PanicsUnref(cfg, s, op) then None
    else if PanicsGrowing(cfg, s, jammed, op) then
      var (key, v, draws) := InsertOf(cfg, s, op).value;
      Some(OpTryWrite(key, v, draws[0].pos))
    else Some(op)
  }

  function AfterWrite<T>(cfg: Config<T>, s: Shard<T>, jammed: bool, op: Op<T>): Shard<T>
    requires Inv(cfg, s) && Ends(cfg, s, jammed, op)
  {
    match Effective(cfg, s, jammed, op)
    case None => s
    case Some(e) => Perform(cfg, s, e)
  }

  /** The slots and the counter after a writer has taken what is pending. */
  function Taken<T>(a: Api<T>): Api<T> {
    if a.bucket.Some? && a.active == 1 then a.(active := 0, newIndex := None, newData := None) else a
  }

  /** A grow under the write lock that panics, at the counter or at the poisoned mutex. */
  function PanickedGrow<T>(a: Api<T>, g: Grown<T>): Api<T> {
    if g.NewData? then a.(active := a.active + 1)
    else if a.poisoned then a
    else a.(newIndex := Some(g), active := a.active + 1, poisoned := true)
  }

  function Written<T>(cfg: Config<T>, a: Api<T>, op: Op<T>, seed: nat): Api<T>
    requires CanInstall(a) && Inv(cfg, Installed(cfg, a, seed)) && Ends(cfg, Installed(cfg, a, seed), Jammed(a), op)
  {
    var s := Installed(cfg, a, seed);
    var a' := Taken(a).(bucket := Some(AfterWrite(cfg, s, Jammed(a), op)));
    if PanicsGrowing(cfg, s, Jammed(a), op) then PanickedGrow(a', FirstGrow(cfg, s, op).g).(dead := true)
    else if PanicsUnref(cfg, s, op) then a'.(dead := true)
    else a'
  }

  // ---------- steps ----------

  /** Whether a step can be taken. Only waiting for a lock, or a loop that has not ended, holds one up. */
  ghost predicate Enabled<T>(cfg: Config<T>, a: Api<T>, step: Step<T>) {
    match step
    case StartGrow(t, err, seeds) =>
      t !in a.growers && (Grows(a, err) ==> !Grow(cfg, a.bucket.value, err, seeds).Unfinished?)
    case Publish(t) =>
      && t in a.growers
      && (a.growers[t].DataCounted? || (a.growers[t].Built? && a.growers[t].g.NewIndex?) ==> MutexFree(a))
    case Write(op, seed) =>
      a.dead ||
      (&& a.growers == map[]
       && CanInstall(a) && Inv(cfg, Installed(cfg, a, seed)) && Ends(cfg, Installed(cfg, a, seed), Jammed(a), op))
  }

  /** On a dead lock, and for a request that panics on its own, nothing changes. */
  ghost function Next<T>(cfg: Config<T>, a: Api<T>, step: Step<T>): Api<T>
    requires Enabled(cfg, a, step)
  {
    match step
    case StartGrow(t, err, seeds) =>
      if !Grows(a, err) then a
      else
        (match Grow(cfg, a.bucket.value, err, seeds)
         case Grew(g) => a.(growers := a.growers[t := Built(g)])
         case Stale => a)
    case Publish(t) => Published(a, t)
    case Write(op, seed) => if a.dead then a else Written(cfg, a, op, seed)
  }

  /** Holds in every reachable state. What is pending matters only as long as it can be installed. */
  ghost predicate ApiInv<T>(cfg: Config<T>, a: Api<T>, m: map<Pubkey, Value<T>>) {
    && (a.bucket.None? ==> m == map[])
    && (a.bucket.Some? ==>
          && Inv(cfg, a.bucket.value) && Represents(a.bucket.value, m)
          && (forall t :: t in a.growers ==> SameContents(cfg, a.bucket.value, a.growers[t].g))
          && (!Jammed(a) && a.newIndex.Some? ==> SameContents(cfg, a.bucket.value, a.newIndex.value))
          && (!Jammed(a) && a.newData.Some? ==> SameContents(cfg, a.bucket.value, a.newData.value)))
    && ProtocolOk(a)
  }

  ghost predicate ProtocolOk<T>(a: Api<T>) {
    && (a.bucket.None? ==> a.growers == map[] && a.active == 0 && !a.dead)
    && (a.dead ==> a.growers == map[] && a.active != 1)
    && (!Jammed(a) ==> !a.poisoned && SlotsOk(a))
  }

  ghost predicate Placing<T>(a: Api<T>) {
    exists t :: t in a.growers && a.growers[t].IndexPlaced?
  }

  ghost predicate Counting<T>(a: Api<T>) {
    exists t :: t in a.growers && a.growers[t].DataCounted?
  }

  /** The counter against the two slots and the growers in between. */
  ghost predicate SlotsOk<T>(a: Api<T>) {
    && a.active <= 1
    && (forall t, u :: t in a.growers && u in a.growers && a.growers[t].IndexPlaced? && a.growers[u].IndexPlaced? ==>
          t == u)
    && (forall t, u :: t in a.growers && u in a.growers && a.growers[t].DataCounted? && a.growers[u].DataCounted? ==>
          t == u)
    && (forall t :: t in a.growers && a.growers[t].IndexPlaced? ==> a.newIndex.Some? && a.growers[t].g.NewIndex?)
    && (forall t :: t in a.growers && a.growers[t].DataCounted? ==> a.growers[t].g.NewData?)
    && (a.newData.Some? ==> a.active == 1 && a.newData.value.NewData? && !Counting(a))
    && (a.newIndex.Some? ==> a.newIndex.value.NewIndex?)
    && (a.newIndex.Some? && a.active == 0 ==> Placing(a))
    && (a.active == 1 ==> a.newIndex.Some? || a.newData.Some? || Counting(a))
    && (Counting(a) ==> a.active == 1)
    && (a.newIndex.Some? && (a.newData.Some? || Counting(a)) ==> Placing(a))
  }

  /**
   * With no grower under way and the counter not jammed, the counter is the number of
   * filled slots: at most one reallocation is pending, and a writer that sees the
   * counter finds it.
   */
  lemma AtMostOnePending<T>(a: Api<T>)
    requires SlotsOk(a) && a.growers == map[]
    ensures a.active == (if a.newIndex.Some? then 1 else 0) + (if a.newData.Some? then 1 else 0)
    ensures CanInstall(a)
  {
    assert !Placing(a) && !Counting(a);
  }

  /**
   * No writer is held up by anything but the read locks of growers, and what it starts
   * from stands for the same map as before the pending grow was installed.
   */
  lemma InstalledOk<T>(cfg: Config<T>, a: Api<T>, m: map<Pubkey, Value<T>>, seed: nat)
    requires ApiInv(cfg, a, m) && a.growers == map[]
    ensures CanInstall(a)
    ensures Inv(cfg, Installed(cfg, a, seed)) && Represents(Installed(cfg, a, seed), m)
  {
    hide Inv, Represents, Contents, Install, SlotsOk;
    if a.bucket.None? {
      EmptyShardOk(cfg, seed);
    } else if a.active == 1 {
      AtMostOnePending(a);
      var s := a.bucket.value;
      var g := if a.newIndex.Some? then a.newIndex.value else a.newData.value;
      ContentsRepresented(cfg, s);
      RepresentsUnique(s, m, Contents(cfg, s));
      ContentsRepresented(cfg, Install(cfg, s, g));
    }
  }

  /** What a write does to the plain map. */
  ghost function PlainEffect<T>(cfg: Config<T>, s: Shard<T>, m: map<Pubkey, Value<T>>, e: Option<Op<T>>)
    : map<Pubkey, Value<T>>
    requires Inv(cfg, s)
  {
    match e
    case None => m
    case Some(op) => PlainOp(m, op, OutcomeOf(cfg, s, op))
  }

  /** The plain map after a step. */
  ghost function PlainNext<T>(cfg: Config<T>, a: Api<T>, m: map<Pubkey, Value<T>>, step: Step<T>): map<Pubkey, Value<T>>
    requires Enabled(cfg, a, step)
  {
    match step
    case Write(op, seed) =>
      if a.dead then m
      else
        var s := Installed(cfg, a, seed);
        PlainEffect(cfg, s, m, Effective(cfg, s, Jammed(a), op))
    case _ => m
  }

  /** A change to the state of thread t alone carries over what other threads are doing. */
  lemma OtherGrowers<T>(a: Api<T>, a': Api<T>, t: nat)
    requires forall u :: u != t ==> (u in a.growers <==> u in a'.growers)
    requires forall u :: u != t && u in a.growers ==> a'.growers[u] == a.growers[u]
    ensures Placing(a) && !(t in a.growers && a.growers[t].IndexPlaced?) ==> Placing(a')
    ensures Counting(a) && !(t in a.growers && a.growers[t].DataCounted?) ==> Counting(a')
    ensures Counting(a') && !(t in a'.growers && a'.growers[t].DataCounted?) ==> Counting(a)
  {
    if u :| u != t && u in a.growers && a.growers[u].IndexPlaced? {
      assert a'.growers[u].IndexPlaced?;
    }
    if u :| u != t && u in a.growers && a.growers[u].DataCounted? {
      assert a'.growers[u].DataCounted?;
    }
    if u :| u != t && u in a'.growers && a'.growers[u].DataCounted? {
      assert a.growers[u].DataCounted?;
    }
  }

  lemma PlaceIndexSlots<T>(a: Api<T>, t: nat)
    requires SlotsOk(a) && t in a.growers && a.growers[t].Built? && a.growers[t].g.NewIndex? && MutexFree(a)
    ensures SlotsOk(a.(newIndex := Some(a.growers[t].g), growers := a.growers[t := IndexPlaced(a.growers[t].g)]))
  {
    var a' := a.(newIndex := Some(a.growers[t].g), growers := a.growers[t := IndexPlaced(a.growers[t].g)]);
    OtherGrowers(a, a', t);
    assert Placing(a') by { assert a'.growers[t].IndexPlaced?; }
  }

  lemma CountIndexSlots<T>(a: Api<T>, t: nat)
    requires SlotsOk(a) && t in a.growers && a.growers[t].IndexPlaced? && a.active == 0
    ensures SlotsOk(a.(active := 1, growers := a.growers - {t}))
  {
    OtherGrowers(a, a.(active := 1, growers := a.growers - {t}), t);
  }

  lemma CountDataSlots<T>(a: Api<T>, t: nat)
    requires SlotsOk(a) && t in a.growers && a.growers[t].Built? && a.growers[t].g.NewData? && a.active == 0
    ensures SlotsOk(a.(active := 1, growers := a.growers[t := DataCounted(a.growers[t].g)]))
  {
    var a' := a.(active := 1, growers := a.growers[t := DataCounted(a.growers[t].g)]);
    OtherGrowers(a, a', t);
    assert Counting(a') by { assert a'.growers[t].DataCounted?; }
    assert !Counting(a);
  }

  lemma PlaceDataSlots<T>(a: Api<T>, t: nat)
    requires SlotsOk(a) && t in a.growers && a.growers[t].DataCounted? && MutexFree(a)
    ensures SlotsOk(a.(newData := Some(a.growers[t].g), growers := a.growers - {t}))
  {
    var a' := a.(newData := Some(a.growers[t].g), growers := a.growers - {t});
    OtherGrowers(a, a', t);
    assert Counting(a) && !Placing(a);
    assert !Counting(a');
  }

  /** Counter and slots stay consistent as long as the assertion has not failed. */
  lemma SlotsStep<T>(cfg: Config<T>, a: Api<T>, step: Step<T>)
    requires ProtocolOk(a) && Enabled(cfg, a, step)
    ensures ProtocolOk(Next(cfg, a, step))
  {
    hide Inv, Ends, AfterWrite, PanicsGrowing, PanicsUnref, Grow, CanGrow, Installed, CanInstall;
    match step
    case StartGrow(t, err, seeds) =>
      OtherGrowers(a, Next(cfg, a, step), t);
    case Publish(t) =>
      PublishSlots(cfg, a, t);
    case Write(op, seed) =>
      if !a.dead { WriteSlotsOk(cfg, a, op, seed); }
  }

  lemma WriteSlotsOk<T>(cfg: Config<T>, a: Api<T>, op: Op<T>, seed: nat)
    requires ProtocolOk(a) && !a.dead && Enabled(cfg, a, Write(op, seed))
    ensures ProtocolOk(Written(cfg, a, op, seed))
    ensures Jammed(Written(cfg, a, op, seed)) == Jammed(a)
    ensures !Jammed(a) ==> Written(cfg, a, op, seed).active == 0
  {
    hide Inv, Ends, AfterWrite, MustGrow, FirstGrow, PanicsUnref, Installed;
    if !Jammed(a) {
      AtMostOnePending(a);
    }
  }

  lemma PublishSlots<T>(cfg: Config<T>, a: Api<T>, t: nat)
    requires ProtocolOk(a) && Enabled(cfg, a, Publish(t))
    ensures ProtocolOk(Published(a, t))
  {
    hide SlotsOk;
    if !Jammed(Published(a, t)) {
      match a.growers[t]
      case Built(g) =>
        if g.NewIndex? {
          PlaceIndexSlots(a, t);
        } else {
          CountDataSlots(a, t);
        }
      case IndexPlaced(g) => CountIndexSlots(a, t);
      case DataCounted(g) => PlaceDataSlots(a, t);
    }
  }

  /** Every step of every interleaving keeps the invariant, whether or not the assertion fails in it. */
  lemma StepKeepsInv<T>(cfg: Config<T>, a: Api<T>, m: map<Pubkey, Value<T>>, step: Step<T>)
    requires ApiInv(cfg, a, m) && Enabled(cfg, a, step)
    ensures ApiInv(cfg, Next(cfg, a, step), PlainNext(cfg, a, m, step))
  {
    hide Inv, Represents, Contents, Install, SameContents, ProtocolOk, Ends, Effective, AfterWrite, Grow, CanGrow,
      PlainEffect;
    SlotsStep(cfg, a, step);
    match step
    case StartGrow(t, err, seeds) =>
      if Grows(a, err) {
        GrowKeepsContents(cfg, a.bucket.value, m, err, seeds);
      }
    case Publish(t) =>
    case Write(op, seed) =>
      if !a.dead {
        WriteKeepsInv(cfg, a, m, op, seed);
      }
  }

  lemma WriteKeepsInv<T>(cfg: Config<T>, a: Api<T>, m: map<Pubkey, Value<T>>, op: Op<T>, seed: nat)
    requires ApiInv(cfg, a, m) && !a.dead && Enabled(cfg, a, Write(op, seed))
    ensures ApiInv(cfg, Written(cfg, a, op, seed), PlainNext(cfg, a, m, Write(op, seed)))
  {
    hide Inv, Represents, Contents, Install, SameContents, SlotsOk, Ends, Effective, Perform, MustGrow, FirstGrow,
      PlainOp, OutcomeOf, Installed;
    InstalledOk(cfg, a, m, seed);
    WriteSlotsOk(cfg, a, op, seed);
    var s := Installed(cfg, a, seed);
    var e := Effective(cfg, s, Jammed(a), op);
    if e.Some? {
      PerformRefinesPlain(cfg, s, m, e.value);
    }
    if !Jammed(a) {
      AtMostOnePending(Written(cfg, a, op, seed));
    }
  }

  // ---------- whole runs ----------

  /** Steps each enabled in turn. */
  ghost predicate ValidRun<T>(cfg: Config<T>, a: Api<T>, steps: seq<Step<T>>)
    decreases |steps|
  {
    steps == [] || (Enabled(cfg, a, steps[0]) && ValidRun(cfg, Next(cfg, a, steps[0]), steps[1..]))
  }

  ghost function Final<T>(cfg: Config<T>, a: Api<T>, steps: seq<Step<T>>): Api<T>
    requires ValidRun(cfg, a, steps)
    decreases |steps|
  {
    if steps == [] then a else Final(cfg, Next(cfg, a, steps[0]), steps[1..])
  }

  /** The writes of the run, in order, on a plain map. */
  ghost function PlainFinal<T>(cfg: Config<T>, a: Api<T>, m: map<Pubkey, Value<T>>, steps: seq<Step<T>>)
    : map<Pubkey, Value<T>>
    requires ValidRun(cfg, a, steps)
    decreases |steps|
  {
    if steps == [] then m
    else PlainFinal(cfg, Next(cfg, a, steps[0]), PlainNext(cfg, a, m, steps[0]), steps[1..])
  }

  lemma RunOne<T>(cfg: Config<T>, a: Api<T>, step: Step<T>, steps: seq<Step<T>>)
    requires Enabled(cfg, a, step) && ValidRun(cfg, Next(cfg, a, step), steps)
    ensures ValidRun(cfg, a, [step] + steps)
    ensures Final(cfg, a, [step] + steps) == Final(cfg, Next(cfg, a, step), steps)
  {
    assert ([step] + steps)[1..] == steps;
  }

  lemma {:induction false} RunKeepsInv<T>(cfg: Config<T>, a: Api<T>, m: map<Pubkey, Value<T>>, steps: seq<Step<T>>)
    requires ApiInv(cfg, a, m) && ValidRun(cfg, a, steps)
    ensures ApiInv(cfg, Final(cfg, a, steps), PlainFinal(cfg, a, m, steps))
    decreases |steps|
  {
    hide ApiInv, Enabled, Next, PlainNext;
    if steps != [] {
      StepKeepsInv(cfg, a, m, steps[0]);
      RunKeepsInv(cfg, Next(cfg, a, steps[0]), PlainNext(cfg, a, m, steps[0]), steps[1..]);
    }
  }

  /** read_value, which a dead lock turns into a panic, and bucket_len, which takes no lock. */
  function ReadApi<T>(cfg: Config<T>, a: Api<T>, key: Pubkey): Option<Value<T>>
    requires !a.dead && (a.bucket.Some? ==> Inv(cfg, a.bucket.value))
  {
    match a.bucket
    case None => None
    case Some(s) => Read(cfg, s, key)
  }

  function BucketLen<T>(a: Api<T>): nat {
    match a.bucket
    case None => 0
    case Some(s) => s.index.count
  }

  lemma ReadApiIsLookup<T>(cfg: Config<T>, a: Api<T>, m: map<Pubkey, Value<T>>, key: Pubkey)
    requires ApiInv(cfg, a, m)
    ensures !a.dead ==> ReadApi(cfg, a, key) == Get(m, key)
    ensures BucketLen(a) == |m|
  {
    if a.bucket.Some? {
      hide Inv, Represents, Contents;
      var s := a.bucket.value;
      ReadIsLookup(cfg, s, m, key);
      CountIsKeyCount(cfg, s);
      ContentsRepresented(cfg, s);
      RepresentsUnique(s, m, Contents(cfg, s));
    }
  }

  lemma NewApiInv<T>(cfg: Config<T>)
    ensures ApiInv(cfg, NewApi<T>(), map[])
  {
    assert !Placing(NewApi<T>()) && !Counting(NewApi<T>());
  }

  /**
   * For every run of writers and growers from an empty bucket, with or without failed
   * assertions, every read that returns gives the value in a plain map to which the
   * writes were applied in order, and the length is the number of its keys. No grow, no
   * failed grow and nothing left pending loses or invents anything.
   */
  lemma RunRefinesPlainMap<T>(cfg: Config<T>, steps: seq<Step<T>>, key: Pubkey)
    requires ValidRun(cfg, NewApi<T>(), steps)
    ensures var a := Final(cfg, NewApi<T>(), steps);
            var m := PlainFinal(cfg, NewApi<T>(), map[], steps);
            && ApiInv(cfg, a, m)
            && (!a.dead ==> ReadApi(cfg, a, key) == Get(m, key))
            && BucketLen(a) == |m|
  {
    NewApiInv(cfg);
    RunKeepsInv(cfg, NewApi<T>(), map[], steps);
    ReadApiIsLookup(cfg, Final(cfg, NewApi<T>(), steps), PlainFinal(cfg, NewApi<T>(), map[], steps), key);
  }
}
