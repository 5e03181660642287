/**
 * What can hold a call up: growers can always finish by themselves, and a writer waits for
 * nothing but growers and its own loop. A failed index grow leaves the slots as they are for good.
 */
module GrowLiveness {
  import opened Storage
  import opened IndexEntry
  import opened Shard
  import opened ShardOps
  import opened BucketSpec
  import opened BucketInsert
  import opened BucketOps
  import opened GrowProtocol

  // ---------- growers finish ----------

  ghost function Starting<T>(growers: map<nat, Grower<T>>): set<nat> {
    set t | t in growers && growers[t].Built?
  }

  /** The actions the growers still have before them: two for each that has published nothing, one for the others. */
  ghost function StepsLeft<T>(a: Api<T>): nat {
    |a.growers| + |Starting(a.growers)|
  }

  /** While there are growers one of them can act: the one that holds the mutex, or any if it is free. */
  lemma SomeGrowerCanAct<T>(cfg: Config<T>, a: Api<T>) returns (t: nat)
    requires a.growers != map[]
    ensures t in a.growers && Enabled(cfg, a, Publish(t))
  {
    if !MutexFree(a) {
      t :| t in a.growers && a.growers[t].IndexPlaced?;
    } else {
      t :| t in a.growers;
    }
  }

  lemma GrowerGone<T>(growers: map<nat, Grower<T>>, t: nat)
    requires t in growers
    ensures |growers - {t}| == |growers| - 1
    ensures |Starting(growers - {t})| == |Starting(growers)| - if growers[t].Built? then 1 else 0
  {
    assert (growers - {t}).Keys == growers.Keys - {t};
    assert |growers - {t}| == |(growers - {t}).Keys| && |growers| == |growers.Keys|;
    assert Starting(growers - {t}) == Starting(growers) - {t};
  }

  lemma GrowerOn<T>(growers: map<nat, Grower<T>>, t: nat, g: Grower<T>)
    requires t in growers && growers[t].Built? && !g.Built?
    ensures |growers[t := g]| == |growers|
    ensures |Starting(growers[t := g])| == |Starting(growers)| - 1
  {
    assert growers[t := g].Keys == growers.Keys;
    assert |growers[t := g]| == |growers[t := g].Keys| && |growers| == |growers.Keys|;
    assert Starting(growers[t := g]) == Starting(growers) - {t};
  }

  /** Every action of a grower leaves fewer to be done. */
  lemma PublishShortens<T>(a: Api<T>, t: nat)
    requires t in a.growers
    ensures StepsLeft(Published(a, t)) < StepsLeft(a)
  {
    hide Starting;
    GrowerGone(a.growers, t);
    match a.growers[t]
    case Built(g) =>
      GrowerOn(a.growers, t, DataCounted(g));
      GrowerOn(a.growers, t, IndexPlaced(g));
    case IndexPlaced(_) =>
    case DataCounted(_) =>
  }

  /** From every state the growers alone can finish, in as many actions as they have before them or fewer. */
  lemma {:induction false} GrowersCanFinish<T>(cfg: Config<T>, a: Api<T>) returns (steps: seq<Step<T>>)
    ensures |steps| <= StepsLeft(a) && (forall s :: s in steps ==> s.Publish?)
    ensures ValidRun(cfg, a, steps) && Final(cfg, a, steps).growers == map[]
    decreases StepsLeft(a)
  {
    hide Published, Starting;
    if a.growers == map[] {
      steps := [];
    } else {
      var t := SomeGrowerCanAct(cfg, a);
      PublishShortens(a, t);
      var rest := GrowersCanFinish(cfg, Published(a, t));
      steps := [Publish(t)] + rest;
      RunOne(cfg, a, Publish(t), rest);
    }
  }

  // ---------- writers get in ----------

  /** The operation ends at once, whatever the random choices: it makes no more than one attempt. */
  ghost predicate Single<T>(m: map<Pubkey, Value<T>>, op: Op<T>) {
    || op.OpTryWrite? || op.OpDelete?
    || (op.OpAddRef? && (op.key in m ==> m[op.key].refCount + 1 < 0x1_0000_0000_0000_0000))
    || (op.OpUnref? && (op.key in m ==> m[op.key].refCount <= 0x1_0000_0000_0000_0000))
  }

  /** Such a writer waits for growers and for nothing else. */
  lemma WriterWaitsForGrowers<T>(cfg: Config<T>, a: Api<T>, m: map<Pubkey, Value<T>>, op: Op<T>, seed: nat)
    requires ApiInv(cfg, a, m) && !a.dead && Single(m, op)
    ensures Enabled(cfg, a, Write(op, seed)) <==> a.growers == map[]
  {
    hide Inv, Represents, Contents, SlotsOk, SameContents, Installed, TryWrite;
    if a.growers == map[] {
      InstalledOk(cfg, a, m, seed);
      ReadIsLookup(cfg, Installed(cfg, a, seed), m, op.key);
    }
  }

  /** An insert into a bucket that is not jammed waits for growers, and for its own loop to end. */
  lemma InsertWaits<T>(cfg: Config<T>, a: Api<T>, m: map<Pubkey, Value<T>>, op: Op<T>, seed: nat)
    requires ApiInv(cfg, a, m) && !a.dead && !Jammed(a) && op.OpInsert?
    ensures Enabled(cfg, a, Write(op, seed)) <==>
            && a.growers == map[] && CanInstall(a) && Inv(cfg, Installed(cfg, a, seed))
            && Insert(cfg, Installed(cfg, a, seed), op.key, op.v, op.draws).done
  {
    hide Inv, Represents, Contents, SlotsOk, SameContents, Installed, Insert, TryWrite;
  }

  /** Writing to a present key with two draws or more never waits for its own loop. */
  lemma UpdateGetsIn<T>(cfg: Config<T>, a: Api<T>, m: map<Pubkey, Value<T>>, op: Op<T>, seed: nat)
    requires ApiInv(cfg, a, m) && !a.dead && !Jammed(a) && a.growers == map[] && cfg.maxSearch >= 2
    requires op.OpInsert? && op.key in m && |op.draws| >= 2
    ensures Enabled(cfg, a, Write(op, seed))
  {
    hide ApiInv, Represents, Insert;
    InstalledOk(cfg, a, m, seed);
    InsertProgress(cfg, Installed(cfg, a, seed), m, op.key, op.v, op.draws);
    InsertWaits(cfg, a, m, op, seed);
  }

  /** The operation comes down to inserting v. */
  ghost predicate Stores<T>(m: map<Pubkey, Value<T>>, op: Op<T>, v: Value<T>) {
    (op.OpInsert? && op.v == v) || (op.OpUpdate? && op.f(Get(m, op.key)) == Some(v))
  }

  /**
   * On a jammed bucket an insert has one attempt. It returns if that succeeds, and else it kills
   * the lock as soon as the grow has built something; only a grow that builds nothing holds it up.
   */
  lemma JammedStore<T>(cfg: Config<T>, a: Api<T>, m: map<Pubkey, Value<T>>, op: Op<T>, v: Value<T>, seed: nat)
    requires ApiInv(cfg, a, m) && !a.dead && Jammed(a) && a.growers == map[]
    requires Stores(m, op, v) && op.draws != []
    ensures a.bucket.Some? && Inv(cfg, a.bucket.value)
    ensures var (s1, err) := TryWrite(cfg, a.bucket.value, op.key, v.slots, v.refCount, op.draws[0].pos);
            && (err.Some? ==> CanGrow(s1, err.value))
            && (Enabled(cfg, a, Write(op, seed)) <==>
                  err.None? || Grow(cfg, s1, err.value, op.draws[0].seeds).Grew?)
            && (Enabled(cfg, a, Write(op, seed)) ==>
                  var a' := Next(cfg, a, Write(op, seed));
                  a'.bucket == Some(s1) && (a'.dead <==> err.Some?))
  {
    hide Inv, Represents, Contents, SlotsOk, SameContents, TryWrite, Grow, CanGrow;
    var s := a.bucket.value;
    ReadIsLookup(cfg, s, m, op.key);
    RoundCanGrow(cfg, s, op.key, v, op.draws[0]);
  }

  /** Taking a reference from a key that has none kills the lock and changes nothing; no other single attempt does. */
  lemma UnrefPanics<T>(cfg: Config<T>, a: Api<T>, m: map<Pubkey, Value<T>>, op: Op<T>, seed: nat)
    requires ApiInv(cfg, a, m) && !a.dead && Single(m, op) && a.growers == map[]
    ensures Enabled(cfg, a, Write(op, seed))
    ensures var a' := Next(cfg, a, Write(op, seed));
            && (a'.dead <==> op.OpUnref? && op.key in m && m[op.key].refCount == 0)
            && (a'.dead ==> PlainNext(cfg, a, m, Write(op, seed)) == m)
  {
    hide Inv, Represents, Contents, SlotsOk, SameContents, Installed, TryWrite, DeleteKey, ChangeRef;
    WriterWaitsForGrowers(cfg, a, m, op, seed);
    InstalledOk(cfg, a, m, seed);
    ReadIsLookup(cfg, Installed(cfg, a, seed), m, op.key);
  }

  /** Behind a dead lock every call comes back at once, with a panic, and changes nothing. */
  lemma DeadCalls<T>(cfg: Config<T>, a: Api<T>, op: Op<T>, seed: nat, t: nat, err: Error, seeds: seq<nat>)
    requires ProtocolOk(a) && a.dead
    ensures Enabled(cfg, a, Write(op, seed)) && Next(cfg, a, Write(op, seed)) == a
    ensures Enabled(cfg, a, StartGrow(t, err, seeds)) && Next(cfg, a, StartGrow(t, err, seeds)) == a
  {
    hide Inv, SlotsOk, Installed, Ends, Grow;
  }

  // ---------- a failed index grow ----------

  /** A grower that fails at the counter with the mutex in its hands is gone and leaves the mutex poisoned. */
  lemma FailedIndexPoisons<T>(cfg: Config<T>, a: Api<T>, t: nat)
    requires t in a.growers && a.growers[t].IndexPlaced? && a.active > 0
    ensures Enabled(cfg, a, Publish(t))
    ensures var a' := Next(cfg, a, Publish(t));
            a'.poisoned && Jammed(a') && t !in a'.growers && a'.newIndex == a.newIndex && a'.newData == a.newData
  {
  }

  lemma PoisonedStep<T>(cfg: Config<T>, a: Api<T>, step: Step<T>)
    requires a.poisoned && Jammed(a) && Enabled(cfg, a, step)
    ensures var a' := Next(cfg, a, step);
            a'.poisoned && Jammed(a') && a'.newIndex == a.newIndex && a'.newData == a.newData
  {
    hide Inv, Ends, AfterWrite, PanicsGrowing, PanicsUnref, Grow, CanGrow, Installed, FirstGrow;
  }

  /** Once the mutex is poisoned no run fills or empties a slot again. */
  lemma {:induction false} PoisonedForGood<T>(cfg: Config<T>, a: Api<T>, steps: seq<Step<T>>)
    requires a.poisoned && Jammed(a) && ValidRun(cfg, a, steps)
    ensures var a' := Final(cfg, a, steps);
            a'.poisoned && a'.newIndex == a.newIndex && a'.newData == a.newData
    decreases |steps|
  {
    hide Jammed, Enabled, Next;
    if steps != [] {
      PoisonedStep(cfg, a, steps[0]);
      PoisonedForGood(cfg, Next(cfg, a, steps[0]), steps[1..]);
    }
  }
}
