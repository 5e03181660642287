/** The capacity of an index over whole runs: it never shrinks, and an installed index is larger. */
module IndexRuns {
  import opened Storage
  import opened IndexEntry
  import opened Shard
  import opened ShardOps
  import opened BucketSpec
  import opened BucketInsert
  import opened BucketOps
  import opened GrowProtocol
  import opened IndexGrowth

  lemma RemoveKeepsCapacity<T>(cfg: Config<T>, s: Shard<T>, key: Pubkey)
    requires Inv(cfg, s)
    ensures DeleteKey(cfg, s, key).index.pow2 == s.index.pow2
  {
    hide Inv;
  }

  lemma PerformKeepsCapacity<T>(cfg: Config<T>, s: Shard<T>, op: Op<T>)
    requires Inv(cfg, s) && Completes(cfg, s, op)
    ensures Perform(cfg, s, op).index.pow2 >= s.index.pow2
  {
    hide Inv, Insert, TryWrite, DeleteKey, Read, Rising, Completes;
    match op
    case OpInsert(key, v, draws) => InsertIndexErrorsRise(cfg, s, key, v, draws);
    case OpTryWrite(key, v, pos) => TryWriteKeepsCapacity(cfg, s, key, v.slots, v.refCount, pos);
    case OpUpdate(key, f, draws) =>
      match f(Read(cfg, s, key)) {
        case None => RemoveKeepsCapacity(cfg, s, key);
        case Some(v) => InsertIndexErrorsRise(cfg, s, key, v, draws);
      }
    case OpDelete(key) => RemoveKeepsCapacity(cfg, s, key);
    case OpAddRef(key) =>
    case OpUnref(key) =>
  }

  ghost predicate Larger<T>(s: Shard<T>, g: Grown<T>) {
    g.NewIndex? ==> g.index.pow2 > s.index.pow2
  }

  /** Every index under construction or waiting to be installed is larger than the live one. */
  ghost predicate PendingLarger<T>(a: Api<T>) {
    a.bucket.Some? ==>
      && (forall t :: t in a.growers ==> Larger(a.bucket.value, a.growers[t].g))
      && (!Jammed(a) && a.newIndex.Some? ==> Larger(a.bucket.value, a.newIndex.value))
  }

  /** The step is a write that installs a new index. */
  ghost predicate InstallsIndex<T>(a: Api<T>, step: Step<T>) {
    step.Write? && !a.dead && a.bucket.Some? && a.active == 1 && a.newIndex.Some?
  }

  lemma GrownIsLarger<T>(cfg: Config<T>, s: Shard<T>, err: Error, seeds: seq<nat>)
    requires Inv(cfg, s) && CanGrow(s, err) && Grow(cfg, s, err, seeds).Grew?
    ensures Larger(s, Grow(cfg, s, err, seeds).g)
  {
    hide Inv, GrowIndex;
    if err.IndexNoSpace? {
      GrownIndexHasFree(cfg, s, seeds);
    }
  }

  lemma InstalledCapacity<T>(cfg: Config<T>, a: Api<T>, m: map<Pubkey, Value<T>>, seed: nat)
    requires ApiInv(cfg, a, m) && PendingLarger(a) && a.bucket.Some? && a.growers == map[] && CanInstall(a)
    ensures var s, s' := a.bucket.value, Installed(cfg, a, seed);
            s'.index.pow2 >= s.index.pow2 && (a.active == 1 && a.newIndex.Some? ==> s'.index.pow2 > s.index.pow2)
  {
    hide Inv, Represents, Contents, SameContents;
    if !Jammed(a) {
      AtMostOnePending(a);
    }
  }

  lemma WriteCapacity<T>(cfg: Config<T>, a: Api<T>, m: map<Pubkey, Value<T>>, op: Op<T>, seed: nat)
    requires ApiInv(cfg, a, m) && PendingLarger(a) && !a.dead && Enabled(cfg, a, Write(op, seed))
    ensures var a' := Written(cfg, a, op, seed);
            && PendingLarger(a') && a'.bucket.Some?
            && (a.bucket.Some? ==> a'.bucket.value.index.pow2 >= a.bucket.value.index.pow2)
            && (InstallsIndex(a, Write(op, seed)) ==> a'.bucket.value.index.pow2 > a.bucket.value.index.pow2)
  {
    hide Inv, Represents, Contents, SameContents, Ends, Effective, MustGrow, FirstGrow, Perform, Completes, Installed;
    var s := Installed(cfg, a, seed);
    if a.bucket.Some? { InstalledCapacity(cfg, a, m, seed); }
    match Effective(cfg, s, Jammed(a), op)
    case None =>
    case Some(e) => PerformKeepsCapacity(cfg, s, e);
    if !Jammed(a) {
      AtMostOnePending(a);
    }
  }

  lemma StepCapacity<T>(cfg: Config<T>, a: Api<T>, m: map<Pubkey, Value<T>>, step: Step<T>)
    requires ApiInv(cfg, a, m) && PendingLarger(a) && Enabled(cfg, a, step)
    ensures var a' := Next(cfg, a, step);
            && PendingLarger(a')
            && (a.bucket.Some? ==>
                  a'.bucket.Some? && a'.bucket.value.index.pow2 >= a.bucket.value.index.pow2)
            && (InstallsIndex(a, step) ==> a'.bucket.value.index.pow2 > a.bucket.value.index.pow2)
  {
    hide Inv, Represents, Contents, SameContents, Written, Grow, CanGrow, SlotsOk, Ends;
    match step
    case StartGrow(t, err, seeds) =>
      if Grows(a, err) && Grow(cfg, a.bucket.value, err, seeds).Grew? {
        GrownIsLarger(cfg, a.bucket.value, err, seeds);
      }
    case Publish(t) =>
    case Write(op, seed) =>
      if !a.dead {
        WriteCapacity(cfg, a, m, op, seed);
      }
  }

  /** Somewhere in the run an index is installed. */
  ghost predicate SomeInstall<T>(cfg: Config<T>, a: Api<T>, steps: seq<Step<T>>)
    requires ValidRun(cfg, a, steps)
    decreases |steps|
  {
    steps != [] && (InstallsIndex(a, steps[0]) || SomeInstall(cfg, Next(cfg, a, steps[0]), steps[1..]))
  }

  /** In every run the live index never shrinks, and it is larger after an index was installed. */
  lemma {:induction false} IndexNeverShrinks<T>(cfg: Config<T>, a: Api<T>, m: map<Pubkey, Value<T>>,
                                                steps: seq<Step<T>>)
    requires ApiInv(cfg, a, m) && PendingLarger(a) && ValidRun(cfg, a, steps)
    ensures var a' := Final(cfg, a, steps);
            && PendingLarger(a')
            && (a.bucket.Some? ==>
                  && a'.bucket.Some? && a'.bucket.value.index.pow2 >= a.bucket.value.index.pow2
                  && (SomeInstall(cfg, a, steps) ==> a'.bucket.value.index.pow2 > a.bucket.value.index.pow2))
    decreases |steps|
  {
    hide ApiInv, Enabled, Next, PendingLarger;
    if steps != [] {
      StepCapacity(cfg, a, m, steps[0]);
      StepKeepsInv(cfg, a, m, steps[0]);
      IndexNeverShrinks(cfg, Next(cfg, a, steps[0]), PlainNext(cfg, a, m, steps[0]), steps[1..]);
    }
  }

  datatype Attempt<T> = Attempt(key: Pubkey, v: Value<T>, pos: nat)

  /** The attempt finds no room in the index and leaves s', reporting the capacity p as too small. */
  ghost predicate IndexError<T>(cfg: Config<T>, s: Shard<T>, w: Attempt<T>, s': Shard<T>, p: nat) {
    Inv(cfg, s) && TryWrite(cfg, s, w.key, w.v.slots, w.v.refCount, w.pos) == (s', Some(IndexNoSpace(p)))
  }

  lemma ErrorNamesCapacity<T>(cfg: Config<T>, s: Shard<T>, w: Attempt<T>, s': Shard<T>, p: nat)
    requires IndexError(cfg, s, w, s', p)
    ensures s' == s && p == s.index.pow2
  {
    hide Inv, Represents, Contents, TryWrite;
    ContentsRepresented(cfg, s);
    TryWriteRefinesMap(cfg, s, Contents(cfg, s), w.key, w.v.slots, w.v.refCount, w.pos);
  }

  /**
   * An index error after a run that follows an index error names no smaller capacity, and a larger
   * one if the run, or the write that met the second error, installed an index.
   */
  lemma LaterIndexErrors<T>(cfg: Config<T>, s: Shard<T>, w: Attempt<T>, p: nat, a: Api<T>, m: map<Pubkey, Value<T>>,
                            steps: seq<Step<T>>, seed: nat, w': Attempt<T>, s': Shard<T>, q: nat)
    requires ApiInv(cfg, a, m) && PendingLarger(a) && ValidRun(cfg, a, steps)
    requires a.bucket.Some? && IndexError(cfg, s, w, a.bucket.value, p)
    requires var a' := Final(cfg, a, steps);
             a'.growers == map[] && CanInstall(a') && IndexError(cfg, Installed(cfg, a', seed), w', s', q)
    ensures p <= q
    ensures var a' := Final(cfg, a, steps);
            SomeInstall(cfg, a, steps) || (a'.active == 1 && a'.newIndex.Some?) ==> p < q
  {
    hide Inv, ApiInv, ValidRun, Final, PlainFinal, SomeInstall, IndexError, Installed;
    ErrorNamesCapacity(cfg, s, w, a.bucket.value, p);
    IndexNeverShrinks(cfg, a, m, steps);
    RunKeepsInv(cfg, a, m, steps);
    InstalledCapacity(cfg, Final(cfg, a, steps), PlainFinal(cfg, a, m, steps), seed);
    ErrorNamesCapacity(cfg, Installed(cfg, Final(cfg, a, steps), seed), w', s', q);
  }
}
