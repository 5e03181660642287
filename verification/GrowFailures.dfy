/**
 * When the assertion on the counter of reallocations fails, what a bucket does from then
 * on, and grow requests that come too late.
 */
module GrowFailures {
  import opened Storage
  import opened IndexEntry
  import opened Shard
  import opened ShardOps
  import opened BucketSpec
  import opened Growth
  import opened BucketInsert
  import opened BucketOps
  import opened GrowProtocol

  // ---------- after the assertion has failed ----------

  /** The step is a writer that installs a pending reallocation. */
  ghost predicate Installs<T>(a: Api<T>, step: Step<T>) {
    step.Write? && !a.dead && a.bucket.Some? && a.active == 1
  }

  /** The step ends a grow call that has published what it built. */
  ghost predicate GrowReturns<T>(a: Api<T>, step: Step<T>) {
    step.Publish? && step.thread in a.growers &&
    (match a.growers[step.thread]
     case Built(_) => false
     case IndexPlaced(_) => a.active == 0
     case DataCounted(_) => !a.poisoned)
  }

  /** No step of the run installs anything, and no grow call of it returns with success. */
  ghost predicate NothingGrows<T>(cfg: Config<T>, a: Api<T>, steps: seq<Step<T>>)
    requires ValidRun(cfg, a, steps)
    decreases |steps|
  {
    steps == [] ||
    (!Installs(a, steps[0]) && !GrowReturns(a, steps[0]) && NothingGrows(cfg, Next(cfg, a, steps[0]), steps[1..]))
  }

  lemma JammedStep<T>(cfg: Config<T>, a: Api<T>, step: Step<T>)
    requires Jammed(a) && !Counting(a) && Enabled(cfg, a, step)
    ensures Jammed(Next(cfg, a, step)) && !Counting(Next(cfg, a, step))
    ensures !Installs(a, step) && !GrowReturns(a, step)
  {
    hide Inv, Ends, AfterWrite, PanicsGrowing, PanicsUnref, Grow, CanGrow, Installed;
    match step
    case StartGrow(t, err, seeds) => OtherGrowers(a, Next(cfg, a, step), t);
    case Publish(t) =>
      assert !a.growers[t].DataCounted?;
      OtherGrowers(a, Next(cfg, a, step), t);
    case Write(op, seed) =>
  }

  /**
   * Once the assertion has failed and the grower that was filling its slot is through,
   * the counter stays jammed for ever: no writer installs anything any more, and every
   * grow call panics.
   */
  lemma {:induction false} JammedForGood<T>(cfg: Config<T>, a: Api<T>, steps: seq<Step<T>>)
    requires Jammed(a) && !Counting(a) && ValidRun(cfg, a, steps)
    ensures Jammed(Final(cfg, a, steps)) && NothingGrows(cfg, a, steps)
    decreases |steps|
  {
    hide Jammed, Counting, Installs, GrowReturns, Enabled, Next;
    if steps != [] {
      JammedStep(cfg, a, steps[0]);
      JammedForGood(cfg, Next(cfg, a, steps[0]), steps[1..]);
    }
  }

  /**
   * A jammed bucket serves every write that needs no growth as before. One that has to
   * grow panics under the write lock, with its first attempt done, and the lock is dead.
   */
  lemma JammedWrite<T>(cfg: Config<T>, a: Api<T>, op: Op<T>, seed: nat)
    requires Jammed(a) && !a.dead && a.bucket.Some? && !op.OpUnref? && Enabled(cfg, a, Write(op, seed))
    ensures Inv(cfg, a.bucket.value)
    ensures var a' := Next(cfg, a, Write(op, seed));
            var s := a.bucket.value;
            && (a'.dead <==> MustGrow(cfg, s, op))
            && (!a'.dead ==> Completes(cfg, s, op) && a' == a.(bucket := Some(Perform(cfg, s, op))))
            && (a'.dead ==>
                  var (key, v, draws) := InsertOf(cfg, s, op).value;
                  a'.bucket == Some(TryWrite(cfg, s, key, v.slots, v.refCount, draws[0].pos).0))
  {
    hide Inv, TryWrite, FirstGrow, Insert;
  }

  /** A dead lock stays dead, and nothing changes behind it. */
  lemma {:induction false} DeadForGood<T>(cfg: Config<T>, a: Api<T>, steps: seq<Step<T>>)
    requires ProtocolOk(a) && a.dead && ValidRun(cfg, a, steps)
    ensures Final(cfg, a, steps) == a
    decreases |steps|
  {
    if steps != [] {
      assert Next(cfg, a, steps[0]) == a;
      DeadForGood(cfg, a, steps[1..]);
    }
  }

  // ---------- when the assertion fails ----------

  /** The step is a grow call that builds a storage. */
  ghost predicate StartsGrow<T>(cfg: Config<T>, a: Api<T>, step: Step<T>)
    requires Enabled(cfg, a, step)
  {
    step.StartGrow? && Grows(a, step.err) && Grow(cfg, a.bucket.value, step.err, step.seeds).Grew?
  }

  /** At some point of the run two grow calls have built storages with no writer in between; n so far. */
  ghost predicate Overlap<T>(cfg: Config<T>, a: Api<T>, steps: seq<Step<T>>, n: nat)
    requires ValidRun(cfg, a, steps)
    decreases |steps|
  {
    n >= 2 ||
    (steps != [] &&
     Overlap(cfg, Next(cfg, a, steps[0]), steps[1..],
             if steps[0].Write? then 0 else if StartsGrow(cfg, a, steps[0]) then n + 1 else n))
  }

  /** Threads that have yet to bump the counter. */
  ghost function ToBump<T>(growers: map<nat, Grower<T>>): set<nat> {
    set t | t in growers && !growers[t].DataCounted?
  }

  /** The counter and the threads still to bump it add up to the storages built since the last writer. */
  ghost predicate Tally<T>(a: Api<T>, n: nat) {
    n == a.active + |ToBump(a.growers)|
  }

  lemma TallyBump<T>(a: Api<T>, t: nat, next: map<nat, Grower<T>>, n: nat)
    requires Tally(a, n) && t in ToBump(a.growers)
    requires ToBump(next) == ToBump(a.growers) - {t}
    ensures a.active == 0 ==> Tally(Bump(a, t, next), n)
    ensures a.active != 0 ==> n >= 2
  {
    assert ToBump(a.growers) == ToBump(next) + {t};
  }

  lemma TallyPublish<T>(cfg: Config<T>, a: Api<T>, t: nat, n: nat)
    requires Tally(a, n) && !Jammed(a) && !a.poisoned && Enabled(cfg, a, Publish(t))
    ensures !Jammed(Published(a, t)) ==> Tally(Published(a, t), n)
    ensures Jammed(Published(a, t)) ==> n >= 2
  {
    match a.growers[t]
    case Built(g) =>
      if g.NewIndex? {
        assert ToBump(a.growers[t := IndexPlaced(g)]) == ToBump(a.growers);
      } else {
        assert ToBump(a.growers[t := DataCounted(g)]) == ToBump(a.growers) - {t};
        TallyBump(a, t, a.growers[t := DataCounted(g)], n);
      }
    case IndexPlaced(g) =>
      assert ToBump(a.growers - {t}) == ToBump(a.growers) - {t};
      TallyBump(a, t, a.growers - {t}, n);
    case DataCounted(g) =>
      assert ToBump(a.growers - {t}) == ToBump(a.growers);
  }

  lemma TallyStep<T>(cfg: Config<T>, a: Api<T>, step: Step<T>, n: nat)
    requires Tally(a, n) && ProtocolOk(a) && !Jammed(a) && Enabled(cfg, a, step)
    ensures !Jammed(Next(cfg, a, step)) ==>
      Tally(Next(cfg, a, step), if step.Write? then 0 else if StartsGrow(cfg, a, step) then n + 1 else n)
    ensures Jammed(Next(cfg, a, step)) ==> n >= 2 && !step.Write?
  {
    hide Inv, Ends, Written, Grow, CanGrow, SlotsOk;
    var a' := Next(cfg, a, step);
    match step
    case StartGrow(t, err, seeds) =>
      if StartsGrow(cfg, a, step) {
        assert ToBump(a'.growers) == ToBump(a.growers) + {t};
      }
    case Publish(t) => TallyPublish(cfg, a, t, n);
    case Write(op, seed) =>
      if !a.dead {
        WriteSlotsOk(cfg, a, op, seed);
        WriteHasNoGrowers(cfg, a, op, seed);
      }
      assert ToBump(a'.growers) == {};
  }

  lemma WriteHasNoGrowers<T>(cfg: Config<T>, a: Api<T>, op: Op<T>, seed: nat)
    requires !a.dead && Enabled(cfg, a, Write(op, seed))
    ensures Written(cfg, a, op, seed).growers == map[]
  {
    hide Inv, Ends, AfterWrite, MustGrow, FirstGrow, PanicsUnref, Installed;
  }

  lemma JamStays<T>(cfg: Config<T>, a: Api<T>, step: Step<T>)
    requires Jammed(a) && Enabled(cfg, a, step)
    ensures Jammed(Next(cfg, a, step))
  {
    hide Inv, Ends, AfterWrite, PanicsGrowing, PanicsUnref, Grow, CanGrow, Installed;
  }

  lemma {:induction false} RunStaysJammed<T>(cfg: Config<T>, a: Api<T>, steps: seq<Step<T>>)
    requires Jammed(a) && ValidRun(cfg, a, steps)
    ensures Jammed(Final(cfg, a, steps))
    decreases |steps|
  {
    hide Jammed, Enabled, Next;
    if steps != [] {
      JamStays(cfg, a, steps[0]);
      RunStaysJammed(cfg, Next(cfg, a, steps[0]), steps[1..]);
    }
  }

  /** With two storages built, the assertion has failed in the end or growers are still at work. */
  lemma {:induction false} TwoBuiltMustFail<T>(cfg: Config<T>, a: Api<T>, steps: seq<Step<T>>, n: nat)
    requires ProtocolOk(a) && !Jammed(a) && ValidRun(cfg, a, steps) && Tally(a, n) && n >= 2
    ensures Jammed(Final(cfg, a, steps)) || Final(cfg, a, steps).growers != map[]
    decreases |steps|
  {
    assert a.growers == map[] ==> ToBump(a.growers) == {};
    hide Next, StartsGrow, SlotsOk;
    if steps != [] {
      var a' := Next(cfg, a, steps[0]);
      assert !steps[0].Write?;
      TallyStep(cfg, a, steps[0], n);
      SlotsStep(cfg, a, steps[0]);
      if Jammed(a') {
        RunStaysJammed(cfg, a', steps[1..]);
      } else {
        TwoBuiltMustFail(cfg, a', steps[1..], if StartsGrow(cfg, a, steps[0]) then n + 1 else n);
      }
    }
  }

  /**
   * A run that leaves no grower half way fails the assertion exactly when, between two
   * writers, more than one grow call built a storage.
   */
  lemma {:induction false} FailsIffOverlap<T>(cfg: Config<T>, a: Api<T>, steps: seq<Step<T>>, n: nat)
    requires ProtocolOk(a) && !Jammed(a) && ValidRun(cfg, a, steps) && Tally(a, n)
    requires Jammed(Final(cfg, a, steps)) || Final(cfg, a, steps).growers == map[]
    ensures Jammed(Final(cfg, a, steps)) <==> Overlap(cfg, a, steps, n)
    decreases |steps|
  {
    if n >= 2 {
      TwoBuiltMustFail(cfg, a, steps, n);
    } else if steps != [] {
      hide Next, StartsGrow, ProtocolOk, Enabled, Tally, Jammed;
      var a' := Next(cfg, a, steps[0]);
      TallyStep(cfg, a, steps[0], n);
      SlotsStep(cfg, a, steps[0]);
      FailsIffOverlap(cfg, a', steps[1..],
                      if steps[0].Write? then 0 else if StartsGrow(cfg, a, steps[0]) then n + 1 else n);
    }
  }

  /**
   * Two growers that overlap: however their actions and those of further growers
   * interleave, when all of them are through the assertion has failed.
   */
  lemma TwoGrowersFail<T>(cfg: Config<T>, a: Api<T>, first: Step<T>, second: Step<T>, steps: seq<Step<T>>)
    requires ProtocolOk(a) && a.growers == map[] && a.active == 0
    requires ValidRun(cfg, a, [first, second] + steps)
    requires Enabled(cfg, a, first) && StartsGrow(cfg, a, first)
    requires Enabled(cfg, Next(cfg, a, first), second) && StartsGrow(cfg, Next(cfg, a, first), second)
    requires Final(cfg, a, [first, second] + steps).growers == map[]
    ensures Jammed(Final(cfg, a, [first, second] + steps))
  {
    var run := [first, second] + steps;
    var a1 := Next(cfg, a, first);
    var a2 := Next(cfg, a1, second);
    assert run[1..] == [second] + steps && run[1..][1..] == steps;
    assert ToBump(a.growers) == {};
    TallyStep(cfg, a, first, 0);
    SlotsStep(cfg, a, first);
    TallyStep(cfg, a1, second, 1);
    SlotsStep(cfg, a1, second);
    TwoBuiltMustFail(cfg, a2, steps, 2);
  }

  /** A run of four actions in which the second of two growers of data storages panics. */
  lemma TwoDataGrowers<T>(cfg: Config<T>, a: Api<T>, e0: Error, e1: Error)
    requires a.bucket.Some? && a.growers == map[] && a.active == 0 && !a.dead
    requires e0.DataNoSpace? && e1.DataNoSpace? && CanGrow(a.bucket.value, e0) && CanGrow(a.bucket.value, e1)
    ensures var steps := [StartGrow(0, e0, []), StartGrow(1, e1, []), Publish(0), Publish(1)];
            ValidRun(cfg, a, steps) && Jammed(Final(cfg, a, steps))
  {
    hide CanGrow;
    var p0, p1 := Publish(0), Publish(1);
    var a1 := Next(cfg, a, StartGrow(0, e0, []));
    var a2 := Next(cfg, a1, StartGrow(1, e1, []));
    var a3 := Next(cfg, a2, p0);
    assert Enabled(cfg, a3, p1) && Jammed(Next(cfg, a3, p1));
    RunOne(cfg, a3, p1, []);
    RunOne(cfg, a2, p0, [p1]);
    RunOne(cfg, a1, StartGrow(1, e1, []), [p0, p1]);
    RunOne(cfg, a, StartGrow(0, e0, []), [StartGrow(1, e1, []), p0, p1]);
  }

  /** A delete of an absent key, as the writer that creates the bucket or installs what is pending. */
  lemma AbsentDelete<T>(cfg: Config<T>, a: Api<T>, key: Pubkey, seed: nat)
    requires !a.dead && a.growers == map[] && CanInstall(a) && Inv(cfg, Installed(cfg, a, seed))
    requires !HasKey(Installed(cfg, a, seed).index.cells, key)
    ensures Enabled(cfg, a, Write(OpDelete(key), seed))
    ensures Next(cfg, a, Write(OpDelete(key), seed)) == Taken(a).(bucket := Some(Installed(cfg, a, seed)))
  {
    hide Inv, Installed;
    var s := Installed(cfg, a, seed);
    InvIndex(cfg, s);
    FindEntryComplete(cfg, s.index, s.random, key);
  }

  /** It happens right after the first write: both threads were told that data storage 0 is missing. */
  lemma FailureFromStart<T>(cfg: Config<T>, key: Pubkey, seed: nat)
    ensures var err := DataNoSpace(0, 0);
            var steps := [Write(OpDelete(key), seed), StartGrow(0, err, []), StartGrow(1, err, []), Publish(0),
                          Publish(1)];
            ValidRun(cfg, NewApi<T>(), steps) && Jammed(Final(cfg, NewApi<T>(), steps))
  {
    var a0, first, err := NewApi<T>(), Write(OpDelete(key), seed), DataNoSpace(0, 0);
    EmptyShardOk(cfg, seed);
    AbsentDelete(cfg, a0, key, seed);
    var a1 := Next(cfg, a0, first);
    TwoDataGrowers(cfg, a1, err, err);
    RunOne(cfg, a0, first, [StartGrow(0, err, []), StartGrow(1, err, []), Publish(0), Publish(1)]);
  }

  // ---------- requests that have become stale ----------

  /** A bucket with nothing pending and nobody at work on it. */
  ghost predicate Quiet<T>(cfg: Config<T>, a: Api<T>) {
    && a.bucket.Some? && Inv(cfg, a.bucket.value)
    && a == Api(a.bucket, 0, None, None, map[], false, false)
  }

  ghost predicate Reaches<T>(cfg: Config<T>, a: Api<T>, steps: seq<Step<T>>, a': Api<T>) {
    ValidRun(cfg, a, steps) && Final(cfg, a, steps) == a'
  }

  /** One grower on its own, and the writer that installs what it built. */
  function GrowAndInstall<T>(err: Error, key: Pubkey): seq<Step<T>> {
    [StartGrow(0, err, []), Publish(0), Publish(0), Write(OpDelete(key), 0)]
  }

  lemma OneDataGrow<T>(cfg: Config<T>, a: Api<T>, b: nat, pow2: nat, key: Pubkey) returns (a': Api<T>)
    requires Quiet(cfg, a) && !HasKey(a.bucket.value.index.cells, key) && CanGrowData(a.bucket.value.data, b, pow2)
    ensures Reaches(cfg, a, GrowAndInstall(DataNoSpace(b, pow2), key), a') && Quiet(cfg, a')
    ensures a'.bucket.value.index == a.bucket.value.index
    ensures a'.bucket.value.data == InstallData(cfg, a.bucket.value.data, b,
                                                GrowData(cfg, a.bucket.value.data, b, pow2))
  {
    hide Inv, CanGrowData, GrowData, InstallData, Represents, Contents;
    var s, err := a.bucket.value, DataNoSpace(b, pow2);
    ContentsRepresented(cfg, s);
    GrowKeepsContents(cfg, s, Contents(cfg, s), err, []);
    var g := Grow(cfg, s, err, []).g;
    var start, pub, write := StartGrow(0, err, []), Publish(0), Write(OpDelete(key), 0);
    var a1 := Next(cfg, a, start);
    var a2 := Next(cfg, a1, pub);
    var a3 := Next(cfg, a2, pub);
    assert a1 == a.(growers := map[0 := Built(g)]);
    assert a2 == a.(active := 1, growers := map[0 := DataCounted(g)]);
    assert a3 == a.(active := 1, newData := Some(g));
    AbsentDelete(cfg, a3, key, 0);
    a' := Next(cfg, a3, write);
    RunOne(cfg, a3, write, []);
    RunOne(cfg, a2, pub, [write]);
    RunOne(cfg, a1, pub, [pub, write]);
    RunOne(cfg, a, start, [pub, pub, write]);
  }

  /**
   * A request for a size reported before two grows of the same storage were installed:
   * the capacities subtract to less than zero. One grow in between does no harm.
   */
  lemma StaleAfterTwoGrows<T>(cfg: Config<T>, a: Api<T>, b: nat, p: nat, key: Pubkey) returns (a1: Api<T>, a2: Api<T>)
    requires Quiet(cfg, a) && !HasKey(a.bucket.value.index.cells, key)
    requires b < |a.bucket.value.data| && p == a.bucket.value.data[b].pow2
    ensures Reaches(cfg, a, GrowAndInstall(DataNoSpace(b, p), key), a1) && Grows(a1, DataNoSpace(b, p))
    ensures Reaches(cfg, a1, GrowAndInstall(DataNoSpace(b, p + 1), key), a2) && !Grows(a2, DataNoSpace(b, p))
    ensures a2.bucket.Some? && b < |a2.bucket.value.data| && Increment(a2.bucket.value.data, b, p) == -1
  {
    hide Inv, Spread, Reaches;
    InvData(cfg, a.bucket.value, b);
    a1 := OneDataGrow(cfg, a, b, p, key);
    a2 := OneDataGrow(cfg, a1, b, p + 1, key);
  }
}
