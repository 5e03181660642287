/**
 * Growing on demand: the retry loop of `insert`, the `update` built on it, and how
 * often the loop can go round.
 */
module BucketInsert {
  import opened Powers
  import opened Storage
  import opened IndexEntry
  import opened Shard
  import opened ShardOps
  import opened BucketSpec
  import opened Growth

  /** A storage built under a read lock, waiting to be installed. */
  datatype Grown<T> =
    | NewIndex(random: nat, index: Storage<Entry>)
    | NewData(sizeClass: nat, storage: DataStorage<T>)

  function Install<T>(cfg: Config<T>, s: Shard<T>, g: Grown<T>): Shard<T> {
    match g
    case NewIndex(random, index) => s.(index := index, random := random)
    case NewData(b, d) => s.(data := InstallData(cfg, s.data, b, d))
  }

  /** Attempt i rehashes into 2^i times the capacity with the next seed; the first success counts. */
  function GrowIndex<T>(cfg: Config<T>, s: Shard<T>, i: nat, seeds: seq<nat>): Option<Grown<T>>
    decreases |seeds|
  {
    if seeds == [] then None
    else
      match Rehash(cfg, s.index.cells, |s.index.cells|, s.index.pow2 + i, seeds[0])
      case Some(cells) => Some(NewIndex(seeds[0], Storage(s.index.pow2 + i, cells, s.index.count)))
      case None => GrowIndex(cfg, s, i + 1, seeds[1..])
  }

  /** Nothing to do for a stale index error; unfinished when the seeds given do not suffice. */
  datatype GrowOutcome<T> = Stale | Unfinished | Grew(g: Grown<T>)

  predicate CanGrow<T>(s: Shard<T>, err: Error) {
    err.DataNoSpace? ==> CanGrowData(s.data, err.sizeClass, err.pow2)
  }

  function Grow<T>(cfg: Config<T>, s: Shard<T>, err: Error, seeds: seq<nat>): GrowOutcome<T>
    requires CanGrow(s, err)
  {
    match err
    case DataNoSpace(b, pow2) => Grew(NewData(b, GrowData(cfg, s.data, b, pow2)))
    case IndexNoSpace(pow2) =>
      if pow2 != s.index.pow2 then Stale
      else
        match GrowIndex(cfg, s, 1, seeds)
        case Some(g) => Grew(g)
        case None => Unfinished
  }

  /** Installing the grown storage gives a good shard with the same map. */
  ghost predicate SameContents<T>(cfg: Config<T>, s: Shard<T>, g: Grown<T>) {
    && Inv(cfg, s)
    && Inv(cfg, Install(cfg, s, g))
    && Contents(cfg, Install(cfg, s, g)) == Contents(cfg, s)
  }

  lemma {:induction false} GrowIndexStep<T>(cfg: Config<T>, s: Shard<T>, m: map<Pubkey, Value<T>>, i: nat,
                                            seeds: seq<nat>)
    requires Inv(cfg, s) && Represents(s, m) && GrowIndex(cfg, s, i, seeds).Some?
    ensures var g := GrowIndex(cfg, s, i, seeds).value;
            && g.NewIndex?
            && Inv(cfg, Install(cfg, s, g)) && Represents(Install(cfg, s, g), m)
    decreases |seeds|
  {
    hide Inv, Represents;
    if Rehash(cfg, s.index.cells, |s.index.cells|, s.index.pow2 + i, seeds[0]).Some? {
      InstallIndexStep(cfg, s, m, s.index.pow2 + i, seeds[0]);
    } else {
      GrowIndexStep(cfg, s, m, i + 1, seeds[1..]);
    }
  }

  /** A pending reallocation stands for the same map as the live bucket. */
  lemma GrowKeepsContents<T>(cfg: Config<T>, s: Shard<T>, m: map<Pubkey, Value<T>>, err: Error, seeds: seq<nat>)
    requires Inv(cfg, s) && Represents(s, m) && CanGrow(s, err)
    ensures var r := Grow(cfg, s, err, seeds);
            r.Grew? ==>
              && Inv(cfg, Install(cfg, s, r.g)) && Represents(Install(cfg, s, r.g), m)
              && SameContents(cfg, s, r.g)
  {
    hide Inv, Represents, Contents;
    match Grow(cfg, s, err, seeds)
    case Grew(g) =>
      match err {
        case DataNoSpace(b, pow2) => InstallDataStep(cfg, s, m, b, pow2);
        case IndexNoSpace(_) => GrowIndexStep(cfg, s, m, 1, seeds);
      }
      ContentsRepresented(cfg, s);
      ContentsRepresented(cfg, Install(cfg, s, g));
      RepresentsUnique(s, m, Contents(cfg, s));
      RepresentsUnique(Install(cfg, s, g), m, Contents(cfg, Install(cfg, s, g)));
    case _ =>
  }

  // ---------- insert ----------

  /** The random choices of one round: the start of the data search and the seeds tried for a new index. */
  datatype Draw = Draw(pos: nat, seeds: seq<nat>)

  /** Where a run of the loop got to with the draws it was given, and the errors it met on the way. */
  datatype InsertRun<T> = InsertRun(shard: Shard<T>, done: bool, errors: seq<Error>)

  function Insert<T>(cfg: Config<T>, s: Shard<T>, key: Pubkey, v: Value<T>, draws: seq<Draw>): InsertRun<T>
    requires Inv(cfg, s)
    decreases |draws|
  {
    if draws == [] then InsertRun(s, false, [])
    else
      var (s1, err) := TryWrite(cfg, s, key, v.slots, v.refCount, draws[0].pos);
      match err
      case None => InsertRun(s1, true, [])
      case Some(e) =>
        RoundCanGrow(cfg, s, key, v, draws[0]);
        match Grow(cfg, s1, e, draws[0].seeds)
        case Grew(g) =>
          var r := Insert(cfg, Install(cfg, s1, g), key, v, draws[1..]);
          r.(errors := [e] + r.errors)
        case Unfinished => InsertRun(s1, false, [e])
  }

  lemma InsertNothing<T>(cfg: Config<T>, s: Shard<T>, key: Pubkey, v: Value<T>)
    requires Inv(cfg, s)
    ensures var r := Insert(cfg, s, key, v, []); r.shard == s && !r.done
  {
  }

  /** One round of the loop. */
  lemma InsertUnroll<T>(cfg: Config<T>, s: Shard<T>, key: Pubkey, v: Value<T>, draws: seq<Draw>)
    requires Inv(cfg, s) && draws != []
    ensures var r := Insert(cfg, s, key, v, draws);
            var (s1, err) := TryWrite(cfg, s, key, v.slots, v.refCount, draws[0].pos);
            && (err.None? ==> r.shard == s1 && r.done)
            && (err.Some? ==>
                  && CanGrow(s1, err.value)
                  && var g := Grow(cfg, s1, err.value, draws[0].seeds);
                     && !g.Stale?
                     && (g.Unfinished? ==> r.shard == s1 && !r.done)
                     && (g.Grew? ==>
                           var s2 := Install(cfg, s1, g.g);
                           && Inv(cfg, s2)
                           && var r2 := Insert(cfg, s2, key, v, draws[1..]);
                              r.shard == r2.shard && r.done == r2.done))
  {
    RoundCanGrow(cfg, s, key, v, draws[0]);
    hide Inv, TryWrite, Grow, Install, CanGrow;
  }

  /** A failed round leaves a state that the reported error fits, and growing it is sound. */
  lemma RoundCanGrow<T>(cfg: Config<T>, s: Shard<T>, key: Pubkey, v: Value<T>, draw: Draw)
    requires Inv(cfg, s)
    ensures var (s1, err) := TryWrite(cfg, s, key, v.slots, v.refCount, draw.pos);
            && Inv(cfg, s1)
            && (err.Some? ==>
                  && CanGrow(s1, err.value)
                  && !Grow(cfg, s1, err.value, draw.seeds).Stale?
                  && (Grow(cfg, s1, err.value, draw.seeds).Grew? ==>
                        Inv(cfg, Install(cfg, s1, Grow(cfg, s1, err.value, draw.seeds).g))))
  {
    hide Inv, Represents, Contents;
    ContentsRepresented(cfg, s);
    TryWriteRefinesMap(cfg, s, Contents(cfg, s), key, v.slots, v.refCount, draw.pos);
    var (s1, err) := TryWrite(cfg, s, key, v.slots, v.refCount, draw.pos);
    if err.Some? {
      ContentsRepresented(cfg, s1);
      GrowKeepsContents(cfg, s1, Contents(cfg, s1), err.value, draw.seeds);
    }
  }

  /**
   * However often it grew, an insert that returns has set the key and changed no other
   * key; one still running has at most created the key and set its ref count.
   */
  lemma {:induction false} InsertRefinesMap<T>(cfg: Config<T>, s: Shard<T>, m: map<Pubkey, Value<T>>,
                                               key: Pubkey, v: Value<T>, draws: seq<Draw>)
    requires Inv(cfg, s) && Represents(s, m)
    ensures var r := Insert(cfg, s, key, v, draws);
            && Inv(cfg, r.shard)
            && (r.done ==> Represents(r.shard, m[key := v]))
            && (!r.done ==> Represents(r.shard, m) || Represents(r.shard, Touched(m, key, v.refCount)))
    decreases |draws|
  {
    hide Inv, Represents, Contents, TryWrite, Grow, Install, SameContents, CanGrow;
    if draws != [] {
      var (s1, err) := TryWrite(cfg, s, key, v.slots, v.refCount, draws[0].pos);
      TryWriteRefinesMap(cfg, s, m, key, v.slots, v.refCount, draws[0].pos);
      if err.Some? {
        RoundCanGrow(cfg, s, key, v, draws[0]);
        var m1 := MapTryWrite(m, key, v.slots, v.refCount, err, |s.data|);
        GrowKeepsContents(cfg, s1, m1, err.value, draws[0].seeds);
        var g := Grow(cfg, s1, err.value, draws[0].seeds);
        if g.Grew? {
          InsertRefinesMap(cfg, Install(cfg, s1, g.g), m1, key, v, draws[1..]);
          assert m1[key := v] == m[key := v];
          assert Touched(m1, key, v.refCount) == Touched(m, key, v.refCount);
        }
      }
    }
  }

  /** Draws that run out leave the map as it was, or with the new ref count only. */
  ghost predicate InsertEffect<T>(before: map<Pubkey, Value<T>>, after: map<Pubkey, Value<T>>,
                                  key: Pubkey, v: Value<T>, done: bool)
  {
    if done then after == before[key := v]
    else after == before || after == Touched(before, key, v.refCount)
  }

  lemma InsertChangesContents<T>(cfg: Config<T>, s: Shard<T>, key: Pubkey, v: Value<T>, draws: seq<Draw>)
    requires Inv(cfg, s)
    ensures var r := Insert(cfg, s, key, v, draws);
            Inv(cfg, r.shard) && InsertEffect(Contents(cfg, s), Contents(cfg, r.shard), key, v, r.done)
  {
    hide Inv, Represents, Contents, Insert;
    var m, r := Contents(cfg, s), Insert(cfg, s, key, v, draws);
    ContentsRepresented(cfg, s);
    InsertRefinesMap(cfg, s, m, key, v, draws);
    ContentsAre(cfg, r.shard, if r.done then m[key := v] else m);
    ContentsAre(cfg, r.shard, Touched(m, key, v.refCount));
  }

  // ---------- progress ----------

  /** Every probe finds a free cell. */
  ghost predicate Roomy<T>(d: DataStorage<T>, maxSearch: nat) {
    |d.cells| > 0 && forall pos: nat :: FirstFree(d.cells, pos, 0, maxSearch).Some?
  }

  lemma NewStorageRoomy<T>(cfg: Config<T>, b: nat, pow2: nat)
    requires cfg.maxSearch >= 1
    ensures Roomy(NewStorage(cfg, b, pow2), cfg.maxSearch)
  {
  }

  lemma FreeInWindow<E>(cells: seq<Cell<E>>, pos: nat, j: nat, max: nat)
    requires |cells| > 0 && j < max && cells[Slot(pos, j, |cells|)].lock == UID_UNLOCKED
    ensures FirstFree(cells, pos, 0, max).Some?
  {
    FirstFreeSound(cells, pos, 0, max);
  }

  /** Of two neighbouring cells of a grown storage one has an odd number and is free. */
  lemma GrownHasFree<E>(cells: seq<Cell<E>>, p: nat, inc: nat, zero: E, pos: nat, max: nat)
    requires |cells| == Pow2(p) && inc >= 1 && max >= 2
    ensures |Spread(cells, inc, zero)| > 0
    ensures FirstFree(Spread(cells, inc, zero), pos, 0, max).Some?
  {
    hide Spread, FirstFree, Pow2;
    var r := Spread(cells, inc, zero);
    Pow2Add(p, inc);
    var j := if pos % 2 == 1 then 0 else 1;
    SlotParity(pos + j, p + inc);
    OddCellFree(cells, inc, zero, Slot(pos, j, |r|));
    FreeInWindow(r, pos, j, max);
  }

  lemma ResizedRoomy<T>(cfg: Config<T>, d: DataStorage<T>, b: nat, pow2: nat)
    requires Shaped(d) && d.pow2 < pow2 && cfg.maxSearch >= 2
    ensures Roomy(Resized(cfg, d, b, pow2), cfg.maxSearch)
  {
    hide Spread, FirstFree;
    forall pos: nat
      ensures |Resized(cfg, d, b, pow2).cells| > 0
      ensures FirstFree(Resized(cfg, d, b, pow2).cells, pos, 0, cfg.maxSearch).Some?
    {
      GrownHasFree(d.cells, d.pow2, pow2 - d.pow2, ZeroCell(cfg, b), pos, cfg.maxSearch);
    }
    GrownHasFree(d.cells, d.pow2, pow2 - d.pow2, ZeroCell(cfg, b), 0, cfg.maxSearch);
  }

  lemma {:induction false} ParityOfMod(x: nat, d: nat)
    requires d > 0 && d % 2 == 0
    ensures (x % d) % 2 == x % 2
  {
    if x < d {
      DivModUnique(x, 0, x, d);
    } else {
      ParityOfMod(x - d, d);
      ModSubtract(x, d);
    }
  }

  lemma SlotParity(x: nat, pow2: nat)
    requires pow2 >= 1
    ensures (x % Pow2(pow2)) % 2 == x % 2
  {
    ParityOfMod(x, Pow2(pow2));
  }

  lemma EvenMultiple(j: nat, inc: nat)
    requires inc >= 1 && j % Pow2(inc) == 0
    ensures j % 2 == 0
  {
    SlotParity(j, inc);
  }

  lemma OddCellFree<E>(cells: seq<Cell<E>>, inc: nat, zero: E, j: nat)
    requires inc >= 1 && j < |cells| * Pow2(inc) && j % 2 == 1
    ensures Spread(cells, inc, zero)[j].lock == UID_UNLOCKED
  {
    if j % Pow2(inc) == 0 {
      EvenMultiple(j, inc);
    }
  }

  /** A full storage has room everywhere after doubling exactly when probes look at two cells or more. */
  lemma FullStorageDoubles<T>(cfg: Config<T>, d: DataStorage<T>, b: nat)
    requires Shaped(d) && forall i :: 0 <= i < |d.cells| ==> d.cells[i].lock != UID_UNLOCKED
    ensures Roomy(Resized(cfg, d, b, d.pow2 + 1), cfg.maxSearch) <==> cfg.maxSearch >= 2
  {
    var r := Resized(cfg, d, b, d.pow2 + 1);
    if cfg.maxSearch >= 2 {
      ResizedRoomy(cfg, d, b, d.pow2 + 1);
    } else {
      SpreadAt(d.cells, 1, ZeroCell(cfg, b), 0);
      FirstFreeSound(r.cells, 0, 0, cfg.maxSearch);
      assert Slot(0, 0, |r.cells|) == 0;
      assert FirstFree(r.cells, 0, 0, cfg.maxSearch).None?;
    }
  }

  function DataErrors(errors: seq<Error>): nat {
    if errors == [] then 0
    else (if errors[0].DataNoSpace? then 1 else 0) + DataErrors(errors[1..])
  }

  ghost predicate HasRoom<T>(cfg: Config<T>, s: Shard<T>, v: Value<T>) {
    var b := SizeClass(|v.slots|);
    b < |s.data| && Roomy(s.data[b], cfg.maxSearch)
  }

  /** With room in the storage of its size class, a write cannot fail for lack of a data cell. */
  lemma RoomyWrite<T>(cfg: Config<T>, s: Shard<T>, key: Pubkey, v: Value<T>, pos: nat)
    requires Inv(cfg, s) && HasRoom(cfg, s, v)
    ensures var (_, err) := TryWrite(cfg, s, key, v.slots, v.refCount, pos);
            err.Some? ==> err.value.IndexNoSpace?
  {
    hide Inv, Represents, Contents;
    InvIndex(cfg, s);
    ContentsRepresented(cfg, s);
    OpenEntryStep(cfg, s, Contents(cfg, s), key, v.refCount);
  }

  /** Growing for a failed data search makes room. */
  lemma GrowMakesRoom<T>(cfg: Config<T>, s: Shard<T>, key: Pubkey, v: Value<T>, draw: Draw)
    requires Inv(cfg, s) && cfg.maxSearch >= 2
    requires var (_, err) := TryWrite(cfg, s, key, v.slots, v.refCount, draw.pos);
             err.Some? && err.value.DataNoSpace?
    ensures var (s1, err) := TryWrite(cfg, s, key, v.slots, v.refCount, draw.pos);
            && CanGrow(s1, err.value)
            && var g := Grow(cfg, s1, err.value, draw.seeds);
               g.Grew? && HasRoom(cfg, Install(cfg, s1, g.g), v)
  {
    hide Inv, Represents, Contents;
    RoundCanGrow(cfg, s, key, v, draw);
    ContentsRepresented(cfg, s);
    TryWriteRefinesMap(cfg, s, Contents(cfg, s), key, v.slots, v.refCount, draw.pos);
    var b := SizeClass(|v.slots|);
    if b < |s.data| {
      InvData(cfg, s, b);
      ResizedRoomy(cfg, s.data[b], b, GrownPow2(s.data[b].pow2));
    } else {
      NewStorageRoomy(cfg, b, GrownPow2(0));
    }
  }

  /** After room was made, no later round fails for lack of a data cell. */
  lemma {:induction false} RoomyInsert<T>(cfg: Config<T>, s: Shard<T>, m: map<Pubkey, Value<T>>,
                                          key: Pubkey, v: Value<T>, draws: seq<Draw>)
    requires Inv(cfg, s) && Represents(s, m) && HasRoom(cfg, s, v)
    ensures var r := Insert(cfg, s, key, v, draws);
            && DataErrors(r.errors) == 0
            && (key in m && draws != [] ==> r.done)
    decreases |draws|
  {
    hide Inv, Represents, Contents, Roomy;
    if draws != [] {
      RoomyWrite(cfg, s, key, v, draws[0].pos);
      RoundCanGrow(cfg, s, key, v, draws[0]);
      TryWriteRefinesMap(cfg, s, m, key, v.slots, v.refCount, draws[0].pos);
      var (s1, err) := TryWrite(cfg, s, key, v.slots, v.refCount, draws[0].pos);
      if err.Some? {
        var g := Grow(cfg, s1, err.value, draws[0].seeds);
        if g.Grew? {
          GrowKeepsContents(cfg, s1, m, err.value, draws[0].seeds);
          GrowIndexStep(cfg, s1, m, 1, draws[0].seeds);
          RoomyInsert(cfg, Install(cfg, s1, g.g), m, key, v, draws[1..]);
        }
      }
    }
  }

  /**
   * One insert grows data storages at most once, and writing to a key that is already
   * present returns within two rounds, whatever the random choices.
   */
  lemma {:induction false} InsertProgress<T>(cfg: Config<T>, s: Shard<T>, m: map<Pubkey, Value<T>>,
                                             key: Pubkey, v: Value<T>, draws: seq<Draw>)
    requires Inv(cfg, s) && Represents(s, m) && cfg.maxSearch >= 2
    ensures var r := Insert(cfg, s, key, v, draws);
            && DataErrors(r.errors) <= 1
            && (key in m && |draws| >= 2 ==> r.done)
    decreases |draws|
  {
    hide Inv, Represents, Contents, Roomy, HasRoom;
    if draws != [] {
      RoundCanGrow(cfg, s, key, v, draws[0]);
      TryWriteRefinesMap(cfg, s, m, key, v.slots, v.refCount, draws[0].pos);
      var (s1, err) := TryWrite(cfg, s, key, v.slots, v.refCount, draws[0].pos);
      if err.Some? {
        var g := Grow(cfg, s1, err.value, draws[0].seeds);
        if g.Grew? {
          var m1 := MapTryWrite(m, key, v.slots, v.refCount, err, |s.data|);
          GrowKeepsContents(cfg, s1, m1, err.value, draws[0].seeds);
          if err.value.DataNoSpace? {
            GrowMakesRoom(cfg, s, key, v, draws[0]);
            RoomyInsert(cfg, Install(cfg, s1, g.g), m1, key, v, draws[1..]);
          } else {
            InsertProgress(cfg, Install(cfg, s1, g.g), m1, key, v, draws[1..]);
          }
        }
      }
    }
  }
}
