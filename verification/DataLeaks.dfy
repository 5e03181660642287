/**
 * Data cells that stay locked although no entry owns them. They come from one case only:
 * a slot list of one element overwritten in place by an empty one keeps its cell locked,
 * and no later operation frees it.
 */
module DataLeaks {
  import opened Powers
  import opened Storage
  import opened IndexEntry
  import opened Shard
  import opened ShardOps
  import opened BucketSpec
  import opened Growth
  import opened BucketInsert
  import opened BucketOps
  import opened GrowProtocol

  /** Index cell i holds an entry whose slots are in data cell (b, loc). */
  ghost predicate OwnsCell<T>(s: Shard<T>, i: nat, b: nat, loc: nat) {
    && Locked(s.index.cells, i)
    && var e := s.index.cells[i].payload;
       e.numSlots > 0 && Placeable(s.data, e) && Place(s.data, e) == (b, loc)
  }

  ghost predicate Owned<T>(s: Shard<T>, b: nat, loc: nat) {
    exists i :: OwnsCell(s, i, b, loc)
  }

  /** A locked data cell that no entry owns. */
  ghost predicate Leaked<T>(s: Shard<T>, b: nat, loc: nat) {
    b < |s.data| && Locked(s.data[b].cells, loc) && !Owned(s, b, loc)
  }

  ghost predicate Tight<T>(s: Shard<T>) {
    forall b: nat, loc: nat :: !Leaked(s, b, loc)
  }

  /** The same cells are leaked. */
  ghost predicate SameLeaks<T>(s: Shard<T>, s': Shard<T>) {
    forall b: nat, loc: nat :: Leaked(s', b, loc) <==> Leaked(s, b, loc)
  }

  // ---------- single changes ----------

  /** Locks and owners may change at cell (x, y) only, and that cell must not become or cease to be leaked. */
  lemma LeaksAgree<T>(s: Shard<T>, s': Shard<T>, x: nat, y: nat)
    requires |s'.data| == |s.data|
    requires forall b: nat, loc: nat :: b < |s.data| && (b, loc) != (x, y) ==>
      (Locked(s'.data[b].cells, loc) <==> Locked(s.data[b].cells, loc))
    requires forall i: nat, b: nat, loc: nat :: (b, loc) != (x, y) ==>
      (OwnsCell(s', i, b, loc) <==> OwnsCell(s, i, b, loc))
    requires Leaked(s', x, y) <==> Leaked(s, x, y)
    ensures SameLeaks(s, s')
  {
    hide OwnsCell;
    forall b: nat, loc: nat | (b, loc) != (x, y)
      ensures Owned(s', b, loc) <==> Owned(s, b, loc)
    {
      if i: nat :| OwnsCell(s', i, b, loc) { assert OwnsCell(s, i, b, loc); }
      if i: nat :| OwnsCell(s, i, b, loc) { assert OwnsCell(s', i, b, loc); }
    }
  }

  lemma SetRefCountLeaks<T>(s: Shard<T>, i: nat, refCount: nat)
    requires Locked(s.index.cells, i)
    ensures SameLeaks(s, SetEntry(s, i, s.index.cells[i].payload.(refCount := refCount)))
  {
    var s' := SetEntry(s, i, s.index.cells[i].payload.(refCount := refCount));
    SameOwners(s, s', 0, 0);
    LeaksAgree(s, s', 0, 0);
  }

  /** With the same owner at (x, y) too, and the same data, that cell is leaked or not as before. */
  lemma SameOwners<T>(s: Shard<T>, s': Shard<T>, x: nat, y: nat)
    requires s'.data == s.data
    requires forall i: nat :: OwnsCell(s', i, x, y) <==> OwnsCell(s, i, x, y)
    ensures Leaked(s', x, y) <==> Leaked(s, x, y)
  {
    hide OwnsCell;
    if i: nat :| OwnsCell(s', i, x, y) { assert OwnsCell(s, i, x, y); }
    if i: nat :| OwnsCell(s, i, x, y) { assert OwnsCell(s', i, x, y); }
  }

  lemma CreateEntryLeaks<T>(s: Shard<T>, i: nat, uid: nat, key: Pubkey)
    requires i < |s.index.cells| && s.index.cells[i].lock == UID_UNLOCKED
    ensures SameLeaks(s, CreateEntry(s, i, uid, key))
  {
    SameOwners(s, CreateEntry(s, i, uid, key), 0, 0);
    LeaksAgree(s, CreateEntry(s, i, uid, key), 0, 0);
  }

  /** A write in place leaks the cell exactly when it empties the slot list. */
  lemma UpdateInPlaceLeaks<T>(cfg: Config<T>, s: Shard<T>, m: map<Pubkey, Value<T>>, i: nat, slots: seq<T>)
    requires Inv(cfg, s) && Represents(s, m) && Locked(s.index.cells, i)
    requires s.index.cells[i].payload.numSlots > 0
    requires SizeClass(|slots|) == SizeClass(s.index.cells[i].payload.numSlots)
    ensures Placeable(s.data, s.index.cells[i].payload)
    ensures var e := s.index.cells[i].payload;
            var (b, loc) := Place(s.data, e);
            && loc < |s.data[b].cells| && |slots| <= |s.data[b].cells[loc].payload|
            && (slots != [] ==> SameLeaks(s, UpdateInPlace(s, i, slots)))
            && (slots == [] ==> Leaked(UpdateInPlace(s, i, slots), b, loc))
  {
    hide Inv, Represents;
    UpdateInPlaceStep(cfg, s, m, i, slots);
    InvWindow(cfg, s, i);
    OthersElsewhere(cfg, s, i);
    var e := s.index.cells[i].payload;
    var (b, loc) := Place(s.data, e);
    var s' := UpdateInPlace(s, i, slots);
    assert OwnsCell(s, i, b, loc);
    if slots != [] {
      assert OwnsCell(s', i, b, loc);
      LeaksAgree(s, s', b, loc);
    } else {
      forall j: nat
        ensures !OwnsCell(s', j, b, loc)
      {
      }
    }
  }

  lemma InvWindow<T>(cfg: Config<T>, s: Shard<T>, i: nat)
    requires Inv(cfg, s) && Locked(s.index.cells, i)
    ensures CellInWindow(cfg, s.index.cells, s.random, i)
  {
  }

  lemma ReleaseLeaks<T>(cfg: Config<T>, s: Shard<T>, m: map<Pubkey, Value<T>>, i: nat)
    requires Inv(cfg, s) && Represents(s, m) && Locked(s.index.cells, i)
    ensures var e := s.index.cells[i].payload;
            && Placeable(s.data, e)
            && (e.numSlots > 0 ==>
                  var (b, loc) := Place(s.data, e); loc < |s.data[b].cells| && s.data[b].count >= 1)
            && SameLeaks(s, Release(s, i))
  {
    hide Inv, Represents;
    ReleaseStep(cfg, s, m, i);
    var e := s.index.cells[i].payload;
    var s' := Release(s, i);
    if e.numSlots > 0 {
      var (b, loc) := Place(s.data, e);
      assert OwnsCell(s, i, b, loc);
      LeaksAgree(s, s', b, loc);
    } else {
      SameOwners(s, s', 0, 0);
      LeaksAgree(s, s', 0, 0);
    }
  }

  lemma ClaimLeaks<T>(cfg: Config<T>, s: Shard<T>, m: map<Pubkey, Value<T>>, i: nat, ix: nat, slots: seq<T>)
    requires Inv(cfg, s) && Represents(s, m) && Locked(s.index.cells, i)
    requires s.index.cells[i].payload.numSlots == 0
    requires var b := SizeClass(|slots|);
             b < |s.data| && ix < |s.data[b].cells| && s.data[b].cells[ix].lock == UID_UNLOCKED
    ensures |slots| <= |s.data[SizeClass(|slots|)].cells[ix].payload|
    ensures SameLeaks(s, Claim(s, i, SizeClass(|slots|), ix, slots))
  {
    hide Inv, Represents;
    ClaimStep(cfg, s, m, i, ix, slots);
    InvWindow(cfg, s, i);
    var b := SizeClass(|slots|);
    var s' := Claim(s, i, b, ix, slots);
    if slots != [] {
      assert DataLoc(s'.index.cells[i].payload, s.data[b].pow2) == ix by { assert Pow2(0) == 1; }
      assert OwnsCell(s', i, b, ix);
      LeaksAgree(s, s', b, ix);
    } else {
      SameOwners(s, s', 0, 0);
      LeaksAgree(s, s', 0, 0);
    }
  }

  lemma DropCellLeaks<T>(s: Shard<T>, i: nat, e: Entry)
    requires Locked(s.index.cells, i) && s.index.cells[i].payload.numSlots == 0 && s.index.count >= 1
    ensures SameLeaks(s, DropCell(s, i, e))
  {
    SameOwners(s, DropCell(s, i, e), 0, 0);
    LeaksAgree(s, DropCell(s, i, e), 0, 0);
  }

  lemma SameLeaksChain<T>(s: Shard<T>, s1: Shard<T>, s2: Shard<T>)
    requires SameLeaks(s, s1) && SameLeaks(s1, s2)
    ensures SameLeaks(s, s2)
  {
    hide Leaked;
  }

  lemma SameLeaksTight<T>(s: Shard<T>, s': Shard<T>)
    requires SameLeaks(s, s')
    ensures Tight(s') <==> Tight(s)
  {
    hide Leaked;
  }

  // ---------- growing ----------

  /** A new index holds the same entries, so it has the same owners. */
  lemma NewIndexLeaks<T>(s: Shard<T>, s': Shard<T>)
    requires s'.data == s.data && Holds(s'.index.cells, s.index.cells, |s.index.cells|)
    ensures SameLeaks(s, s')
  {
    var cells, cells' := s.index.cells, s'.index.cells;
    assert cells[..|cells|] == cells;
    forall b: nat, loc: nat
      ensures Owned(s', b, loc) <==> Owned(s, b, loc)
    {
      if j: nat :| OwnsCell(s', j, b, loc) {
        assert cells'[j] in cells;
        var i: nat :| i < |cells| && cells[i] == cells'[j];
        assert OwnsCell(s, i, b, loc);
      }
      if i: nat :| OwnsCell(s, i, b, loc) {
        assert cells[i] in cells';
        var j: nat :| j < |cells'| && cells'[j] == cells[i];
        assert OwnsCell(s', j, b, loc);
      }
    }
  }

  function GrowShard<T>(cfg: Config<T>, s: Shard<T>, b: nat, pow2: nat): Shard<T>
    requires CanGrowData(s.data, b, pow2)
  {
    s.(data := InstallData(cfg, s.data, b, GrowData(cfg, s.data, b, pow2)))
  }

  /** Owners of other size classes stay where they are. */
  lemma OwnsElsewhere<T>(cfg: Config<T>, s: Shard<T>, b: nat, pow2: nat, i: nat, c: nat, loc: nat)
    requires CanGrowData(s.data, b, pow2) && c != b && c < |s.data|
    ensures OwnsCell(GrowShard(cfg, s, b, pow2), i, c, loc) <==> OwnsCell(s, i, c, loc)
  {
  }

  /** Owners in the grown storage move with their cells. */
  lemma OwnsAfterGrow<T>(cfg: Config<T>, s: Shard<T>, b: nat, pow2: nat, i: nat, loc: nat)
    requires Inv(cfg, s) && CanGrowData(s.data, b, pow2) && b < |s.data|
    ensures OwnsCell(GrowShard(cfg, s, b, pow2), i, b, loc * Pow2(GrownPow2(pow2) - s.data[b].pow2)) <==>
            OwnsCell(s, i, b, loc)
  {
    hide Inv, Spread;
    if i in OwnersIn(s, b) {
      InvEntry(cfg, s, i);
      InvData(cfg, s, b);
      var e, p, q := s.index.cells[i].payload, s.data[b].pow2, GrownPow2(pow2);
      DataLocAfterGrow(e, s.data[b].cells, p, q, ZeroCell(cfg, b));
      if DataLoc(e, p) != loc { MulInjective(DataLoc(e, p), loc, Pow2(q - p)); }
    }
  }

  lemma LeakGrows<T>(cfg: Config<T>, s: Shard<T>, b: nat, pow2: nat, c: nat, loc: nat)
    requires Inv(cfg, s) && CanGrowData(s.data, b, pow2) && Leaked(s, c, loc)
    ensures !Tight(GrowShard(cfg, s, b, pow2))
  {
    hide Inv, OwnsCell, Spread;
    var s' := GrowShard(cfg, s, b, pow2);
    var loc' := if c == b then loc * Pow2(GrownPow2(pow2) - s.data[b].pow2) else loc;
    forall i: nat
      ensures OwnsCell(s', i, c, loc') <==> OwnsCell(s, i, c, loc)
    {
      if c == b { OwnsAfterGrow(cfg, s, b, pow2, i, loc); } else { OwnsElsewhere(cfg, s, b, pow2, i, c, loc); }
    }
    if c == b { SpreadAt(s.data[b].cells, GrownPow2(pow2) - s.data[b].pow2, ZeroCell(cfg, b), loc); }
    assert Leaked(s', c, loc');
  }

  lemma LeakWasThere<T>(cfg: Config<T>, s: Shard<T>, b: nat, pow2: nat, c: nat, loc': nat)
    requires Inv(cfg, s) && CanGrowData(s.data, b, pow2) && Leaked(GrowShard(cfg, s, b, pow2), c, loc')
    ensures !Tight(s)
  {
    hide Inv, OwnsCell;
    var s' := GrowShard(cfg, s, b, pow2);
    assert c < |s.data|;
    var m := if c == b then Pow2(GrownPow2(pow2) - s.data[b].pow2) else 1;
    var loc := loc' / m;
    if c == b { DivBelow(loc', |s.data[b].cells|, m); }
    assert loc' == loc * m;
    forall i: nat
      ensures OwnsCell(s', i, c, loc') <==> OwnsCell(s, i, c, loc)
    {
      if c == b { OwnsAfterGrow(cfg, s, b, pow2, i, loc); } else { OwnsElsewhere(cfg, s, b, pow2, i, c, loc); }
    }
    assert Leaked(s, c, loc);
  }

  /** A grown data storage has a leaked cell exactly when the old one had. */
  lemma GrowDataLeaks<T>(cfg: Config<T>, s: Shard<T>, b: nat, pow2: nat)
    requires Inv(cfg, s) && CanGrowData(s.data, b, pow2)
    ensures Tight(GrowShard(cfg, s, b, pow2)) <==> Tight(s)
  {
    hide Inv, Leaked;
    if c: nat, loc: nat :| Leaked(s, c, loc) { LeakGrows(cfg, s, b, pow2, c, loc); }
    if c: nat, loc: nat :| Leaked(GrowShard(cfg, s, b, pow2), c, loc) { LeakWasThere(cfg, s, b, pow2, c, loc); }
  }

  lemma {:induction false} GrowIndexLeaks<T>(cfg: Config<T>, s: Shard<T>, i: nat, seeds: seq<nat>)
    requires Inv(cfg, s) && GrowIndex(cfg, s, i, seeds).Some?
    ensures SameLeaks(s, Install(cfg, s, GrowIndex(cfg, s, i, seeds).value))
    decreases |seeds|
  {
    hide SameLeaks, WindowsOk, KeysUnique, Holds, EntriesOk, OwnersApart, DataOk;
    if Rehash(cfg, s.index.cells, |s.index.cells|, s.index.pow2 + i, seeds[0]).Some? {
      RehashOk(cfg, s.index.cells, s.random, |s.index.cells|, s.index.pow2 + i, seeds[0]);
      NewIndexLeaks(s, Install(cfg, s, GrowIndex(cfg, s, i, seeds).value));
    } else {
      GrowIndexLeaks(cfg, s, i + 1, seeds[1..]);
    }
  }

  lemma GrowLeaks<T>(cfg: Config<T>, s: Shard<T>, err: Error, seeds: seq<nat>)
    requires Inv(cfg, s) && CanGrow(s, err)
    ensures var r := Grow(cfg, s, err, seeds);
            r.Grew? ==> (Tight(Install(cfg, s, r.g)) <==> Tight(s))
  {
    hide Inv, Tight, GrowIndex, GrowData;
    match Grow(cfg, s, err, seeds)
    case Grew(g) =>
      match err {
        case DataNoSpace(b, pow2) => GrowDataLeaks(cfg, s, b, pow2);
        case IndexNoSpace(_) =>
          GrowIndexLeaks(cfg, s, 1, seeds);
          SameLeaksTight(s, Install(cfg, s, g));
      }
    case _ =>
  }

  // ---------- operations ----------

  lemma SlotCount<T>(s: Shard<T>, m: map<Pubkey, Value<T>>, i: nat)
    requires Represents(s, m) && Locked(s.index.cells, i)
    ensures s.index.cells[i].payload.key in m
      && |m[s.index.cells[i].payload.key].slots| == s.index.cells[i].payload.numSlots
  {
    RepresentsAt(s, m, i);
  }

  lemma ClassZero(n: nat)
    ensures SizeClass(n) == 0 <==> n <= 1
  {
  }

  lemma WriteSlotsLeaks<T>(cfg: Config<T>, s: Shard<T>, m: map<Pubkey, Value<T>>, i: nat, slots: seq<T>, pos: nat)
    requires Inv(cfg, s) && Represents(s, m) && Locked(s.index.cells, i) && SizeClass(|slots|) < |s.data|
    ensures var s' := WriteSlots(cfg, s, i, slots, pos).0;
            if slots == [] && s.index.cells[i].payload.numSlots == 1 then !Tight(s') else Tight(s') <==> Tight(s)
  {
    hide Inv, Represents, DataOk, DataStorageOk, Leaked, SameLeaks, Release, Claim, UpdateInPlace;
    var e := s.index.cells[i].payload;
    var best := SizeClass(|slots|);
    OwnedCell(cfg, s, i);
    InvData(cfg, s, best);
    SizeClassFits(|slots|);
    ClassZero(|slots|);
    ClassZero(e.numSlots);
    if best == SizeClass(e.numSlots) && e.numSlots > 0 {
      UpdateInPlaceLeaks(cfg, s, m, i, slots);
      if slots != [] { SameLeaksTight(s, UpdateInPlace(s, i, slots)); }
    } else {
      match FirstFree(s.data[best].cells, pos, 0, cfg.maxSearch)
      case None =>
      case Some(ix) =>
        MoveLeaks(cfg, s, m, i, ix, slots);
    }
  }

  lemma MoveLeaks<T>(cfg: Config<T>, s: Shard<T>, m: map<Pubkey, Value<T>>, i: nat, ix: nat, slots: seq<T>)
    requires Inv(cfg, s) && Represents(s, m) && Locked(s.index.cells, i)
    requires SizeClass(|slots|) < |s.data| && ix < |s.data[SizeClass(|slots|)].cells|
    requires s.data[SizeClass(|slots|)].cells[ix].lock == UID_UNLOCKED
    requires !(SizeClass(|slots|) == SizeClass(s.index.cells[i].payload.numSlots)
               && s.index.cells[i].payload.numSlots > 0)
    ensures var e := s.index.cells[i].payload;
            && Placeable(s.data, e)
            && (e.numSlots > 0 ==>
                  var (b, loc) := Place(s.data, e); loc < |s.data[b].cells| && s.data[b].count >= 1)
            && |slots| <= |s.data[SizeClass(|slots|)].cells[ix].payload|
            && (Tight(Claim(Release(s, i), i, SizeClass(|slots|), ix, slots)) <==> Tight(s))
  {
    hide Inv, Represents, Leaked, SameLeaks;
    ReleaseStep(cfg, s, m, i);
    ReleaseLeaks(cfg, s, m, i);
    var e := s.index.cells[i].payload;
    var s1 := Release(s, i);
    ClaimLeaks(cfg, s1, m[e.key := Value([], e.refCount)], i, ix, slots);
    SameLeaksTight(s, s1);
    SameLeaksTight(s1, Claim(s1, i, SizeClass(|slots|), ix, slots));
  }

  lemma OpenEntryLeaks<T>(cfg: Config<T>, s: Shard<T>, m: map<Pubkey, Value<T>>, key: Pubkey, refCount: nat)
    requires Inv(cfg, s) && Represents(s, m) && |s.data| > 0
    ensures Shaped(s.index)
    ensures match OpenEntry(cfg, s, key, refCount)
            case None => key !in m
            case Some((s', i)) => SameLeaks(s, s')
  {
    hide Inv, Represents, SameLeaks, IndexOk;
    InvIndex(cfg, s);
    OpenEntryKeepsInv(cfg, s, key, refCount);
    OpenEntryStep(cfg, s, m, key, refCount);
    match FindEntryMut(cfg, s.index.cells, s.random, key)
    case Full =>
    case Found(i) => SetRefCountLeaks(s, i, refCount);
    case Vacant(i) =>
      var s1 := CreateEntry(s, i, KeyUid(cfg, key), key);
      CreateEntryLeaks(s, i, KeyUid(cfg, key), key);
      SetRefCountLeaks(s1, i, refCount);
      SameLeaksChain(s, s1, SetEntry(s1, i, InitEntry(key).(refCount := refCount)));
  }

  /** The write that leaks: an empty list over a list of one. */
  predicate Empties<T>(m: map<Pubkey, Value<T>>, key: Pubkey, slots: seq<T>) {
    key in m && |m[key].slots| == 1 && slots == []
  }

  lemma TryWriteLeaks<T>(cfg: Config<T>, s: Shard<T>, m: map<Pubkey, Value<T>>,
                         key: Pubkey, slots: seq<T>, refCount: nat, pos: nat)
    requires Inv(cfg, s) && Represents(s, m)
    ensures var s' := TryWrite(cfg, s, key, slots, refCount, pos).0;
            if Empties(m, key, slots) then !Tight(s') else Tight(s') <==> Tight(s)
  {
    hide Inv, Represents, Tight, SameLeaks, WriteSlots, IndexOk, DataOk;
    var best := SizeClass(|slots|);
    if best < |s.data| {
      InvIndex(cfg, s);
      OpenEntryStep(cfg, s, m, key, refCount);
      OpenEntryLeaks(cfg, s, m, key, refCount);
      match OpenEntry(cfg, s, key, refCount)
      case None =>
      case Some((s1, i)) =>
        var m1 := Touched(m, key, refCount);
        SlotCount(s1, m1, i);
        SameLeaksTight(s, s1);
        WriteSlotsLeaks(cfg, s1, m1, i, slots, pos);
    } else if key in m {
      HasStorageZero(cfg, s, m, key);
    }
  }

  /** A key in the index means that data storage 0 exists. */
  lemma HasStorageZero<T>(cfg: Config<T>, s: Shard<T>, m: map<Pubkey, Value<T>>, key: Pubkey)
    requires Inv(cfg, s) && Represents(s, m) && key in m
    ensures |s.data| > 0
  {
    RepresentsKeys(s, m, key);
    var i: nat :| i < |s.index.cells| && s.index.cells[i].lock != UID_UNLOCKED && s.index.cells[i].payload.key == key;
    InvEntry(cfg, s, i);
  }

  lemma DeleteLeaks<T>(cfg: Config<T>, s: Shard<T>, m: map<Pubkey, Value<T>>, key: Pubkey)
    requires Inv(cfg, s) && Represents(s, m)
    ensures SameLeaks(s, DeleteKey(cfg, s, key))
  {
    hide Inv, Represents, Leaked, IndexOk;
    InvIndex(cfg, s);
    FindEntryComplete(cfg, s.index, s.random, key);
    match FindEntry(cfg, s.index.cells, s.random, key)
    case None =>
    case Some(i) =>
      OwnedCell(cfg, s, i);
      ReleaseLeaks(cfg, s, m, i);
      var s1, e := Release(s, i), s.index.cells[i].payload;
      DropCellLeaks(s1, i, e);
      SameLeaksChain(s, s1, DropCell(s1, i, e));
  }

  lemma ChangeRefLeaks<T>(cfg: Config<T>, s: Shard<T>, key: Pubkey, delta: int)
    requires Inv(cfg, s)
    requires var r := FindEntry(cfg, s.index.cells, s.random, key);
             r.Some? ==> r.value < |s.index.cells| && s.index.cells[r.value].payload.refCount + delta >= 0
    ensures Tight(ChangeRef(cfg, s, key, delta).0) <==> Tight(s)
  {
    hide Inv, Tight, SameLeaks, IndexOk;
    InvIndex(cfg, s);
    FindEntryComplete(cfg, s.index, s.random, key);
    match FindEntry(cfg, s.index.cells, s.random, key)
    case None =>
    case Some(i) =>
      SetRefCountLeaks(s, i, s.index.cells[i].payload.refCount + delta);
      SameLeaksTight(s, ChangeRef(cfg, s, key, delta).0);
  }

  lemma EmptyingSucceeds<T>(cfg: Config<T>, s: Shard<T>, m: map<Pubkey, Value<T>>, key: Pubkey, refCount: nat, pos: nat)
    requires Inv(cfg, s) && Represents(s, m) && Empties(m, key, [])
    ensures TryWrite(cfg, s, key, [], refCount, pos).1.None?
  {
    hide Inv, Represents, IndexOk, DataOk;
    InvIndex(cfg, s);
    HasStorageZero(cfg, s, m, key);
    OpenEntryStep(cfg, s, m, key, refCount);
    var (s1, i) := OpenEntry(cfg, s, key, refCount).value;
    SlotCount(s1, Touched(m, key, refCount), i);
    ClassZero(1);
  }

  lemma {:induction false} InsertLeaks<T>(cfg: Config<T>, s: Shard<T>, m: map<Pubkey, Value<T>>,
                                          key: Pubkey, v: Value<T>, draws: seq<Draw>)
    requires Inv(cfg, s) && Represents(s, m)
    ensures var r := Insert(cfg, s, key, v, draws);
            && (Tight(r.shard) <==> Tight(s) && !(draws != [] && Empties(m, key, v.slots)))
            && (r.done ==> draws != [])
    decreases |draws|
  {
    hide Inv, Represents, Tight, TryWrite, Grow, Install, CanGrow;
    if draws != [] {
      var (s1, err) := TryWrite(cfg, s, key, v.slots, v.refCount, draws[0].pos);
      if Empties(m, key, v.slots) { EmptyingSucceeds(cfg, s, m, key, v.refCount, draws[0].pos); }
      TryWriteRefinesMap(cfg, s, m, key, v.slots, v.refCount, draws[0].pos);
      TryWriteLeaks(cfg, s, m, key, v.slots, v.refCount, draws[0].pos);
      if err.Some? {
        RoundCanGrow(cfg, s, key, v, draws[0]);
        var m1 := MapTryWrite(m, key, v.slots, v.refCount, err, |s.data|);
        GrowKeepsContents(cfg, s1, m1, err.value, draws[0].seeds);
        GrowLeaks(cfg, s1, err.value, draws[0].seeds);
        var g := Grow(cfg, s1, err.value, draws[0].seeds);
        if g.Grew? {
          InsertLeaks(cfg, Install(cfg, s1, g.g), m1, key, v, draws[1..]);
          assert Empties(m1, key, v.slots) == Empties(m, key, v.slots);
        }
      }
    }
  }

  ghost predicate OpEmpties<T>(m: map<Pubkey, Value<T>>, op: Op<T>) {
    match op
    case OpInsert(key, v, _) => Empties(m, key, v.slots)
    case OpTryWrite(key, v, _) => Empties(m, key, v.slots)
    case OpUpdate(key, f, _) => var v := f(Get(m, key)); v.Some? && Empties(m, key, v.value.slots)
    case _ => false
  }

  /** An operation leaks a cell exactly when it overwrites a list of one element by an empty one; none undoes a leak. */
  lemma PerformLeaks<T>(cfg: Config<T>, s: Shard<T>, m: map<Pubkey, Value<T>>, op: Op<T>)
    requires Inv(cfg, s) && Represents(s, m) && Completes(cfg, s, op)
    ensures Tight(Perform(cfg, s, op)) <==> Tight(s) && !OpEmpties(m, op)
  {
    hide Inv, Represents, Contents, Tight, Insert, TryWrite, DeleteKey, ChangeRef, Empties;
    ReadIsLookup(cfg, s, m, op.key);
    match op
    case OpInsert(key, v, draws) => InsertLeaks(cfg, s, m, key, v, draws);
    case OpTryWrite(key, v, pos) => TryWriteLeaks(cfg, s, m, key, v.slots, v.refCount, pos);
    case OpUpdate(key, f, draws) =>
      match f(Read(cfg, s, key)) {
        case None => DeleteLeaks(cfg, s, m, key); SameLeaksTight(s, DeleteKey(cfg, s, key));
        case Some(v) => InsertLeaks(cfg, s, m, key, v, draws);
      }
    case OpDelete(key) => DeleteLeaks(cfg, s, m, key); SameLeaksTight(s, DeleteKey(cfg, s, key));
    case OpAddRef(key) =>
      ChangeRefDefined(cfg, s, key, 1);
      ChangeRefLeaks(cfg, s, key, 1);
    case OpUnref(key) =>
      ChangeRefDefined(cfg, s, key, -1);
      ChangeRefLeaks(cfg, s, key, -1);
  }

  // ---------- whole runs ----------

  /** Installing what g holds neither adds the first leak nor removes the last one. */
  ghost predicate KeepsTight<T>(cfg: Config<T>, s: Shard<T>, g: Grown<T>) {
    Tight(Install(cfg, s, g)) <==> Tight(s)
  }

  /** So does everything that growers have built or published, as long as it can be installed. */
  ghost predicate PendingTight<T>(cfg: Config<T>, a: Api<T>) {
    a.bucket.Some? ==>
      && (forall t :: t in a.growers ==> KeepsTight(cfg, a.bucket.value, a.growers[t].g))
      && (!Jammed(a) && a.newIndex.Some? ==> KeepsTight(cfg, a.bucket.value, a.newIndex.value))
      && (!Jammed(a) && a.newData.Some? ==> KeepsTight(cfg, a.bucket.value, a.newData.value))
  }

  ghost predicate TightApi<T>(a: Api<T>) {
    a.bucket.Some? ==> Tight(a.bucket.value)
  }

  /** The step is a write, of which the part that takes effect empties a list of one. */
  ghost predicate StepEmpties<T>(cfg: Config<T>, a: Api<T>, m: map<Pubkey, Value<T>>, step: Step<T>)
    requires Enabled(cfg, a, step)
  {
    step.Write? && !a.dead &&
    var e := Effective(cfg, Installed(cfg, a, step.seed), Jammed(a), step.op);
    e.Some? && OpEmpties(m, e.value)
  }

  lemma InstalledTight<T>(cfg: Config<T>, a: Api<T>, m: map<Pubkey, Value<T>>, seed: nat)
    requires ApiInv(cfg, a, m) && PendingTight(cfg, a) && a.growers == map[]
    ensures CanInstall(a)
    ensures Tight(Installed(cfg, a, seed)) <==> TightApi(a)
  {
    hide Inv, Represents, Tight, Install, SlotsOk, SameContents;
    InstalledOk(cfg, a, m, seed);
    if a.bucket.None? { EmptyTight(cfg, seed); }
  }

  lemma EmptyTight<T>(cfg: Config<T>, seed: nat)
    ensures Tight(EmptyShard(cfg, seed))
  {
  }

  lemma WriteTight<T>(cfg: Config<T>, a: Api<T>, m: map<Pubkey, Value<T>>, op: Op<T>, seed: nat)
    requires ApiInv(cfg, a, m) && PendingTight(cfg, a) && !a.dead && Enabled(cfg, a, Write(op, seed))
    ensures var a' := Written(cfg, a, op, seed);
            && (TightApi(a') <==> TightApi(a) && !StepEmpties(cfg, a, m, Write(op, seed)))
            && PendingTight(cfg, a')
  {
    hide Inv, Represents, Tight, KeepsTight, Ends, Effective, Perform, MustGrow, FirstGrow, Installed, SameContents,
      SlotsOk, OpEmpties;
    InstalledOk(cfg, a, m, seed);
    InstalledTight(cfg, a, m, seed);
    WriteSlotsOk(cfg, a, op, seed);
    var s := Installed(cfg, a, seed);
    var e := Effective(cfg, s, Jammed(a), op);
    if e.Some? { PerformLeaks(cfg, s, m, e.value); }
    if !Jammed(a) { AtMostOnePending(Written(cfg, a, op, seed)); }
  }

  lemma StepTight<T>(cfg: Config<T>, a: Api<T>, m: map<Pubkey, Value<T>>, step: Step<T>)
    requires ApiInv(cfg, a, m) && PendingTight(cfg, a) && Enabled(cfg, a, step)
    ensures var a' := Next(cfg, a, step);
            && (TightApi(a') <==> TightApi(a) && !StepEmpties(cfg, a, m, step))
            && PendingTight(cfg, a')
  {
    hide Inv, Represents, Tight, KeepsTight, Ends, Written, Grow, CanGrow, SameContents, ProtocolOk;
    match step
    case StartGrow(t, err, seeds) =>
      if Grows(a, err) { StartTight(cfg, a.bucket.value, err, seeds); }
    case Publish(t) =>
    case Write(op, seed) =>
      if !a.dead { WriteTight(cfg, a, m, op, seed); }
  }

  lemma StartTight<T>(cfg: Config<T>, s: Shard<T>, err: Error, seeds: seq<nat>)
    requires Inv(cfg, s) && CanGrow(s, err)
    ensures var r := Grow(cfg, s, err, seeds); r.Grew? ==> KeepsTight(cfg, s, r.g)
  {
    hide Inv, CanGrow, Grow, Tight;
    GrowLeaks(cfg, s, err, seeds);
  }

  /** Some write of the run empties a list of one. */
  ghost predicate RunEmpties<T>(cfg: Config<T>, a: Api<T>, m: map<Pubkey, Value<T>>, steps: seq<Step<T>>)
    requires ValidRun(cfg, a, steps)
    decreases |steps|
  {
    steps != [] &&
    (StepEmpties(cfg, a, m, steps[0]) ||
     RunEmpties(cfg, Next(cfg, a, steps[0]), PlainNext(cfg, a, m, steps[0]), steps[1..]))
  }

  lemma {:induction false} RunTight<T>(cfg: Config<T>, a: Api<T>, m: map<Pubkey, Value<T>>, steps: seq<Step<T>>)
    requires ApiInv(cfg, a, m) && PendingTight(cfg, a) && ValidRun(cfg, a, steps)
    ensures TightApi(Final(cfg, a, steps)) <==> TightApi(a) && !RunEmpties(cfg, a, m, steps)
    decreases |steps|
  {
    hide ApiInv, PendingTight, TightApi, StepEmpties, Enabled, Next, PlainNext;
    if steps != [] {
      StepKeepsInv(cfg, a, m, steps[0]);
      StepTight(cfg, a, m, steps[0]);
      RunTight(cfg, Next(cfg, a, steps[0]), PlainNext(cfg, a, m, steps[0]), steps[1..]);
    }
  }

  /**
   * For every run of writers and growers from the start, read-locked grows and failed
   * assertions included: every locked data cell has an owner if and only if no write of
   * the run overwrote a list of one element by an empty one.
   */
  lemma LeaksIffEmptied<T>(cfg: Config<T>, steps: seq<Step<T>>)
    requires ValidRun(cfg, NewApi<T>(), steps)
    ensures TightApi(Final(cfg, NewApi<T>(), steps)) <==> !RunEmpties(cfg, NewApi<T>(), map[], steps)
  {
    NewApiInv(cfg);
    RunTight(cfg, NewApi<T>(), map[], steps);
  }

  /** A first insert succeeds on the second attempt, after data storage 0 was created. */
  lemma FirstInsert<T>(cfg: Config<T>, random: nat, key: Pubkey, x: T, refCount: nat, d: Draw)
    requires cfg.maxSearch >= 1
    ensures Inv(cfg, EmptyShard(cfg, random))
    ensures Insert(cfg, EmptyShard(cfg, random), key, Value([x], refCount), [d, d]).done
  {
    var s, v := EmptyShard(cfg, random), Value([x], refCount);
    EmptyShardOk(cfg, random);
    RoundCanGrow(cfg, s, key, v, d);
    assert SizeClass(1) == 0;
    var g := NewData(0, NewStorage(cfg, 0, DEFAULT_CAPACITY_POW2));
    assert TryWrite(cfg, s, key, [x], refCount, d.pos) == (s, Some(DataNoSpace(0, 0)));
    assert Grow(cfg, s, DataNoSpace(0, 0), d.seeds) == Grew(g);
    var s1 := Install(cfg, s, g);
    SecondAttempt(cfg, s1, key, [x], refCount, d.pos);
    InsertUnroll(cfg, s, key, v, [d, d]);
    InsertUnroll(cfg, s1, key, v, [d]);
    assert [d, d][1..] == [d];
  }

  lemma SecondAttempt<T>(cfg: Config<T>, s: Shard<T>, key: Pubkey, slots: seq<T>, refCount: nat, pos: nat)
    requires Inv(cfg, s) && cfg.maxSearch >= 1 && SizeClass(|slots|) < |s.data|
    requires LockedSet(s.index.cells) == {} && LockedSet(s.data[SizeClass(|slots|)].cells) == {}
    ensures TryWrite(cfg, s, key, slots, refCount, pos).1.None?
  {
    hide Inv, Represents, Contents;
    InvIndex(cfg, s);
    InvData(cfg, s, SizeClass(|slots|));
    ContentsRepresented(cfg, s);
    OpenEntryStep(cfg, s, Contents(cfg, s), key, refCount);
    var home := Home(cfg, key, s.random, |s.index.cells|);
    var data := s.data[SizeClass(|slots|)].cells;
    assert Slot(home, 0, |s.index.cells|) !in LockedSet(s.index.cells);
    assert Slot(pos, 0, |data|) !in LockedSet(data);
    assert FirstFree(s.index.cells, home, 0, cfg.maxSearch).Some?;
    assert FirstFree(data, pos, 0, cfg.maxSearch).Some?;
  }

  lemma QuietWrite<T>(cfg: Config<T>, a: Api<T>, op: Op<T>, seed: nat)
    requires !Jammed(a) && a.active == 0 && !a.dead && a.growers == map[] && Inv(cfg, Installed(cfg, a, seed))
    requires Completes(cfg, Installed(cfg, a, seed), op) && op.OpInsert?
    ensures Enabled(cfg, a, Write(op, seed))
    ensures Next(cfg, a, Write(op, seed)) == a.(bucket := Some(Perform(cfg, Installed(cfg, a, seed), op)))
  {
    hide Inv, Completes, Perform, MustGrow, Installed;
  }

  /** The leak happens: one insert of a single element, then one of an empty list. */
  lemma EmptyingLeaks<T>(cfg: Config<T>, seed: nat, key: Pubkey, x: T, refCount: nat, d: Draw)
    requires cfg.maxSearch >= 1
    ensures var first := Write(OpInsert(key, Value([x], refCount), [d, d]), seed);
            var second := Write(OpInsert(key, Value([], refCount), [d]), seed);
            && ValidRun(cfg, NewApi<T>(), [first, second])
            && !TightApi(Final(cfg, NewApi<T>(), [first, second]))
  {
    hide Inv, Represents, Insert, Tight, Enabled, Next;
    var op1, op2 := OpInsert(key, Value([x], refCount), [d, d]), OpInsert(key, Value([], refCount), [d]);
    var a0, s0, m1 := NewApi<T>(), EmptyShard(cfg, seed), map[key := Value([x], refCount)];
    FirstInsert(cfg, seed, key, x, refCount, d);
    EmptyShardOk(cfg, seed);
    PerformRefinesPlain(cfg, s0, map[], op1);
    var s1 := Perform(cfg, s0, op1);
    QuietWrite(cfg, a0, op1, seed);
    var a1 := Next(cfg, a0, Write(op1, seed));
    EmptyingSucceeds(cfg, s1, m1, key, refCount, d.pos);
    InsertUnroll(cfg, s1, key, Value([], refCount), [d]);
    PerformLeaks(cfg, s1, m1, op2);
    QuietWrite(cfg, a1, op2, seed);
    RunOne(cfg, a1, Write(op2, seed), []);
    RunOne(cfg, a0, Write(op1, seed), [Write(op2, seed)]);
  }

  // ---------- what the counter of a data storage counts ----------

  /** The index cells whose entries have their slots in storage b. */
  ghost function OwnersIn<T>(s: Shard<T>, b: nat): set<nat> {
    set i: nat | i < |s.index.cells| && s.index.cells[i].lock != UID_UNLOCKED
               && s.index.cells[i].payload.numSlots > 0 && SizeClass(s.index.cells[i].payload.numSlots) == b
  }

  ghost predicate AllPlaceable<T>(s: Shard<T>, a: set<nat>) {
    forall i :: i in a ==> i < |s.index.cells| && Placeable(s.data, s.index.cells[i].payload)
  }

  ghost function CellsOf<T>(s: Shard<T>, a: set<nat>): set<nat>
    requires AllPlaceable(s, a)
  {
    set i | i in a :: Place(s.data, s.index.cells[i].payload).1
  }

  lemma {:induction false} CellsOfCard<T>(cfg: Config<T>, s: Shard<T>, b: nat, a: set<nat>)
    requires Inv(cfg, s) && a <= OwnersIn(s, b) && AllPlaceable(s, a)
    ensures |CellsOf(s, a)| == |a|
    decreases a
  {
    hide Inv, Place, OwnersIn;
    if a != {} {
      var x :| x in a;
      var rest := a - {x};
      CellsOfCard(cfg, s, b, rest);
      var y := Place(s.data, s.index.cells[x].payload).1;
      assert CellsOf(s, a) == CellsOf(s, rest) + {y};
      forall i | i in rest
        ensures Place(s.data, s.index.cells[i].payload).1 != y
      {
        DifferentCells(cfg, s, i, x, b);
      }
    }
  }

  lemma DifferentCells<T>(cfg: Config<T>, s: Shard<T>, i: nat, x: nat, b: nat)
    requires Inv(cfg, s) && i in OwnersIn(s, b) && x in OwnersIn(s, b) && i != x
    ensures Placeable(s.data, s.index.cells[i].payload) && Placeable(s.data, s.index.cells[x].payload)
    ensures Place(s.data, s.index.cells[i].payload).1 != Place(s.data, s.index.cells[x].payload).1
  {
    hide Inv;
    OthersElsewhere(cfg, s, x);
  }

  lemma OwnersPlaceable<T>(cfg: Config<T>, s: Shard<T>, b: nat)
    requires Inv(cfg, s)
    ensures AllPlaceable(s, OwnersIn(s, b))
  {
    hide Inv;
    forall i | i in OwnersIn(s, b)
      ensures Placeable(s.data, s.index.cells[i].payload)
    {
      InvEntry(cfg, s, i);
    }
  }

  lemma CellsAreOwned<T>(s: Shard<T>, b: nat, loc: nat)
    requires AllPlaceable(s, OwnersIn(s, b))
    ensures loc in CellsOf(s, OwnersIn(s, b)) <==> Owned(s, b, loc)
  {
    if loc in CellsOf(s, OwnersIn(s, b)) {
      var i :| i in OwnersIn(s, b) && Place(s.data, s.index.cells[i].payload).1 == loc;
      assert OwnsCell(s, i, b, loc);
    }
    if i: nat :| OwnsCell(s, i, b, loc) { assert i in OwnersIn(s, b); }
  }

  lemma OwnedIsLocked<T>(cfg: Config<T>, s: Shard<T>, b: nat, loc: nat)
    requires Inv(cfg, s) && Owned(s, b, loc)
    ensures b < |s.data| && Locked(s.data[b].cells, loc)
  {
    hide Inv;
    var i: nat :| OwnsCell(s, i, b, loc);
    InvEntry(cfg, s, i);
    InvWindow(cfg, s, i);
  }

  /**
   * The counter is never below the number of non-empty slot lists of its size class, and equal
   * exactly without leaks.
   */
  lemma CountIsOwnersIffNoLeak<T>(cfg: Config<T>, s: Shard<T>, b: nat)
    requires Inv(cfg, s) && b < |s.data|
    ensures s.data[b].count >= |OwnersIn(s, b)|
    ensures s.data[b].count == |OwnersIn(s, b)| <==> forall loc: nat :: !Leaked(s, b, loc)
  {
    hide Inv, Owned, OwnersIn, CellsOf;
    OwnersPlaceable(cfg, s, b);
    CellsOfCard(cfg, s, b, OwnersIn(s, b));
    InvData(cfg, s, b);
    var used, locked := CellsOf(s, OwnersIn(s, b)), LockedSet(s.data[b].cells);
    forall loc: nat
      ensures loc in used ==> loc in locked
      ensures Leaked(s, b, loc) <==> loc in locked - used
    {
      CellsAreOwned(s, b, loc);
      if Owned(s, b, loc) { OwnedIsLocked(cfg, s, b, loc); }
    }
    assert locked == used + (locked - used);
    assert |locked| == |used| + |locked - used|;
  }
}
