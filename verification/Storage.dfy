/**
 * The value of one bucket storage: a power-of-two number of cells, each with a
 * header lock (0 means unlocked) and a payload, and a count of allocated cells.
 */
module Storage {
  import opened Powers

  datatype Option<+V> = None | Some(value: V)

  const DEFAULT_CAPACITY_POW2: nat := 5
  const UID_UNLOCKED: nat := 0

  datatype Cell<E> = Cell(lock: nat, payload: E)

  datatype Storage<E> = Storage(pow2: nat, cells: seq<Cell<E>>, count: nat)

  predicate Locked<E>(cells: seq<Cell<E>>, i: int) {
    0 <= i < |cells| && cells[i].lock != UID_UNLOCKED
  }

  predicate Shaped<E>(s: Storage<E>) {
    |s.cells| == Pow2(s.pow2)
  }

  /** The allocated cells. */
  ghost function LockedSet<E>(cells: seq<Cell<E>>): set<nat> {
    set i: nat | i < |cells| && cells[i].lock != UID_UNLOCKED
  }

  /** The counter tells the truth. */
  ghost predicate Counted<E>(s: Storage<E>) {
    s.count == |LockedSet(s.cells)|
  }

  lemma LockedSetUpdate<E>(cells: seq<Cell<E>>, i: nat, c: Cell<E>)
    requires i < |cells|
    ensures |LockedSet(cells[i := c])| ==
            |LockedSet(cells)| - (if cells[i].lock != UID_UNLOCKED then 1 else 0)
                               + (if c.lock != UID_UNLOCKED then 1 else 0)
  {
    var rest := LockedSet(cells) - {i};
    assert LockedSet(cells) == if cells[i].lock != UID_UNLOCKED then rest + {i} else rest;
    assert LockedSet(cells[i := c]) == if c.lock != UID_UNLOCKED then rest + {i} else rest;
  }

  // ---------- probing ----------

  /** The cell that a probe started at `home` looks at after `j` steps. */
  function Slot(home: nat, j: nat, cap: nat): (r: nat)
    requires cap > 0
    ensures r < cap
  {
    (home + j) % cap
  }

  /** First unlocked cell seen by a probe of steps j, j+1, .., max-1. */
  function FirstFree<E>(cells: seq<Cell<E>>, home: nat, j: nat, max: nat): (r: Option<nat>)
    requires |cells| > 0
    ensures r.Some? ==> r.value < |cells| && cells[r.value].lock == UID_UNLOCKED
    decreases max - j
  {
    if j >= max then None
    else
      var ii := Slot(home, j, |cells|);
      if cells[ii].lock == UID_UNLOCKED then Some(ii)
      else FirstFree(cells, home, j + 1, max)
  }

  /** How many steps after `home`, wrapping around, the cell `i` lies. */
  function Offset(home: nat, i: nat, cap: nat): (r: nat)
    requires home < cap && i < cap
    ensures r < cap
  {
    if i >= home then i - home else i + cap - home
  }

  lemma SlotOfOffset(home: nat, i: nat, cap: nat)
    requires home < cap && i < cap
    ensures Slot(home, Offset(home, i, cap), cap) == i
  {
    DivModUnique(home + Offset(home, i, cap), if i < home then 1 else 0, i, cap);
  }

  /** The offset is the least number of steps after which a probe sees the cell. */
  lemma {:induction false} OffsetOfSlot(home: nat, j: nat, cap: nat)
    requires home < cap
    ensures Offset(home, Slot(home, j, cap), cap) <= j
    decreases j
  {
    if j >= cap {
      ModSubtract(home + j, cap);
      OffsetOfSlot(home, j - cap, cap);
    } else if home + j >= cap {
      DivModUnique(home + j, 1, home + j - cap, cap);
    } else {
      DivModUnique(home + j, 0, home + j, cap);
    }
  }

  /** A probe of `max` steps from `home` sees only locked cells. */
  ghost predicate WindowFull<E>(cells: seq<Cell<E>>, home: nat, max: nat)
    requires |cells| > 0
  {
    forall j: nat :: home <= j < home + max ==> cells[j % |cells|].lock != 0
  }

  /** The cell i is unlocked, and a probe from `home` reaches it within `max` steps past locked cells only. */
  ghost predicate FirstFreeAt<E>(cells: seq<Cell<E>>, home: nat, max: nat, i: nat)
    requires |cells| > 0
  {
    && i < |cells| && cells[i].lock == 0
    && exists k: nat :: k < max && i == (home + k) % |cells| && WindowFull(cells, home, k)
  }

  /** FirstFree names an unlocked cell of the window and fails only on a full window. */
  lemma {:induction false} FirstFreeSound<E>(cells: seq<Cell<E>>, home: nat, j: nat, max: nat)
    requires |cells| > 0
    ensures var r := FirstFree(cells, home, j, max);
            match r
            case Some(ii) =>
              && ii < |cells| && cells[ii].lock == UID_UNLOCKED
              && (home < |cells| ==> Offset(home, ii, |cells|) < max)
            case None => forall k :: j <= k < max ==> cells[Slot(home, k, |cells|)].lock != UID_UNLOCKED
    decreases max - j
  {
    if j < max {
      var ii := Slot(home, j, |cells|);
      if cells[ii].lock == UID_UNLOCKED {
        if home < |cells| { OffsetOfSlot(home, j, |cells|); }
      } else {
        FirstFreeSound(cells, home, j + 1, max);
      }
    }
  }

  lemma WindowFullAt<E>(cells: seq<Cell<E>>, home: nat, max: nat, k: nat)
    requires |cells| > 0 && WindowFull(cells, home, max) && k < max
    ensures cells[Slot(home, k, |cells|)].lock != UID_UNLOCKED
  {
  }

  lemma WindowFullMore<E>(cells: seq<Cell<E>>, home: nat, j: nat)
    requires |cells| > 0 && WindowFull(cells, home, j) && cells[Slot(home, j, |cells|)].lock != UID_UNLOCKED
    ensures WindowFull(cells, home, j + 1)
  {
  }

  lemma FreeAfter<E>(cells: seq<Cell<E>>, home: nat, j: nat, max: nat)
    requires |cells| > 0 && j < max && WindowFull(cells, home, j)
    requires cells[Slot(home, j, |cells|)].lock == UID_UNLOCKED
    ensures FirstFreeAt(cells, home, max, Slot(home, j, |cells|))
  {
  }

  lemma {:induction false} FirstFreeFrom<E>(cells: seq<Cell<E>>, home: nat, j: nat, max: nat)
    requires |cells| > 0 && j <= max && WindowFull(cells, home, j)
    ensures match FirstFree(cells, home, j, max)
            case Some(i) => FirstFreeAt(cells, home, max, i)
            case None => WindowFull(cells, home, max)
    decreases max - j
  {
    hide WindowFull, FirstFreeAt, Slot;
    if j < max {
      if cells[Slot(home, j, |cells|)].lock != UID_UNLOCKED {
        WindowFullMore(cells, home, j);
        FirstFreeFrom(cells, home, j + 1, max);
      } else {
        FreeAfter(cells, home, j, max);
      }
    }
  }

  lemma FirstFreeAtUnique<E>(cells: seq<Cell<E>>, home: nat, max: nat, i: nat, i': nat)
    requires |cells| > 0 && FirstFreeAt(cells, home, max, i)
    ensures !WindowFull(cells, home, max)
    ensures FirstFreeAt(cells, home, max, i') ==> i' == i
  {
    hide WindowFull;
    var n := |cells|;
    var k: nat :| k < max && i == (home + k) % n && WindowFull(cells, home, k);
    assert Slot(home, k, n) == i;
    if WindowFull(cells, home, max) {
      WindowFullAt(cells, home, max, k);
    }
    if FirstFreeAt(cells, home, max, i') {
      var k': nat :| k' < max && i' == (home + k') % n && WindowFull(cells, home, k');
      assert Slot(home, k', n) == i';
      if k < k' {
        WindowFullAt(cells, home, k', k);
      } else if k' < k {
        WindowFullAt(cells, home, k, k');
      }
    }
  }

  /** A search from `home` fails exactly when its window is full, and else ends at the first free cell. */
  lemma FirstFreeIff<E>(cells: seq<Cell<E>>, home: nat, max: nat)
    requires |cells| > 0
    ensures FirstFree(cells, home, 0, max).None? <==> WindowFull(cells, home, max)
    ensures forall i: nat :: FirstFreeAt(cells, home, max, i) <==> FirstFree(cells, home, 0, max) == Some(i)
  {
    assert WindowFull(cells, home, 0);
    hide WindowFull, FirstFreeAt, FirstFree;
    var r := FirstFree(cells, home, 0, max);
    FirstFreeFrom(cells, home, 0, max);
    forall i: nat
      ensures FirstFreeAt(cells, home, max, i) ==> r == Some(i)
    {
      if FirstFreeAt(cells, home, max, i) {
        FirstFreeAtUnique(cells, home, max, i, if r.Some? then r.value else i);
      }
    }
    if r.Some? {
      FirstFreeAtUnique(cells, home, max, r.value, r.value);
    }
  }

  // ---------- growing ----------

  /** All cells unlocked, as in a newly created file. */
  function EmptyCells<E>(pow2: nat, zero: E): (r: seq<Cell<E>>)
    ensures |r| == Pow2(pow2)
    ensures forall i :: 0 <= i < |r| ==> r[i] == Cell(UID_UNLOCKED, zero)
  {
    seq(Pow2(pow2), _ => Cell(UID_UNLOCKED, zero))
  }

  lemma EmptyHasNoLocked<E>(pow2: nat, zero: E)
    ensures LockedSet(EmptyCells(pow2, zero)) == {}
  {
  }

  /**
   * Copying a storage into one 2^inc times larger puts cell i at i * 2^inc and
   * leaves every other cell as newly created.
   */
  function Spread<E>(cells: seq<Cell<E>>, inc: nat, zero: E): (r: seq<Cell<E>>)
    ensures |r| == |cells| * Pow2(inc)
  {
    var m := Pow2(inc);
    seq(|cells| * m, j requires 0 <= j < |cells| * m =>
      if j % m == 0 then DivBelow(j, |cells|, m); cells[j / m] else Cell(UID_UNLOCKED, zero))
  }

  lemma DivBelow(j: nat, n: nat, m: nat)
    requires m >= 1 && j < n * m
    ensures j / m < n
  {
    var q := j / m;
    assert q * m <= j;
    if n < q {
      MulMono(n, q, m);
      assert false;
    }
  }

  lemma SpreadAt<E>(cells: seq<Cell<E>>, inc: nat, zero: E, i: nat)
    requires i < |cells|
    ensures i * Pow2(inc) < |cells| * Pow2(inc)
    ensures Spread(cells, inc, zero)[i * Pow2(inc)] == cells[i]
  {
    var m := Pow2(inc);
    MulMono(i, |cells|, m);
    assert (i * m) % m == 0 && (i * m) / m == i by { MulDivMod(i, m); }
  }

  lemma MulDivMod(i: nat, m: nat)
    requires m >= 1
    ensures (i * m) % m == 0 && (i * m) / m == i
  {
    DivModUnique(i * m, i, 0, m);
  }

  /** Cell j of the target after the first i cells were copied. */
  ghost function Copied<E>(src: seq<Cell<E>>, m: nat, zero: E, i: nat, j: nat): Cell<E>
    requires m >= 1 && i <= |src|
  {
    if j % m == 0 && j / m < i then src[j / m] else Cell(UID_UNLOCKED, zero)
  }

  lemma CopiedStep<E>(src: seq<Cell<E>>, m: nat, zero: E, i: nat, j: nat)
    requires m >= 1 && i < |src|
    ensures Copied(src, m, zero, i + 1, j) == if j == i * m then src[i] else Copied(src, m, zero, i, j)
  {
    MulDivMod(i, m);
    assert j % m == 0 ==> j == (j / m) * m;
  }

  function Scale(i: nat, m: nat): nat {
    i * m
  }

  ghost function Scaled(a: set<nat>, m: nat): set<nat> {
    set i | i in a :: Scale(i, m)
  }

  /** Spreading keeps the number of locked cells. */
  lemma SpreadCount<E>(cells: seq<Cell<E>>, inc: nat, zero: E)
    ensures |LockedSet(Spread(cells, inc, zero))| == |LockedSet(cells)|
  {
    var m := Pow2(inc);
    var s := Spread(cells, inc, zero);
    var image := Scaled(LockedSet(cells), m);
    forall j | j in LockedSet(s)
      ensures j in image
    {
      DivBelow(j, |cells|, m);
      assert s[j] == cells[j / m];
      assert j == Scale(j / m, m);
    }
    forall j | j in image
      ensures j in LockedSet(s)
    {
      var i :| i in LockedSet(cells) && j == Scale(i, m);
      SpreadAt(cells, inc, zero, i);
    }
    assert LockedSet(s) == image;
    ScaledCard(LockedSet(cells), m);
  }

  lemma ScaledInsert(b: set<nat>, x: nat, m: nat)
    requires m >= 1 && x !in b
    ensures Scaled(b + {x}, m) == Scaled(b, m) + {Scale(x, m)}
    ensures Scale(x, m) !in Scaled(b, m)
  {
    forall i | i in b
      ensures Scale(i, m) != Scale(x, m)
    {
      MulInjective(i, x, m);
    }
  }

  lemma {:induction false} ScaledCard(a: set<nat>, m: nat)
    requires m >= 1
    ensures |Scaled(a, m)| == |a|
    decreases a
  {
    if a != {} {
      var x :| x in a;
      ScaledCard(a - {x}, m);
      ScaledInsert(a - {x}, x, m);
      assert a == (a - {x}) + {x};
    }
  }
}
