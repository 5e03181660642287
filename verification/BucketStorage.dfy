/**
 * A bucket storage as an object: cells changed in place, and a counter object that a
 * storage shares with the smaller one it was copied from.
 */
module BucketStorages {
  import opened Powers
  import opened Storage

  class Counter {
    var value: nat

    constructor ()
      ensures value == 0
    {
      value := 0;
    }
  }

  class BucketStorage<E> {
    const pow2: nat
    const cells: array<Cell<E>>
    const count: Counter

    ghost predicate Valid() {
      cells.Length == Pow2(pow2)
    }

    ghost function View(): Storage<E>
      reads cells, count
    {
      Storage(pow2, cells[..], count.value)
    }

    /** A new file is all zero bytes, so every cell is unlocked. */
    constructor (pow2: nat, zero: E, count: Counter)
      ensures Valid() && fresh(cells)
      ensures this.pow2 == pow2 && this.count == count
      ensures cells[..] == EmptyCells(pow2, zero)
    {
      this.pow2 := pow2;
      this.count := count;
      this.cells := new Cell<E>[Pow2(pow2)](_ => Cell(UID_UNLOCKED, zero));
    }

    method IsFree(ix: nat) returns (r: bool)
      requires ix < cells.Length
      ensures r <==> !Locked(cells[..], ix)
    {
      r := cells[ix].lock == UID_UNLOCKED;
    }

    /** Locks a free cell; a taken cell is left as it is. Copying an index does not count again. */
    method Allocate(ix: nat, uid: nat, isResizing: bool) returns (ok: bool)
      requires ix < cells.Length && uid != UID_UNLOCKED
      modifies cells, count
      ensures ok <==> !Locked(old(cells[..]), ix)
      ensures cells[..] == if ok then old(cells[..])[ix := old(cells[ix]).(lock := uid)] else old(cells[..])
      ensures count.value == old(count.value) + if ok && !isResizing then 1 else 0
    {
      ok := false;
      if cells[ix].lock == UID_UNLOCKED {
        cells[ix] := cells[ix].(lock := uid);
        ok := true;
        if !isResizing {
          count.value := count.value + 1;
        }
      }
    }

    /** Unlocks a cell that is locked with `uid`; its bytes stay. */
    method Free(ix: nat, uid: nat)
      requires ix < cells.Length && uid != UID_UNLOCKED && cells[ix].lock == uid && count.value >= 1
      modifies cells, count
      ensures cells[..] == old(cells[..])[ix := old(cells[ix]).(lock := UID_UNLOCKED)]
      ensures count.value == old(count.value) - 1
    {
      cells[ix] := cells[ix].(lock := UID_UNLOCKED);
      count.value := count.value - 1;
    }

    method Put(ix: nat, payload: E)
      requires ix < cells.Length
      modifies cells
      ensures cells[..] == old(cells[..])[ix := old(cells[ix]).(payload := payload)]
    {
      cells[ix] := cells[ix].(payload := payload);
    }

    /** Copies a smaller storage into this new one, cell by cell. */
    method CopyContents(from: BucketStorage<E>, zero: E)
      requires Valid() && from.Valid() && from.cells != cells && from.pow2 <= pow2
      requires cells[..] == EmptyCells(pow2, zero)
      modifies cells
      ensures cells[..] == Spread(from.cells[..], pow2 - from.pow2, zero)
    {
      var m := Pow2(pow2 - from.pow2);
      ghost var src := from.cells[..];
      Pow2Add(from.pow2, pow2 - from.pow2);
      assert cells.Length == |src| * m;
      for i := 0 to from.cells.Length
        invariant from.cells[..] == src
        invariant forall j :: 0 <= j < cells.Length ==> cells[j] == Copied(src, m, zero, i, j)
      {
        MulMono(i, |src|, m);
        cells[i * m] := from.cells[i];
        forall j | 0 <= j < cells.Length
          ensures cells[j] == Copied(src, m, zero, i + 1, j)
        {
          CopiedStep(src, m, zero, i, j);
        }
      }
      forall j | 0 <= j < cells.Length
        ensures cells[j] == Spread(src, pow2 - from.pow2, zero)[j]
      {
        DivBelow(j, |src|, m);
      }
    }
  }
}
