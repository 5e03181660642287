/**
 * The bytes of a storage. A cell is an 8-byte header followed by room for its elements;
 * cells follow each other without gaps in one file. Header and slice accesses are shown
 * to act on the decoded cells exactly as the cell operations of the storage value do.
 */
module MmapLayout {
  import opened Powers
  import opened Storage
  import opened IndexEntry

  const HEADER_SIZE: nat := 8

  function CellSize(elemSize: nat, numElems: nat): nat {
    elemSize * numElems + HEADER_SIZE
  }

  // ---------- 64-bit words ----------

  function LeValue(bytes: seq<byte>): nat {
    if bytes == [] then 0 else bytes[0] as nat + 256 * LeValue(bytes[1..])
  }

  function LeBytes(x: nat, n: nat): (r: seq<byte>)
    ensures |r| == n
  {
    if n == 0 then [] else [(x % 256) as byte] + LeBytes(x / 256, n - 1)
  }

  lemma FewerBytes(x: nat, p: nat)
    requires x < 256 * p
    ensures x / 256 < p
  {
  }

  /** A word that fits is read back as written. */
  lemma {:induction false} WordRoundTrip(x: nat, n: nat)
    requires x < Pow2(8 * n)
    ensures LeValue(LeBytes(x, n)) == x
  {
    if n > 0 {
      Pow2Add(8, 8 * (n - 1));
      assert Pow2(8) == 256 by { assert Pow2(4) == 16; Pow2Add(4, 4); }
      hide Pow2;
      FewerBytes(x, Pow2(8 * (n - 1)));
      WordRoundTrip(x / 256, n - 1);
      assert LeBytes(x, n)[1..] == LeBytes(x / 256, n - 1);
    }
  }

  // ---------- cells ----------

  /** Cell ix lies inside the file. */
  lemma CellInFile(ix: nat, n: nat, cs: nat)
    requires ix < n && cs >= 1
    ensures ix * cs + cs <= n * cs
  {
    MulMono(ix, n, cs);
  }

  /** The decoded cell: its lock and its raw payload. */
  function CellAt(bytes: seq<byte>, cs: nat, start: nat): (r: Cell<seq<byte>>)
    requires cs >= HEADER_SIZE && start + cs <= |bytes|
    ensures |r.payload| == cs - HEADER_SIZE
  {
    Cell(LeValue(bytes[start..start + HEADER_SIZE]), bytes[start + HEADER_SIZE..start + cs])
  }

  function DecodeCell(bytes: seq<byte>, cs: nat, ix: nat): (r: Cell<seq<byte>>)
    requires cs >= HEADER_SIZE && ix * cs + cs <= |bytes|
    ensures |r.payload| == cs - HEADER_SIZE
  {
    CellAt(bytes, cs, ix * cs)
  }

  function Decode(bytes: seq<byte>, cs: nat, n: nat): (r: seq<Cell<seq<byte>>>)
    requires cs >= HEADER_SIZE && |bytes| == n * cs
    ensures |r| == n
  {
    seq(n, ix requires 0 <= ix < n => CellInFile(ix, n, cs); DecodeCell(bytes, cs, ix))
  }

  lemma SliceOfSlice(a: seq<byte>, at: nat, len: nat, i: nat, j: nat)
    requires at + len <= |a| && i <= j <= len
    ensures a[at..at + len][i..j] == a[at + i..at + j]
  {
    var x, y := a[at..at + len][i..j], a[at + i..at + j];
    assert |x| == |y|;
    assert forall k :: 0 <= k < |x| ==> x[k] == y[k];
  }

  lemma SameBytesSameCellAt(a: seq<byte>, i: nat, b: seq<byte>, j: nat, cs: nat)
    requires cs >= HEADER_SIZE && i + cs <= |a| && j + cs <= |b|
    requires a[i..i + cs] == b[j..j + cs]
    ensures CellAt(a, cs, i) == CellAt(b, cs, j)
  {
    SliceOfSlice(a, i, cs, 0, HEADER_SIZE);
    SliceOfSlice(b, j, cs, 0, HEADER_SIZE);
    SliceOfSlice(a, i, cs, HEADER_SIZE, cs);
    SliceOfSlice(b, j, cs, HEADER_SIZE, cs);
  }

  lemma SameBytesSameCell(a: seq<byte>, i: nat, b: seq<byte>, j: nat, cs: nat)
    requires cs >= HEADER_SIZE && i * cs + cs <= |a| && j * cs + cs <= |b|
    requires a[i * cs..i * cs + cs] == b[j * cs..j * cs + cs]
    ensures DecodeCell(a, cs, i) == DecodeCell(b, cs, j)
  {
    SameBytesSameCellAt(a, i * cs, b, j * cs, cs);
  }

  /** Two cells do not overlap. */
  lemma CellsApart(i: nat, j: nat, cs: nat)
    requires i != j && cs >= 1
    ensures i * cs + cs <= j * cs || j * cs + cs <= i * cs
  {
    if i < j { MulMono(i, j, cs); } else { MulMono(j, i, cs); }
  }

  /** A change of bytes within cell ix leaves every other decoded cell as it was. */
  lemma OtherCellsKept(before: seq<byte>, after: seq<byte>, cs: nat, n: nat, ix: nat)
    requires cs >= HEADER_SIZE && |before| == n * cs == |after| && ix < n
    requires forall k :: 0 <= k < |before| && !(ix * cs <= k < ix * cs + cs) ==> after[k] == before[k]
    ensures ix * cs + cs <= |after|
    ensures Decode(after, cs, n) == Decode(before, cs, n)[ix := DecodeCell(after, cs, ix)]
  {
    CellInFile(ix, n, cs);
    forall j | 0 <= j < n && j != ix
      ensures Decode(after, cs, n)[j] == Decode(before, cs, n)[j]
    {
      CellInFile(j, n, cs);
      CellsApart(j, ix, cs);
      var s := j * cs;
      assert after[s..s + HEADER_SIZE] == before[s..s + HEADER_SIZE];
      assert after[s + HEADER_SIZE..s + cs] == before[s + HEADER_SIZE..s + cs];
    }
  }

  lemma SliceEffect(before: seq<byte>, after: seq<byte>, cs: nat, n: nat, ix: nat, data: seq<byte>)
    requires cs >= HEADER_SIZE + |data| && |before| == n * cs == |after| && ix < n && ix * cs + cs <= |before|
    requires var at := ix * cs + HEADER_SIZE;
             && after[at..at + |data|] == data
             && forall k :: 0 <= k < |before| && !(at <= k < at + |data|) ==> after[k] == before[k]
    ensures |data| <= |Decode(before, cs, n)[ix].payload|
    ensures Decode(after, cs, n) == Decode(before, cs, n)[ix :=
              Decode(before, cs, n)[ix].(payload := data + Decode(before, cs, n)[ix].payload[|data|..])]
  {
    hide CellAt;
    OtherCellsKept(before, after, cs, n, ix);
    SliceEffectAt(before, after, cs, ix * cs, data);
  }

  /** The same for the one cell, by its start. */
  lemma SliceEffectAt(before: seq<byte>, after: seq<byte>, cs: nat, start: nat, data: seq<byte>)
    requires cs >= HEADER_SIZE + |data| && |before| == |after| && start + cs <= |before|
    requires var at := start + HEADER_SIZE;
             && after[at..at + |data|] == data
             && forall k :: 0 <= k < |before| && !(at <= k < at + |data|) ==> after[k] == before[k]
    ensures |data| <= |CellAt(before, cs, start).payload|
    ensures CellAt(after, cs, start) ==
            CellAt(before, cs, start).(payload := data + CellAt(before, cs, start).payload[|data|..])
  {
    var at := start + HEADER_SIZE;
    assert after[start..at] == before[start..at];
    var x, y := after[at..start + cs], data + before[at..start + cs][|data|..];
    assert |x| == |y|;
    forall k | 0 <= k < |x|
      ensures x[k] == y[k]
    {
      if k < |data| {
        assert after[at..at + |data|][k] == data[k];
      } else {
        assert after[at + k] == before[at + k];
      }
    }
    assert x == y;
  }

  function Zeros(n: nat): (r: seq<byte>)
    ensures |r| == n
  {
    seq(n, _ => 0)
  }

  lemma {:induction false} ZerosValue(n: nat)
    ensures LeValue(Zeros(n)) == 0
  {
    if n > 0 {
      ZerosValue(n - 1);
      assert Zeros(n)[1..] == Zeros(n - 1);
    }
  }

  lemma ZeroCellDecodes(size: nat, cs: nat, ix: nat)
    requires cs >= HEADER_SIZE && ix * cs + cs <= size
    ensures DecodeCell(Zeros(size), cs, ix) == Cell(UID_UNLOCKED, Zeros(cs - HEADER_SIZE))
  {
    var start := ix * cs;
    assert Zeros(size)[start..start + HEADER_SIZE] == Zeros(HEADER_SIZE);
    assert Zeros(size)[start + HEADER_SIZE..start + cs] == Zeros(cs - HEADER_SIZE);
    ZerosValue(HEADER_SIZE);
  }

  lemma ZeroFile(cs: nat, pow2: nat)
    requires cs >= HEADER_SIZE
    ensures Decode(Zeros(Pow2(pow2) * cs), cs, Pow2(pow2)) == EmptyCells(pow2, Zeros(cs - HEADER_SIZE))
  {
    var file := Zeros(Pow2(pow2) * cs);
    hide Pow2, DecodeCell;
    forall ix | 0 <= ix < Pow2(pow2)
      ensures Decode(file, cs, Pow2(pow2))[ix] == Cell(UID_UNLOCKED, Zeros(cs - HEADER_SIZE))
    {
      CellInFile(ix, Pow2(pow2), cs);
      ZeroCellDecodes(Pow2(pow2) * cs, cs, ix);
    }
  }

  /** A slot list of n elements fits into a cell of its size class. */
  lemma SliceFits(elemSize: nat, n: nat)
    ensures elemSize * n + HEADER_SIZE <= CellSize(elemSize, Pow2(SizeClass(n)))
  {
    SizeClassFits(n);
    var m := Pow2(SizeClass(n));
    assert elemSize * m == elemSize * n + elemSize * (m - n);
  }

  class Mmap {
    const bytes: array<byte>
    const cellSize: nat
    const pow2: nat

    ghost predicate Valid() {
      cellSize >= HEADER_SIZE && bytes.Length == Pow2(pow2) * cellSize
    }

    /** The cells the bytes stand for. */
    ghost function Cells(): (r: seq<Cell<seq<byte>>>)
      requires Valid()
      reads bytes
      ensures |r| == Pow2(pow2)
    {
      Decode(bytes[..], cellSize, Pow2(pow2))
    }

    /** A new file of zero bytes is a storage of unlocked cells. */
    constructor (elemSize: nat, numElems: nat, pow2: nat)
      ensures Valid() && cellSize == CellSize(elemSize, numElems) && this.pow2 == pow2 && fresh(bytes)
      ensures bytes.Length == Pow2(pow2) * (elemSize * numElems + 8)
      ensures Cells() == EmptyCells(pow2, Zeros(elemSize * numElems))
    {
      this.pow2 := pow2;
      this.cellSize := CellSize(elemSize, numElems);
      this.bytes := new byte[Pow2(pow2) * CellSize(elemSize, numElems)](_ => 0);
      new;
      assert bytes[..] == Zeros(Pow2(pow2) * cellSize);
      ZeroFile(cellSize, pow2);
    }

    method ReadHeader(ix: nat) returns (lock: nat)
      requires Valid() && ix < Pow2(pow2)
      ensures lock == Cells()[ix].lock
    {
      CellInFile(ix, Pow2(pow2), cellSize);
      var start := ix * cellSize;
      lock := LeValue(bytes[start..start + HEADER_SIZE]);
      assert bytes[..][start..start + HEADER_SIZE] == bytes[start..start + HEADER_SIZE];
    }

    /** Writing a header changes one lock and nothing else. */
    method WriteHeader(ix: nat, lock: nat)
      requires Valid() && ix < Pow2(pow2) && lock < Pow2(8 * HEADER_SIZE)
      modifies bytes
      ensures Cells() == old(Cells())[ix := old(Cells())[ix].(lock := lock)]
      ensures forall k :: 0 <= k < bytes.Length && !(ix * cellSize <= k < ix * cellSize + 8) ==>
        bytes[k] == old(bytes[k])
    {
      CellInFile(ix, Pow2(pow2), cellSize);
      ghost var before := bytes[..];
      var word := LeBytes(lock, HEADER_SIZE);
      var start := ix * cellSize;
      WriteBytes(start, word);
      ghost var after := bytes[..];
      WordRoundTrip(lock, HEADER_SIZE);
      OtherCellsKept(before, after, cellSize, Pow2(pow2), ix);
      assert after[start..start + HEADER_SIZE] == word;
      assert after[start + HEADER_SIZE..start + cellSize] == before[start + HEADER_SIZE..start + cellSize];
    }

    method ReadSlice(ix: nat, len: nat) returns (r: seq<byte>)
      requires Valid() && ix < Pow2(pow2) && len + HEADER_SIZE <= cellSize
      ensures len <= |Cells()[ix].payload| && r == Cells()[ix].payload[..len]
      ensures ix * cellSize + 8 + len <= bytes.Length && r == bytes[ix * cellSize + 8..ix * cellSize + 8 + len]
    {
      CellInFile(ix, Pow2(pow2), cellSize);
      var start := ix * cellSize + HEADER_SIZE;
      r := bytes[start..start + len];
      assert r == bytes[..][start..ix * cellSize + cellSize][..len];
    }

    /** Writing a slice overwrites the first bytes of one payload and nothing else. */
    method WriteSlice(ix: nat, data: seq<byte>)
      requires Valid() && ix < Pow2(pow2) && |data| + HEADER_SIZE <= cellSize
      modifies bytes
      ensures |data| <= |old(Cells())[ix].payload|
      ensures Cells() == old(Cells())[ix := old(Cells())[ix].(payload := data + old(Cells())[ix].payload[|data|..])]
      ensures var start := ix * cellSize + 8;
              && start + |data| <= bytes.Length && bytes[start..start + |data|] == data
              && forall k :: 0 <= k < bytes.Length && !(start <= k < start + |data|) ==> bytes[k] == old(bytes[k])
    {
      CellInFile(ix, Pow2(pow2), cellSize);
      ghost var before := bytes[..];
      var start := ix * cellSize;
      WriteBytes(start + HEADER_SIZE, data);
      SliceEffect(before, bytes[..], cellSize, Pow2(pow2), ix, data);
    }

    method WriteBytes(at: nat, data: seq<byte>)
      requires at + |data| <= bytes.Length
      modifies bytes
      ensures bytes[at..at + |data|] == data
      ensures forall k :: 0 <= k < bytes.Length && !(at <= k < at + |data|) ==> bytes[k] == old(bytes[k])
    {
      for i := 0 to |data|
        invariant forall k :: 0 <= k < i ==> bytes[at + k] == data[k]
        invariant forall k :: 0 <= k < bytes.Length && !(at <= k < at + i) ==> bytes[k] == old(bytes[k])
      {
        bytes[at + i] := data[i];
      }
    }

    /** Byte for byte, cell i of the smaller file goes to cell i * 2^increment of this one. */
    method CopyContents(from: Mmap)
      requires Valid() && from.Valid() && from.cellSize == cellSize && from.pow2 <= pow2 && from.bytes != bytes
      requires Cells() == EmptyCells(pow2, Zeros(cellSize - HEADER_SIZE))
      modifies bytes
      ensures Cells() == Spread(from.Cells(), pow2 - from.pow2, Zeros(cellSize - HEADER_SIZE))
    {
      hide DecodeCell, Decode;
      var m := Pow2(pow2 - from.pow2);
      ghost var src := from.Cells();
      ghost var zero := Zeros(cellSize - HEADER_SIZE);
      Pow2Add(from.pow2, pow2 - from.pow2);
      var n := Pow2(from.pow2);
      for i := 0 to n
        invariant from.Cells() == src
        invariant forall j :: 0 <= j < Pow2(pow2) ==> Cells()[j] == Copied(src, m, zero, i, j)
      {
        MulMono(i, n, m);
        CopyCell(from, i, i * m);
        forall j | 0 <= j < Pow2(pow2)
          ensures Cells()[j] == Copied(src, m, zero, i + 1, j)
        {
          CopiedStep(src, m, zero, i, j);
        }
      }
      forall j | 0 <= j < Pow2(pow2)
        ensures Cells()[j] == Spread(src, pow2 - from.pow2, zero)[j]
      {
        DivBelow(j, n, m);
      }
    }

    method CopyCell(from: Mmap, i: nat, j: nat)
      requires Valid() && from.Valid() && from.cellSize == cellSize && from.bytes != bytes
      requires i < Pow2(from.pow2) && j < Pow2(pow2)
      modifies bytes
      ensures Cells() == old(Cells())[j := from.Cells()[i]]
    {
      hide CellAt;
      CellInFile(i, Pow2(from.pow2), cellSize);
      CellInFile(j, Pow2(pow2), cellSize);
      ghost var before := bytes[..];
      var data := from.bytes[i * cellSize..i * cellSize + cellSize];
      WriteBytes(j * cellSize, data);
      ghost var after := bytes[..];
      OtherCellsKept(before, after, cellSize, Pow2(pow2), j);
      SameBytesSameCell(from.bytes[..], i, after, j, cellSize);
    }
  }
}
