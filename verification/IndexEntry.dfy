/** One entry of the index: a key, its ref count and where its slot list is stored. */
module IndexEntry {
  import opened Powers
  import opened Storage

  newtype byte = x: int | 0 <= x < 256

  datatype Pubkey = Pubkey(bytes: seq<byte>)

  /**
   * `offset` is a cell number in a data storage that had 2^capPow cells when the
   * cell was chosen; `numSlots` is the length of the slot list.
   */
  datatype Entry = Entry(key: Pubkey, refCount: nat, offset: nat, capPow: nat, numSlots: nat)

  function InitEntry(key: Pubkey): Entry {
    Entry(key, 0, 0, 0, 0)
  }

  /** Number of binary digits: the word size less the leading zeros. */
  function BitLength(x: nat): nat {
    if x == 0 then 0 else 1 + BitLength(x / 2)
  }

  /** The number of the data storage that holds slot lists of length n. */
  function SizeClass(n: nat): nat {
    if n == 0 then 0 else BitLength(n - 1)
  }

  lemma {:induction false} BitLengthBounds(x: nat)
    ensures x < Pow2(BitLength(x))
    ensures x > 0 ==> Pow2(BitLength(x) - 1) <= x
  {
    if x != 0 {
      BitLengthBounds(x / 2);
    }
  }

  /** A size class is the least one whose cells are large enough. */
  lemma SizeClassIsLeast(n: nat, k: nat)
    ensures n <= Pow2(SizeClass(n))
    ensures n <= Pow2(k) ==> SizeClass(n) <= k
  {
    if n > 0 {
      BitLengthBounds(n - 1);
      if k < SizeClass(n) {
        Pow2Mono(k, SizeClass(n) - 1);
      }
    }
  }

  lemma SizeClassFits(n: nat)
    ensures n <= Pow2(SizeClass(n))
  {
    SizeClassIsLeast(n, 0);
  }

  /** The cell of an entry in the storage as it is now, after any number of doublings. */
  function DataLoc(e: Entry, pow2: nat): nat
    requires e.capPow <= pow2
  {
    e.offset * Pow2(pow2 - e.capPow)
  }

  lemma DataLocInRange(e: Entry, pow2: nat)
    requires e.capPow <= pow2 && e.offset < Pow2(e.capPow)
    ensures DataLoc(e, pow2) < Pow2(pow2)
  {
    MulMono(e.offset, Pow2(e.capPow), Pow2(pow2 - e.capPow));
    Pow2Add(e.capPow, pow2 - e.capPow);
  }

  /**
   * Growing a storage from 2^p to 2^q cells moves the bytes of an entry exactly to
   * where its unchanged offset is then looked up.
   */
  lemma DataLocAfterGrow<E>(e: Entry, cells: seq<Cell<E>>, p: nat, q: nat, zero: E)
    requires e.capPow <= p <= q && e.offset < Pow2(e.capPow) && |cells| == Pow2(p)
    ensures DataLoc(e, p) < |cells|
    ensures DataLoc(e, q) == DataLoc(e, p) * Pow2(q - p)
    ensures |Spread(cells, q - p, zero)| == Pow2(q) && DataLoc(e, q) < Pow2(q)
    ensures Spread(cells, q - p, zero)[DataLoc(e, q)] == cells[DataLoc(e, p)]
  {
    DataLocInRange(e, p);
    DataLocInRange(e, q);
    Pow2Add(p - e.capPow, q - p);
    assert q - e.capPow == (p - e.capPow) + (q - p);
    MulAssoc(e.offset, Pow2(p - e.capPow), Pow2(q - p));
    Pow2Add(p, q - p);
    SpreadAt(cells, q - p, zero, DataLoc(e, p));
  }

  /** Two entries in different cells stay in different cells when the storage grows. */
  lemma DataLocStaysDistinct(e: Entry, f: Entry, p: nat, q: nat)
    requires e.capPow <= p <= q && f.capPow <= p
    requires DataLoc(e, p) != DataLoc(f, p)
    ensures DataLoc(e, q) != DataLoc(f, q)
  {
    Pow2Add(p - e.capPow, q - p);
    Pow2Add(p - f.capPow, q - p);
    assert q - e.capPow == (p - e.capPow) + (q - p);
    assert q - f.capPow == (p - f.capPow) + (q - p);
    MulAssoc(e.offset, Pow2(p - e.capPow), Pow2(q - p));
    MulAssoc(f.offset, Pow2(p - f.capPow), Pow2(q - p));
    MulInjective(DataLoc(e, p), DataLoc(f, p), Pow2(q - p));
  }
}
