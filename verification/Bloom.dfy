/** The sequential filter: a bit vector, hash keys, and a count of set bits. */
module Blooms {
  import opened Words

  const U64_MAX: nat := 0xFFFF_FFFF_FFFF_FFFF

  /** Hashing is a parameter. */
  datatype Hashing<!K> = Hashing(hash: (K, nat) -> nat, keys: seq<nat>, numBits: nat)

  /** A filter without bits has no place for a hash: the remainder by its length is a panic. */
  predicate Usable<K>(h: Hashing<K>) {
    h.keys != [] ==> h.numBits > 0
  }

  ghost predicate Sane<K>(h: Hashing<K>) {
    h.numBits <= U64_MAX && Usable(h)
  }

  function Pos<K>(h: Hashing<K>, key: K, k: nat): (r: nat)
    requires h.numBits > 0
    ensures r < h.numBits
  {
    h.hash(key, k) % h.numBits
  }

  /** Bit i belongs to the key: one of its first n hashes falls on it. */
  ghost predicate Hits<K>(h: Hashing<K>, key: K, n: nat, i: nat)
    requires Usable(h) && n <= |h.keys|
  {
    exists j :: 0 <= j < n && h.hash(key, h.keys[j]) % h.numBits == i
  }

  /** The filter after the first n hashes of a key. */
  ghost predicate AddedUpTo<K>(h: Hashing<K>, before: seq<bool>, key: K, n: nat, after: seq<bool>)
    requires Usable(h) && n <= |h.keys| && |before| == h.numBits
  {
    && |after| == h.numBits
    && forall i :: 0 <= i < h.numBits ==> (after[i] <==> before[i] || Hits(h, key, n, i))
  }

  lemma HitsOneMore<K>(h: Hashing<K>, key: K, n: nat, i: nat)
    requires Usable(h) && n < |h.keys|
    ensures Hits(h, key, n + 1, i) <==> Hits(h, key, n, i) || i == Pos(h, key, h.keys[n])
  {
    if Hits(h, key, n, i) {
      var j :| 0 <= j < n && h.hash(key, h.keys[j]) % h.numBits == i;
      assert 0 <= j < n + 1 && h.hash(key, h.keys[j]) % h.numBits == i;
    }
    if i == Pos(h, key, h.keys[n]) {
      assert 0 <= n < n + 1 && h.hash(key, h.keys[n]) % h.numBits == i;
    }
  }

  lemma AddOneMore<K>(h: Hashing<K>, before: seq<bool>, key: K, n: nat, after: seq<bool>)
    requires Usable(h) && n < |h.keys| && |before| == h.numBits && AddedUpTo(h, before, key, n, after)
    ensures AddedUpTo(h, before, key, n + 1, after[Pos(h, key, h.keys[n]) := true])
  {
    forall i | 0 <= i < h.numBits
      ensures after[Pos(h, key, h.keys[n]) := true][i] <==> before[i] || Hits(h, key, n + 1, i)
    {
      HitsOneMore(h, key, n, i);
    }
  }

  /** A key tests positive when all its bits are set. */
  ghost predicate Covered<K>(h: Hashing<K>, bits: seq<bool>, key: K)
    requires Usable(h) && |bits| == h.numBits
  {
    forall j :: 0 <= j < |h.keys| ==> bits[h.hash(key, h.keys[j]) % h.numBits]
  }

  function SaturatingIncrement(x: nat): nat {
    if x < U64_MAX then x + 1 else x
  }

  class Bloom<K> {
    const h: Hashing<K>
    var bits: seq<bool>
    var numBitsSet: nat

    ghost predicate Valid()
      reads this
    {
      h.numBits <= U64_MAX && |bits| == h.numBits && numBitsSet == CountTrue(bits)
    }

    constructor (h: Hashing<K>)
      requires h.numBits <= U64_MAX
      ensures Valid() && this.h == h && forall i :: 0 <= i < |bits| ==> !bits[i]
    {
      this.h := h;
      bits := seq(h.numBits, _ => false);
      numBitsSet := 0;
      new;
      CountNone(bits);
    }

    method Clear()
      requires Valid()
      modifies this
      ensures Valid() && |bits| == |old(bits)| && forall i :: 0 <= i < |bits| ==> !bits[i]
    {
      bits := seq(|bits|, _ => false);
      numBitsSet := 0;
      CountNone(bits);
    }

    /** Sets exactly the bits of the key; the counter never saturates and stays the number of set bits. */
    method Add(key: K)
      requires Valid() && Usable(h)
      modifies this
      ensures Valid()
      ensures AddedUpTo(h, old(bits), key, |h.keys|, bits)
      ensures forall i :: 0 <= i < h.numBits ==>
        (bits[i] <==> old(bits)[i] || exists j :: 0 <= j < |h.keys| && h.hash(key, h.keys[j]) % h.numBits == i)
    {
      for n := 0 to |h.keys|
        invariant Valid()
        invariant AddedUpTo(h, old(bits), key, n, bits)
      {
        AddOneMore(h, old(bits), key, n, bits);
        var pos := Pos(h, key, h.keys[n]);
        if !bits[pos] {
          CountSet(bits, pos);
          CountBound(bits[pos := true]);
          numBitsSet := SaturatingIncrement(numBitsSet);
          bits := bits[pos := true];
        } else {
          assert bits[pos := true] == bits;
        }
      }
    }

    method Contains(key: K) returns (r: bool)
      requires Valid() && Usable(h)
      ensures r <==> Covered(h, bits, key)
      ensures r <==> forall j :: 0 <= j < |h.keys| ==> bits[h.hash(key, h.keys[j]) % h.numBits]
    {
      for n := 0 to |h.keys|
        invariant forall j :: 0 <= j < n ==> bits[Pos(h, key, h.keys[j])]
      {
        if !bits[Pos(h, key, h.keys[n])] {
          return false;
        }
      }
      r := true;
    }
  }

  // ---------- many keys ----------

  /** Bit i belongs to one of the keys. */
  ghost predicate HitsAny<K>(h: Hashing<K>, keys: seq<K>, i: nat)
    requires Usable(h)
  {
    exists c :: 0 <= c < |keys| && Hits(h, keys[c], |h.keys|, i)
  }

  /** `after` is what adding the keys one after the other makes of `before`. */
  ghost predicate AddedInTurn<K>(h: Hashing<K>, before: seq<bool>, keys: seq<K>, after: seq<bool>)
    requires (keys != [] ==> Usable(h)) && |before| == h.numBits
    decreases |keys|
  {
    if keys == [] then after == before
    else
      exists mid: seq<bool> ::
        && |mid| == h.numBits
        && AddedInTurn(h, before, keys[..|keys| - 1], mid)
        && AddedUpTo(h, mid, keys[|keys| - 1], |h.keys|, after)
  }

  lemma OneMoreAdded<K>(h: Hashing<K>, before: seq<bool>, keys: seq<K>, n: nat, mid: seq<bool>, after: seq<bool>)
    requires Usable(h) && |before| == |mid| == h.numBits && n < |keys|
    requires AddedInTurn(h, before, keys[..n], mid) && AddedUpTo(h, mid, keys[n], |h.keys|, after)
    ensures AddedInTurn(h, before, keys[..n + 1], after)
  {
    assert keys[..n + 1][..n] == keys[..n];
  }

  /** The set bits after sequential adds: those before and those of every key, so the order cannot matter. */
  lemma {:induction false} AddedInTurnBits<K>(h: Hashing<K>, before: seq<bool>, keys: seq<K>, after: seq<bool>)
    requires Usable(h) && |before| == h.numBits && AddedInTurn(h, before, keys, after)
    ensures |after| == h.numBits
    ensures forall i :: 0 <= i < h.numBits ==> (after[i] <==> before[i] || HitsAny(h, keys, i))
    decreases |keys|
  {
    if keys != [] {
      var n := |keys| - 1;
      var mid: seq<bool> :| |mid| == h.numBits && AddedInTurn(h, before, keys[..n], mid)
        && AddedUpTo(h, mid, keys[n], |h.keys|, after);
      AddedInTurnBits(h, before, keys[..n], mid);
      forall i | 0 <= i < h.numBits
        ensures after[i] <==> before[i] || HitsAny(h, keys, i)
      {
        HitsAnyLast(h, keys, i);
      }
    }
  }

  lemma HitsAnyLast<K>(h: Hashing<K>, keys: seq<K>, i: nat)
    requires Usable(h) && keys != []
    ensures HitsAny(h, keys, i) <==> HitsAny(h, keys[..|keys| - 1], i) || Hits(h, keys[|keys| - 1], |h.keys|, i)
  {
    var n := |keys| - 1;
    if HitsAny(h, keys[..n], i) {
      var c :| 0 <= c < n && Hits(h, keys[..n][c], |h.keys|, i);
      assert Hits(h, keys[c], |h.keys|, i);
    }
    if HitsAny(h, keys, i) {
      var c :| 0 <= c < |keys| && Hits(h, keys[c], |h.keys|, i);
      if c < n { assert Hits(h, keys[..n][c], |h.keys|, i); }
    }
  }

  /** Adding the same keys in another order, or some of them repeatedly, ends with the same bits. */
  lemma OrderDoesNotMatter<K>(h: Hashing<K>, before: seq<bool>, keys: seq<K>, keys': seq<K>, a: seq<bool>,
                              a': seq<bool>)
    requires Usable(h) && |before| == h.numBits
    requires AddedInTurn(h, before, keys, a) && AddedInTurn(h, before, keys', a')
    requires forall k :: k in keys <==> k in keys'
    ensures a == a'
  {
    AddedInTurnBits(h, before, keys, a);
    AddedInTurnBits(h, before, keys', a');
    forall i | 0 <= i < h.numBits
      ensures a[i] == a'[i]
    {
      SameKeysSameHits(h, keys, keys', i);
      SameKeysSameHits(h, keys', keys, i);
    }
  }

  lemma SameKeysSameHits<K>(h: Hashing<K>, keys: seq<K>, keys': seq<K>, i: nat)
    requires Usable(h) && (forall k :: k in keys <==> k in keys')
    ensures HitsAny(h, keys, i) ==> HitsAny(h, keys', i)
  {
    if HitsAny(h, keys, i) {
      var c :| 0 <= c < |keys| && Hits(h, keys[c], |h.keys|, i);
      assert keys[c] in keys';
      var d :| 0 <= d < |keys'| && keys'[d] == keys[c];
      assert Hits(h, keys'[d], |h.keys|, i);
    }
  }
}
