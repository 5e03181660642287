/** Which shard a key belongs to: the top bits of its first eight bytes. */
module KeyShards {
  import opened Powers
  import opened IndexEntry
  import opened Shard

  const WORD_BITS: nat := 64
  const KEY_BYTES: nat := 32

  /** A big-endian number. */
  function BeValue(bytes: seq<byte>): nat {
    if bytes == [] then 0 else BeValue(bytes[..|bytes| - 1]) * 256 + bytes[|bytes| - 1] as nat
  }

  function ReadBeU64(bytes: seq<byte>): nat
    requires |bytes| >= 8
  {
    BeValue(bytes[..8])
  }

  /** Position of the highest set bit, for a positive number. */
  function Log2(x: nat): nat
    requires x > 0
  {
    BitLength(x) - 1
  }

  /** x shifted right by n bits. */
  function ShiftRight(x: nat, n: nat): nat
    decreases n
  {
    if n == 0 then x else ShiftRight(x / 2, n - 1)
  }

  lemma {:induction false} ShiftRightBound(x: nat, a: nat, n: nat)
    requires x < Pow2(a + n)
    ensures ShiftRight(x, n) < Pow2(a)
    decreases n
  {
    if n > 0 { ShiftRightBound(x / 2, a, n - 1); }
  }

  lemma {:induction false} ShiftRightMono(x: nat, y: nat, n: nat)
    requires x <= y
    ensures ShiftRight(x, n) <= ShiftRight(y, n)
    decreases n
  {
    if n > 0 { ShiftRightMono(x / 2, y / 2, n - 1); }
  }

  function BucketIx(key: Pubkey, pow2: nat): nat
    requires |key.bytes| == KEY_BYTES && pow2 < WORD_BITS
  {
    if pow2 > 0 then ShiftRight(ReadBeU64(key.bytes), WORD_BITS - pow2) else 0
  }

  lemma {:induction false} BeValueBound(bytes: seq<byte>)
    ensures BeValue(bytes) < Pow2(8 * |bytes|)
  {
    if bytes != [] {
      var n := |bytes|;
      BeValueBound(bytes[..n - 1]);
      Pow2Add(8 * (n - 1), 8);
      Pow256();
      hide Pow2;
    }
  }

  lemma Pow256()
    ensures Pow2(8) == 256
  {
    assert Pow2(4) == 16;
    Pow2Add(4, 4);
  }

  /** The number of shards of a map made for 2^p shards is found again from its size. */
  lemma {:induction false} Log2OfPow2(p: nat)
    ensures Log2(Pow2(p)) == p
  {
    if p > 0 {
      Log2OfPow2(p - 1);
      assert Pow2(p) / 2 == Pow2(p - 1);
    }
  }

  /** Every key has a shard. */
  lemma BucketIxInRange(key: Pubkey, pow2: nat)
    requires |key.bytes| == KEY_BYTES && pow2 < WORD_BITS
    ensures BucketIx(key, pow2) < Pow2(pow2)
  {
    if pow2 > 0 {
      hide Pow2, ShiftRight;
      BeValueBound(key.bytes[..8]);
      ShiftRightBound(ReadBeU64(key.bytes), pow2, WORD_BITS - pow2);
    }
  }

  /** The order of keys: by the first byte in which they differ. */
  predicate LexLe(a: seq<byte>, b: seq<byte>) {
    if a == [] then true
    else if b == [] then false
    else a[0] < b[0] || (a[0] == b[0] && LexLe(a[1..], b[1..]))
  }

  lemma ShiftByte(h: nat, p: nat, q: nat)
    requires q == p * 256
    ensures (h * p) * 256 == h * q
  {
    MulAssoc(h, p, 256);
  }

  lemma {:induction false} BeValueFront(bytes: seq<byte>)
    requires bytes != []
    ensures BeValue(bytes) == bytes[0] as nat * Pow2(8 * (|bytes| - 1)) + BeValue(bytes[1..])
  {
    var n := |bytes|;
    if n == 1 {
      assert bytes[..0] == [] && bytes[1..] == [];
    } else {
      var init := bytes[..n - 1];
      BeValueFront(init);
      assert init[1..] == bytes[1..][..n - 2] && init[0] == bytes[0];
      Pow2Add(8 * (n - 2), 8);
      Pow256();
      ShiftByte(bytes[0] as nat, Pow2(8 * (n - 2)), Pow2(8 * (n - 1)));
    }
  }

  lemma {:induction false} BeValueMono(a: seq<byte>, b: seq<byte>)
    requires |a| == |b| && LexLe(a, b)
    ensures BeValue(a) <= BeValue(b)
    decreases |a|
  {
    if a != [] {
      BeValueFront(a);
      BeValueFront(b);
      BeValueBound(a[1..]);
      var p := Pow2(8 * (|a| - 1));
      if a[0] < b[0] {
        MulMono(a[0] as nat, b[0] as nat, p);
      } else {
        BeValueMono(a[1..], b[1..]);
      }
    }
  }

  lemma {:induction false} LexLePrefix(a: seq<byte>, b: seq<byte>, n: nat)
    requires |a| == |b| && n <= |a| && LexLe(a, b)
    ensures LexLe(a[..n], b[..n])
    decreases n
  {
    if n > 0 && a[0] == b[0] {
      LexLePrefix(a[1..], b[1..], n - 1);
      assert a[1..][..n - 1] == a[..n][1..] && b[1..][..n - 1] == b[..n][1..];
    }
  }

  /** Shards follow the order of keys, so each one holds an interval of them. */
  lemma BucketIxMonotone(a: Pubkey, b: Pubkey, pow2: nat)
    requires |a.bytes| == KEY_BYTES == |b.bytes| && pow2 < WORD_BITS && LexLe(a.bytes, b.bytes)
    ensures BucketIx(a, pow2) <= BucketIx(b, pow2)
  {
    LexLePrefix(a.bytes, b.bytes, 8);
    BeValueMono(a.bytes[..8], b.bytes[..8]);
    ShiftRightMono(ReadBeU64(a.bytes), ReadBeU64(b.bytes), WORD_BITS - pow2);
  }

  // ---------- splitting a map by shard ----------

  ghost predicate KeysOk<T>(m: map<Pubkey, Value<T>>) {
    forall k :: k in m ==> |k.bytes| == KEY_BYTES
  }

  /** The part of a map that lies in shard b. */
  ghost function Part<T>(m: map<Pubkey, Value<T>>, pow2: nat, b: nat): map<Pubkey, Value<T>>
    requires KeysOk(m) && pow2 < WORD_BITS
  {
    map k | k in m && BucketIx(k, pow2) == b :: m[k]
  }

  lemma PartInsert<T>(m: map<Pubkey, Value<T>>, pow2: nat, b: nat, key: Pubkey, v: Value<T>)
    requires KeysOk(m) && pow2 < WORD_BITS && |key.bytes| == KEY_BYTES
    ensures KeysOk(m[key := v])
    ensures Part(m[key := v], pow2, b) ==
            if BucketIx(key, pow2) == b then Part(m, pow2, b)[key := v] else Part(m, pow2, b)
  {
  }

  lemma PartRemove<T>(m: map<Pubkey, Value<T>>, pow2: nat, b: nat, key: Pubkey)
    requires KeysOk(m) && pow2 < WORD_BITS && |key.bytes| == KEY_BYTES
    ensures KeysOk(m - {key})
    ensures Part(m - {key}, pow2, b) == if BucketIx(key, pow2) == b then Part(m, pow2, b) - {key} else Part(m, pow2, b)
  {
  }

  lemma PartLookup<T>(m: map<Pubkey, Value<T>>, pow2: nat, key: Pubkey)
    requires KeysOk(m) && pow2 < WORD_BITS && |key.bytes| == KEY_BYTES
    ensures key in Part(m, pow2, BucketIx(key, pow2)) <==> key in m
    ensures key in m ==> Part(m, pow2, BucketIx(key, pow2))[key] == m[key]
  {
  }
}
