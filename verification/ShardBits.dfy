/** Shards and the bits of keys: which keys share a shard, and why every shard has one. */
module ShardBits {
  import opened Powers
  import opened IndexEntry
  import opened KeyShards

  // ---------- the first word of a key ----------

  lemma BeValuePush(bytes: seq<byte>, k: nat)
    requires k < |bytes|
    ensures BeValue(bytes[..k + 1]) == BeValue(bytes[..k]) * 256 + bytes[k] as nat
  {
    assert bytes[..k + 1][..k] == bytes[..k];
  }

  /** The first eight bytes as one number, the first byte the most significant. */
  function FirstWord(bytes: seq<byte>): nat
    requires |bytes| >= 8
  {
    bytes[0] as nat * 0x100_0000_0000_0000 + bytes[1] as nat * 0x1_0000_0000_0000
    + bytes[2] as nat * 0x100_0000_0000 + bytes[3] as nat * 0x1_0000_0000
    + bytes[4] as nat * 0x100_0000 + bytes[5] as nat * 0x1_0000
    + bytes[6] as nat * 0x100 + bytes[7] as nat
  }

  lemma ReadsFirstWord(bytes: seq<byte>)
    requires |bytes| >= 8
    ensures ReadBeU64(bytes) == FirstWord(bytes)
  {
    hide BeValue;
    assert BeValue(bytes[..0]) == 0 by { BeValueNone(bytes); }
    BeValuePush(bytes, 0);
    BeValuePush(bytes, 1);
    BeValuePush(bytes, 2);
    BeValuePush(bytes, 3);
    BeValuePush(bytes, 4);
    BeValuePush(bytes, 5);
    BeValuePush(bytes, 6);
    BeValuePush(bytes, 7);
  }

  lemma BeValueNone(bytes: seq<byte>)
    ensures BeValue(bytes[..0]) == 0
  {
  }

  lemma TwiceBoth(q: nat, p: nat)
    ensures q * (2 * p) == 2 * (q * p)
  {
  }

  lemma {:induction false} ShiftRightIsDivision(x: nat, n: nat)
    ensures ShiftRight(x, n) * Pow2(n) <= x < (ShiftRight(x, n) + 1) * Pow2(n)
    decreases n
  {
    if n > 0 {
      ShiftRightIsDivision(x / 2, n - 1);
      var q, p := ShiftRight(x, n), Pow2(n - 1);
      assert Pow2(n) == 2 * p && ShiftRight(x / 2, n - 1) == q;
      hide Pow2, ShiftRight;
      TwiceBoth(q, p);
      TwiceBoth(q + 1, p);
    }
  }

  lemma BucketIxIsShift(key: Pubkey, pow2: nat)
    requires |key.bytes| == KEY_BYTES && pow2 < WORD_BITS
    ensures BucketIx(key, pow2) == ShiftRight(FirstWord(key.bytes), WORD_BITS - pow2)
  {
    hide ShiftRight, Pow2, BeValue, FirstWord;
    ReadsFirstWord(key.bytes);
    if pow2 == 0 {
      BeValueBound(key.bytes[..8]);
      ShiftRightBound(ReadBeU64(key.bytes), 0, WORD_BITS);
      assert Pow2(0) == 1 by { PowZero(); }
    }
  }

  lemma PowZero()
    ensures Pow2(0) == 1
  {
  }

  /** The shard of a key is the quotient of its first word by the number of words in a shard. */
  lemma BucketIxIsQuotient(key: Pubkey, pow2: nat)
    requires |key.bytes| == KEY_BYTES && pow2 < WORD_BITS
    ensures BucketIx(key, pow2) * Pow2(64 - pow2) <= FirstWord(key.bytes) < (BucketIx(key, pow2) + 1) * Pow2(64 - pow2)
  {
    hide ShiftRight, Pow2, FirstWord, BucketIx;
    BucketIxIsShift(key, pow2);
    ShiftRightIsDivision(FirstWord(key.bytes), WORD_BITS - pow2);
  }

  // ---------- every shard has a key ----------

  function ToBytes(w: nat, n: nat): (r: seq<byte>)
    ensures |r| == n
  {
    if n == 0 then [] else ToBytes(w / 256, n - 1) + [(w % 256) as byte]
  }

  lemma {:induction false} ToBytesValue(w: nat, n: nat)
    requires w < Pow2(8 * n)
    ensures BeValue(ToBytes(w, n)) == w
  {
    if n > 0 {
      Pow2Add(8 * (n - 1), 8);
      Pow256();
      hide Pow2;
      ToBytesValue(w / 256, n - 1);
      var r := ToBytes(w, n);
      assert r[..n - 1] == ToBytes(w / 256, n - 1);
    }
  }

  /** Every shard of a map of 2^pow2 shards has a key. */
  lemma EveryShardHasKey(x: nat, pow2: nat) returns (key: Pubkey)
    requires pow2 < WORD_BITS && x < Pow2(pow2)
    ensures |key.bytes| == KEY_BYTES && BucketIx(key, pow2) == x
  {
    hide FirstWord, BucketIx, Pow2, BeValue;
    var p := Pow2(64 - pow2);
    Pow2Add(pow2, 64 - pow2);
    MulMono(x, Pow2(pow2), p);
    var word := ToBytes(x * p, 8);
    ToBytesValue(x * p, 8);
    key := Pubkey(word + seq(24, _ => 0));
    assert key.bytes[..8] == word;
    ReadsFirstWord(key.bytes);
    BucketIxIsQuotient(key, pow2);
    var q := BucketIx(key, pow2);
    if q < x {
      MulMono(q, x, p);
    } else if x < q {
      MulMono(x, q, p);
    }
  }

  // ---------- which keys share a shard ----------

  /** Bit i of a key, the most significant bit of its first byte being bit 0. */
  function KeyBit(key: Pubkey, i: nat): nat
    requires i < 8 * |key.bytes|
  {
    (key.bytes[i / 8] as nat / Pow2(7 - i % 8)) % 2
  }

  lemma {:induction false} ShiftRightAdd(x: nat, a: nat, b: nat)
    ensures ShiftRight(x, a + b) == ShiftRight(ShiftRight(x, a), b)
    decreases a
  {
    if a > 0 {
      ShiftRightAdd(x / 2, a - 1, b);
    }
  }

  lemma {:induction false} ShiftBytes(bytes: seq<byte>, n: nat, m: nat)
    requires m <= n <= |bytes|
    ensures ShiftRight(BeValue(bytes[..n]), 8 * m) == BeValue(bytes[..n - m])
    decreases m
  {
    hide BeValue;
    if m > 0 {
      BeValuePush(bytes, n - 1);
      ShiftByteOut(BeValue(bytes[..n - 1]), bytes[n - 1]);
      ShiftRightAdd(BeValue(bytes[..n]), 8, 8 * (m - 1));
      ShiftBytes(bytes, n - 1, m - 1);
    }
  }

  lemma ShiftByteOut(x: nat, b: byte)
    ensures ShiftRight(x * 256 + b as nat, 8) == x
  {
    ShiftRightIsDivision(x * 256 + b as nat, 8);
    Pow256();
  }

  lemma {:induction false} LowBit(x: nat, y: nat, m: nat, e: nat)
    requires e < m
    ensures ShiftRight(x * Pow2(m) + y, e) % 2 == ShiftRight(y, e) % 2
    decreases e
  {
    var p := Pow2(m - 1);
    assert x * Pow2(m) == 2 * (x * p) by { MulAssoc(x, 2, p); }
    if e > 0 {
      assert (2 * (x * p) + y) / 2 == x * p + y / 2;
      LowBit(x, y / 2, m - 1, e - 1);
    }
  }

  lemma QuotientUnique(x: nat, q: nat, d: nat)
    requires d > 0 && q * d <= x < (q + 1) * d
    ensures x / d == q
  {
    DivModUnique(x, q, x - q * d, d);
  }

  lemma WordBit(key: Pubkey, i: nat)
    requires |key.bytes| == KEY_BYTES && i < WORD_BITS
    ensures ShiftRight(FirstWord(key.bytes), WORD_BITS - 1 - i) % 2 == KeyBit(key, i)
  {
    hide FirstWord, BeValue, ShiftRight, Pow2;
    var j, e := i / 8, 7 - i % 8;
    var b := key.bytes[j] as nat;
    ReadsFirstWord(key.bytes);
    ShiftRightAdd(FirstWord(key.bytes), 8 * (7 - j), e);
    assert WORD_BITS - 1 - i == 8 * (7 - j) + e;
    ShiftBytes(key.bytes, 8, 7 - j);
    BeValuePush(key.bytes, j);
    Pow256();
    LowBit(BeValue(key.bytes[..j]), b, 8, e);
    ShiftRightIsDivision(b, e);
    QuotientUnique(b, ShiftRight(b, e), Pow2(e));
  }

  /** One more bit for the shards is one more bit of the key. */
  lemma BucketIxNextBit(key: Pubkey, pow2: nat)
    requires |key.bytes| == KEY_BYTES && pow2 + 1 < WORD_BITS
    ensures BucketIx(key, pow2 + 1) == 2 * BucketIx(key, pow2) + KeyBit(key, pow2)
  {
    hide FirstWord, ShiftRight, KeyBit, BucketIx;
    var w, n := FirstWord(key.bytes), WORD_BITS - 1 - pow2;
    BucketIxIsShift(key, pow2);
    BucketIxIsShift(key, pow2 + 1);
    ShiftRightAdd(w, n, 1);
    ShiftOne(ShiftRight(w, n));
    WordBit(key, pow2);
  }

  lemma ShiftOne(x: nat)
    ensures ShiftRight(x, 1) == x / 2
  {
    assert ShiftRight(x / 2, 0) == x / 2;
  }

  /** Two keys share a shard exactly when their first bits, as many as there are bits in a shard number, agree. */
  lemma {:induction false} SameShardIff(a: Pubkey, b: Pubkey, pow2: nat)
    requires |a.bytes| == KEY_BYTES == |b.bytes| && pow2 < WORD_BITS
    ensures BucketIx(a, pow2) == BucketIx(b, pow2) <==> forall i: nat :: i < pow2 ==> KeyBit(a, i) == KeyBit(b, i)
    decreases pow2
  {
    hide BucketIx, KeyBit;
    if pow2 == 0 {
      OneShard(a);
      OneShard(b);
    } else {
      SameShardIff(a, b, pow2 - 1);
      BucketIxNextBit(a, pow2 - 1);
      BucketIxNextBit(b, pow2 - 1);
      BitBound(a, pow2 - 1);
      BitBound(b, pow2 - 1);
    }
  }

  lemma OneShard(key: Pubkey)
    requires |key.bytes| == KEY_BYTES
    ensures BucketIx(key, 0) == 0
  {
  }

  lemma BitBound(key: Pubkey, i: nat)
    requires i < 8 * |key.bytes|
    ensures KeyBit(key, i) < 2
  {
  }
}
