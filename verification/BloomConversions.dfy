/** The lock-free filter as an object, and the conversions between the two kinds of filter. */
module BloomConversions {
  import opened Powers
  import opened Words
  import opened Blooms
  import opened AtomicBlooms

  // ---------- packing bits into words ----------

  /** The bits of word w, fewer than 64 in the last one. */
  function Chunk(bits: seq<bool>, w: nat): (r: seq<bool>)
    requires w * WORD <= |bits|
    ensures |r| <= WORD
  {
    if |bits| <= w * WORD + WORD then bits[w * WORD..] else bits[w * WORD..w * WORD + WORD]
  }

  function Pack(bits: seq<bool>): (r: seq<nat>)
    ensures |r| == WordCount(|bits|)
  {
    seq(WordCount(|bits|), w requires 0 <= w < WordCount(|bits|) => FromBits(Chunk(bits, w)))
  }

  lemma PackBit(bits: seq<bool>, i: nat)
    requires i / WORD < WordCount(|bits|)
    ensures BitAt(Pack(bits), i) <==> i < |bits| && bits[i]
  {
    FromBitsBit(Chunk(bits, i / WORD), i % WORD);
  }

  /** Packed words decode to the same bits, with clear padding. */
  lemma PackDecodes(bits: seq<bool>)
    ensures WordsOk(Pack(bits), |bits|) && PaddingClear(Pack(bits), |bits|)
    ensures |bits| <= |Pack(bits)| * WORD
    ensures Decode(Pack(bits), |bits|) == bits
  {
    var words := Pack(bits);
    CapacityCovers(|bits|);
    forall w | 0 <= w < |words|
      ensures words[w] < Pow2(WORD)
    {
      FromBitsBound(Chunk(bits, w), WORD);
    }
    forall i | 0 <= i < |words| * WORD
      ensures BitAt(words, i) <==> i < |bits| && bits[i]
    {
      PackBit(bits, i);
    }
  }

  // ---------- counting over words ----------

  function SumPopCount(words: seq<nat>): nat {
    if words == [] then 0 else SumPopCount(words[..|words| - 1]) + PopCount(words[|words| - 1])
  }

  lemma {:induction false} SumIsCount(words: seq<nat>)
    requires forall w :: 0 <= w < |words| ==> words[w] < Pow2(WORD)
    ensures SumPopCount(words) == CountTrue(Decode(words, |words| * WORD))
    decreases |words|
  {
    if words != [] {
      var n := |words| - 1;
      var init := words[..n];
      SumIsCount(init);
      PopCountIsCount(words[n], WORD);
      DecodeLast(words);
      hide Decode, CountTrue, PopCount, WordBits;
      CountAppend(Decode(init, n * WORD), WordBits(words[n], WORD));
    }
  }

  lemma DecodeLast(words: seq<nat>)
    requires words != []
    ensures var n := |words| - 1;
            Decode(words, |words| * WORD) == Decode(words[..n], n * WORD) + WordBits(words[n], WORD)
  {
    var n := |words| - 1;
    var all, low, last := Decode(words, |words| * WORD), Decode(words[..n], n * WORD), WordBits(words[n], WORD);
    forall i | 0 <= i < |all|
      ensures all[i] == (low + last)[i]
    {
      if i < n * WORD {
        assert words[..n][i / WORD] == words[i / WORD];
      } else {
        assert i / WORD == n && i % WORD == i - n * WORD;
      }
    }
  }

  /** The bits after the first n, as far as the words go. */
  function Padding(words: seq<nat>, n: nat): (r: seq<bool>)
    requires n <= |words| * WORD
    ensures |r| == |words| * WORD - n && forall k :: 0 <= k < |r| ==> r[k] == BitAt(words, n + k)
  {
    seq(|words| * WORD - n, k requires 0 <= k < |words| * WORD - n => BitAt(words, n + k))
  }

  lemma DecodeSplit(words: seq<nat>, n: nat)
    requires n <= |words| * WORD
    ensures Decode(words, |words| * WORD) == Decode(words, n) + Padding(words, n)
  {
    hide BitAt;
    var all, parts := Decode(words, |words| * WORD), Decode(words, n) + Padding(words, n);
    assert |all| == |parts|;
    assert forall i :: 0 <= i < |all| ==> all[i] == parts[i];
  }

  lemma CountSplit(words: seq<nat>, n: nat)
    requires n <= |words| * WORD && forall w :: 0 <= w < |words| ==> words[w] < Pow2(WORD)
    ensures SumPopCount(words) == CountTrue(Decode(words, n)) + CountTrue(Padding(words, n))
  {
    SumIsCount(words);
    DecodeSplit(words, n);
    hide Decode, Padding, CountTrue, SumPopCount, BitAt;
    CountAppend(Decode(words, n), Padding(words, n));
  }

  lemma PaddingCount(words: seq<nat>, n: nat)
    requires n <= |words| * WORD
    ensures CountTrue(Padding(words, n)) == 0 <==> PaddingClear(words, n)
  {
    var padding := Padding(words, n);
    CountNone(padding);
    if CountTrue(padding) == 0 {
      forall i | n <= i < |words| * WORD
        ensures !BitAt(words, i)
      {
        assert !padding[i - n];
      }
    }
  }

  /** The sum of the words' popcounts is the number of set bits of the filter exactly when the padding is clear. */
  lemma CountExactIffPaddingClear(words: seq<nat>, numBits: nat)
    requires WordsOk(words, numBits)
    ensures numBits <= |words| * WORD
    ensures SumPopCount(words) == CountTrue(Decode(words, numBits)) <==> PaddingClear(words, numBits)
  {
    CapacityCovers(numBits);
    hide PaddingClear, Decode, Padding, CountTrue, SumPopCount;
    CountSplit(words, numBits);
    PaddingCount(words, numBits);
  }

  // ---------- the filter ----------

  class AtomicBloom<K> {
    const h: Hashing<K>
    const words: array<nat>

    ghost predicate Valid()
      reads words
    {
      && h.numBits <= U64_MAX && h.numBits <= words.Length * WORD
      && WordsOk(words[..], h.numBits) && PaddingClear(words[..], h.numBits)
    }

    ghost function Bits(): (r: seq<bool>)
      requires Valid()
      reads words
      ensures |r| == h.numBits
    {
      Decode(words[..], h.numBits)
    }

    constructor FromBloom(b: Bloom<K>)
      requires b.Valid()
      ensures Valid() && h == b.h && Bits() == b.bits && fresh(words)
    {
      h := b.h;
      PackDecodes(b.bits);
      var packed := Pack(b.bits);
      words := new nat[|packed|](i requires 0 <= i < |packed| => packed[i]);
      new;
      assert words[..] == packed;
    }

    /** Sets bit pos by a fetch-or and reports whether it was clear. */
    method SetBit(pos: nat) returns (isNew: bool)
      requires Valid() && pos < h.numBits
      modifies words
      ensures Valid() && Bits() == old(Bits())[pos := true]
      ensures isNew <==> !old(Bits())[pos]
    {
      FetchOrSetsBit(words[..], h.numBits, pos);
      ghost var before := words[..];
      var index, mask := pos / WORD, Pow2(pos % WORD);
      var prev := words[index];
      words[index] := Or(prev, mask);
      assert words[..] == FetchOr(before, index, mask).1;
      isNew := And(prev, mask) == 0;
    }

    /** Run alone, add returns true exactly when the key did not test positive before. */
    method Add(key: K) returns (added: bool)
      requires Valid() && Usable(h)
      modifies words
      ensures Valid()
      ensures AddedUpTo(h, old(Bits()), key, |h.keys|, Bits())
      ensures added <==> !Covered(h, old(Bits()), key)
      ensures forall i :: 0 <= i < h.numBits ==>
        (Bits()[i] <==>
           old(Bits())[i] || exists j :: 0 <= j < |h.keys| && h.hash(key, h.keys[j]) % h.numBits == i)
    {
      ghost var b0 := Bits();
      added := false;
      for n := 0 to |h.keys|
        invariant Valid() && AddedUpTo(h, b0, key, n, Bits())
        invariant added <==> exists j :: 0 <= j < n && !b0[Pos(h, key, h.keys[j])]
      {
        var pos := Pos(h, key, h.keys[n]);
        AddOneMore(h, b0, key, n, Bits());
        ghost var seen := Hits(h, key, n, pos);
        var isNew := SetBit(pos);
        if isNew {
          assert !b0[Pos(h, key, h.keys[n])];
        } else if !b0[pos] {
          var j :| 0 <= j < n && h.hash(key, h.keys[j]) % h.numBits == pos;
          assert !b0[Pos(h, key, h.keys[j])];
        }
        added := added || isNew;
      }
    }

    method Contains(key: K) returns (r: bool)
      requires Valid() && Usable(h)
      ensures r <==> Covered(h, Bits(), key)
      ensures r <==> forall j :: 0 <= j < |h.keys| ==> Bits()[h.hash(key, h.keys[j]) % h.numBits]
    {
      for n := 0 to |h.keys|
        invariant forall j :: 0 <= j < n ==> Bits()[Pos(h, key, h.keys[j])]
      {
        var pos := Pos(h, key, h.keys[n]);
        WordInRange(pos, h.numBits);
        AndMask(words[pos / WORD], pos % WORD);
        if And(words[pos / WORD], Pow2(pos % WORD)) == 0 {
          return false;
        }
      }
      r := true;
    }

    /** Back to a sequential filter: same bits, and the right number of set ones. */
    method ToBloom() returns (b: Bloom<K>)
      requires Valid()
      ensures fresh(b) && b.Valid() && b.h == h && b.bits == Bits()
    {
      b := new Bloom(h);
      CountExactIffPaddingClear(words[..], h.numBits);
      b.bits := Decode(words[..], h.numBits);
      b.numBitsSet := SumPopCount(words[..]);
    }
  }

  /** There and back with any adds in between gives what a sequential filter would have. */
  method RoundTrip<K>(b: Bloom<K>, keys: seq<K>) returns (c: Bloom<K>)
    requires b.Valid() && (keys != [] ==> Usable(b.h))
    ensures fresh(c) && c.Valid() && c.h == b.h
    ensures AddedInTurn(b.h, b.bits, keys, c.bits)
    ensures keys == [] ==> c.bits == b.bits && c.numBitsSet == b.numBitsSet
  {
    hide AddedUpTo, AtomicBloom.Bits;
    var a := new AtomicBloom.FromBloom(b);
    assert AddedInTurn(b.h, b.bits, keys[..0], b.bits);
    for n := 0 to |keys|
      invariant a.Valid() && a.h == b.h && fresh(a.words)
      invariant AddedInTurn(b.h, b.bits, keys[..n], a.Bits())
    {
      ghost var mid := a.Bits();
      var added := a.Add(keys[n]);
      OneMoreAdded(b.h, b.bits, keys, n, mid, a.Bits());
    }
    assert keys[..|keys|] == keys;
    c := a.ToBloom();
  }

  /**
   * The same for concurrent adds: take a filter to words, let any number of adds run in
   * any interleaving, and take the words back when all have returned. The bits are those
   * of sequential adds of the same keys in any order, and the popcount sum is their
   * number of set bits.
   */
  lemma ConcurrentRoundTrip<K>(h: Hashing<K>, b0: seq<bool>, trace: seq<Sys<K>>, steps: seq<Step<K>>,
                               keys: seq<K>, after: seq<bool>)
    requires Sane(h) && |b0| == h.numBits && Run(h, trace, steps) && trace[0] == Sys(Pack(b0), [], [])
    requires AllDone(h, trace[|steps|])
    requires forall k :: k in keys <==> k in KeysOf(trace[|steps|].calls)
    requires AddedInTurn(h, b0, keys, after)
    ensures h.numBits <= |trace[|steps|].words| * WORD
    ensures Decode(trace[|steps|].words, h.numBits) == after
    ensures SumPopCount(trace[|steps|].words) == CountTrue(after)
  {
    hide AllDone, AddedInTurn, Decode, Pack, PaddingClear, BitsOk, ClaimsOk, SumPopCount;
    PackDecodes(b0);
    ConcurrentIsSequential(h, b0, trace, steps, keys, after);
    RunKeepsInv(h, b0, trace, steps, |steps|);
    CountExactIffPaddingClear(trace[|steps|].words, h.numBits);
  }
}
