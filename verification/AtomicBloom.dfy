/**
 * The lock-free filter: an array of 64-bit words changed by atomic fetch-or operations.
 * Concurrent adds are runs of single fetch-or steps in any interleaving.
 */
module AtomicBlooms {
  import opened Powers
  import opened Words
  import opened Blooms

  /** Words needed for n bits. */
  function WordCount(n: nat): nat {
    (n + WORD - 1) / WORD
  }

  ghost predicate WordsOk(words: seq<nat>, numBits: nat) {
    && |words| == WordCount(numBits)
    && forall w :: 0 <= w < |words| ==> words[w] < Pow2(WORD)
  }

  lemma WordInRange(pos: nat, numBits: nat)
    requires pos < numBits
    ensures pos / WORD < WordCount(numBits)
  {
  }

  function BitAt(words: seq<nat>, i: nat): bool
    requires i / WORD < |words|
  {
    Bit(words[i / WORD], i % WORD)
  }

  /** The first n bits of the words. */
  function Decode(words: seq<nat>, n: nat): (r: seq<bool>)
    requires n <= |words| * WORD
    ensures |r| == n && forall i :: 0 <= i < n ==> r[i] == BitAt(words, i)
  {
    seq(n, i requires 0 <= i < n => BitAt(words, i))
  }

  /** The words have room for all bits, and one word fewer would not. */
  lemma CapacityCovers(n: nat)
    ensures n <= WordCount(n) * WORD < n + 64
  {
  }

  /** fetch_or of one word: the word before, and the words after. */
  function FetchOr(words: seq<nat>, index: nat, mask: nat): (nat, seq<nat>)
    requires index < |words|
  {
    (words[index], words[index := Or(words[index], mask)])
  }

  /** Setting one bit by fetch-or sets it in the decoded bits, and the old word tells whether it was new. */
  lemma FetchOrSetsBit(words: seq<nat>, numBits: nat, pos: nat)
    requires WordsOk(words, numBits) && pos < numBits
    ensures pos / WORD < |words|
    ensures var (prev, words') := FetchOr(words, pos / WORD, Pow2(pos % WORD));
            && WordsOk(words', numBits)
            && (And(prev, Pow2(pos % WORD)) == 0 <==> !BitAt(words, pos))
            && forall i :: 0 <= i < |words| * WORD ==> BitAt(words', i) == (i == pos || BitAt(words, i))
  {
    WordInRange(pos, numBits);
    var index, b := pos / WORD, pos % WORD;
    AndMask(words[index], b);
    Pow2StrictMono(b, WORD);
    OrBound(words[index], Pow2(b), WORD);
    forall i | 0 <= i < |words| * WORD
      ensures BitAt(FetchOr(words, index, Pow2(b)).1, i) == (i == pos || BitAt(words, i))
    {
      if i / WORD == index {
        OrBit(words[index], Pow2(b), i % WORD);
        MaskBit(b, i % WORD);
      }
    }
  }

  // ---------- concurrent adds ----------

  /** One call of add: the key, how many of its hashes are done, and what it will return. */
  datatype Call<K> = Call(key: K, next: nat, added: bool)

  /** `claims` records, for each fetch-or that saw its bit clear, which call it was and the bit. */
  datatype Sys<K> = Sys(words: seq<nat>, calls: seq<Call<K>>, claims: seq<(nat, nat)>)

  datatype Step<K> = Begin(key: K) | Or1(call: nat)

  ghost predicate Enabled<K>(h: Hashing<K>, s: Sys<K>, step: Step<K>) {
    match step
    case Begin(_) => true
    case Or1(c) => c < |s.calls| && s.calls[c].next < |h.keys|
  }

  ghost function Next<K>(h: Hashing<K>, s: Sys<K>, step: Step<K>): Sys<K>
    requires Sane(h) && WordsOk(s.words, h.numBits) && Enabled(h, s, step)
  {
    match step
    case Begin(key) => s.(calls := s.calls + [Call(key, 0, false)])
    case Or1(c) =>
      var call := s.calls[c];
      var pos := Pos(h, call.key, h.keys[call.next]);
      WordInRange(pos, h.numBits);
      var (prev, words) := FetchOr(s.words, pos / WORD, Pow2(pos % WORD));
      var isNew := And(prev, Pow2(pos % WORD)) == 0;
      Sys(words,
          s.calls[c := Call(call.key, call.next + 1, call.added || isNew)],
          if isNew then s.claims + [(c, pos)] else s.claims)
  }

  /**
   * One fetch-or of a call: the remainder of its next hash names the word and the bit, that bit is
   * set and nothing else, and the call has added something if the bit was clear.
   */
  lemma FetchOrStep<K>(h: Hashing<K>, s: Sys<K>, c: nat)
    requires Sane(h) && WordsOk(s.words, h.numBits) && Enabled(h, s, Or1(c))
    ensures var call, s' := s.calls[c], Next(h, s, Or1(c));
            var pos := h.hash(call.key, h.keys[call.next]) % h.numBits;
            && pos / 64 < |s.words|
            && s'.words == s.words[pos / 64 := Or(s.words[pos / 64], Pow2(pos % 64))]
            && s'.calls == s.calls[c := Call(call.key, call.next + 1, call.added || !Bit(s.words[pos / 64], pos % 64))]
            && forall i :: 0 <= i < |s.words| * 64 ==> BitAt(s'.words, i) == (i == pos || BitAt(s.words, i))
  {
    FetchOrSetsBit(s.words, h.numBits, Pos(h, s.calls[c].key, h.keys[s.calls[c].next]));
  }

  /** Bit i belongs to a hash that some call has already done. */
  ghost predicate Reached<K>(h: Hashing<K>, calls: seq<Call<K>>, i: nat)
    requires Usable(h) && forall c :: 0 <= c < |calls| ==> calls[c].next <= |h.keys|
  {
    exists c :: 0 <= c < |calls| && Hits(h, calls[c].key, calls[c].next, i)
  }

  ghost predicate ClaimsBit(claims: seq<(nat, nat)>, i: nat) {
    exists e :: 0 <= e < |claims| && claims[e].1 == i
  }

  ghost predicate ClaimsCall(claims: seq<(nat, nat)>, c: nat) {
    exists e :: 0 <= e < |claims| && claims[e].0 == c
  }

  /** Holds in every reachable state of concurrent adds on a filter that started with bits b0. */
  ghost predicate SysInv<K>(h: Hashing<K>, b0: seq<bool>, s: Sys<K>)
    requires Sane(h) && |b0| == h.numBits
  {
    && WordsOk(s.words, h.numBits)
    && (forall c :: 0 <= c < |s.calls| ==> s.calls[c].next <= |h.keys|)
    && BitsOk(h, b0, s)
    && PaddingClear(s.words, h.numBits)
    && ClaimsOk(h, b0, s)
    && (forall c :: 0 <= c < |s.calls| ==> (s.calls[c].added <==> ClaimsCall(s.claims, c)))
  }

  ghost predicate BitsOk<K>(h: Hashing<K>, b0: seq<bool>, s: Sys<K>)
    requires Sane(h) && |b0| == h.numBits && WordsOk(s.words, h.numBits)
    requires forall c :: 0 <= c < |s.calls| ==> s.calls[c].next <= |h.keys|
  {
    forall i :: 0 <= i < h.numBits ==>
      i / WORD < |s.words| && (BitAt(s.words, i) <==> b0[i] || Reached(h, s.calls, i))
  }

  /** The bits past the end of the last word stay zero. */
  ghost predicate PaddingClear(words: seq<nat>, numBits: nat) {
    forall i :: numBits <= i < |words| * WORD ==> !BitAt(words, i)
  }

  /** Each bit turned on since the start was claimed exactly once, by a call that began. */
  ghost predicate ClaimsOk<K>(h: Hashing<K>, b0: seq<bool>, s: Sys<K>)
    requires Sane(h) && |b0| == h.numBits && WordsOk(s.words, h.numBits)
  {
    && (forall e, f :: 0 <= e < f < |s.claims| ==> s.claims[e].1 != s.claims[f].1)
    && (forall e :: 0 <= e < |s.claims| ==> s.claims[e].0 < |s.calls| && s.claims[e].1 < h.numBits)
    && (forall i :: 0 <= i < h.numBits ==>
          i / WORD < |s.words| && (ClaimsBit(s.claims, i) <==> BitAt(s.words, i) && !b0[i]))
  }

  lemma ReachedStep<K>(h: Hashing<K>, calls: seq<Call<K>>, c: nat, added: bool, i: nat)
    requires Usable(h) && c < |calls| && calls[c].next < |h.keys|
    requires forall d :: 0 <= d < |calls| ==> calls[d].next <= |h.keys|
    ensures var calls' := calls[c := Call(calls[c].key, calls[c].next + 1, added)];
            Reached(h, calls', i) <==> Reached(h, calls, i) || i == Pos(h, calls[c].key, h.keys[calls[c].next])
  {
    var calls' := calls[c := Call(calls[c].key, calls[c].next + 1, added)];
    HitsOneMore(h, calls[c].key, calls[c].next, i);
    if Reached(h, calls, i) {
      var d :| 0 <= d < |calls| && Hits(h, calls[d].key, calls[d].next, i);
      assert Hits(h, calls'[d].key, calls'[d].next, i);
    }
    if i == Pos(h, calls[c].key, h.keys[calls[c].next]) {
      assert Hits(h, calls'[c].key, calls'[c].next, i);
    }
    if Reached(h, calls', i) {
      var d :| 0 <= d < |calls'| && Hits(h, calls'[d].key, calls'[d].next, i);
      if d != c { assert Hits(h, calls[d].key, calls[d].next, i); }
    }
  }

  lemma ReachedBegin<K>(h: Hashing<K>, calls: seq<Call<K>>, key: K, i: nat)
    requires Usable(h) && forall d :: 0 <= d < |calls| ==> calls[d].next <= |h.keys|
    ensures Reached(h, calls + [Call(key, 0, false)], i) <==> Reached(h, calls, i)
  {
    var calls' := calls + [Call(key, 0, false)];
    if Reached(h, calls, i) {
      var d :| 0 <= d < |calls| && Hits(h, calls[d].key, calls[d].next, i);
      assert Hits(h, calls'[d].key, calls'[d].next, i);
    }
    if Reached(h, calls', i) {
      var d :| 0 <= d < |calls'| && Hits(h, calls'[d].key, calls'[d].next, i);
      assert d < |calls| && Hits(h, calls[d].key, calls[d].next, i);
    }
  }

  lemma ClaimAdded(claims: seq<(nat, nat)>, c: nat, p: nat)
    ensures forall i :: ClaimsBit(claims + [(c, p)], i) <==> ClaimsBit(claims, i) || i == p
    ensures forall d :: ClaimsCall(claims + [(c, p)], d) <==> ClaimsCall(claims, d) || d == c
  {
    var claims' := claims + [(c, p)];
    assert claims'[|claims|] == (c, p);
    assert forall e :: 0 <= e < |claims| ==> claims'[e] == claims[e];
    forall i
      ensures ClaimsBit(claims', i) <==> ClaimsBit(claims, i) || i == p
    {
      if ClaimsBit(claims, i) {
        var e :| 0 <= e < |claims| && claims[e].1 == i;
        assert claims'[e].1 == i;
      }
    }
    forall d
      ensures ClaimsCall(claims', d) <==> ClaimsCall(claims, d) || d == c
    {
      if ClaimsCall(claims, d) {
        var e :| 0 <= e < |claims| && claims[e].0 == d;
        assert claims'[e].0 == d;
      }
    }
  }

  lemma BeginKeepsInv<K>(h: Hashing<K>, b0: seq<bool>, s: Sys<K>, key: K)
    requires Sane(h) && |b0| == h.numBits && SysInv(h, b0, s)
    ensures SysInv(h, b0, Next(h, s, Begin(key)))
  {
    var s' := Next(h, s, Begin(key));
    forall i | 0 <= i < h.numBits
      ensures BitAt(s.words, i) <==> b0[i] || Reached(h, s'.calls, i)
    {
      ReachedBegin(h, s.calls, key, i);
    }
    assert !ClaimsCall(s.claims, |s.calls|);
  }

  lemma OrKeepsBits<K>(h: Hashing<K>, b0: seq<bool>, s: Sys<K>, c: nat)
    requires Sane(h) && |b0| == h.numBits && SysInv(h, b0, s) && Enabled(h, s, Or1(c))
    ensures var s' := Next(h, s, Or1(c));
            && WordsOk(s'.words, h.numBits)
            && (forall d :: 0 <= d < |s'.calls| ==> s'.calls[d].next <= |h.keys|)
            && BitsOk(h, b0, s') && PaddingClear(s'.words, h.numBits)
  {
    var s' := Next(h, s, Or1(c));
    var p := Pos(h, s.calls[c].key, h.keys[s.calls[c].next]);
    FetchOrSetsBit(s.words, h.numBits, p);
    CapacityCovers(h.numBits);
    forall i | 0 <= i < h.numBits
      ensures i / WORD < |s'.words| && (BitAt(s'.words, i) <==> b0[i] || Reached(h, s'.calls, i))
    {
      WordInRange(i, h.numBits);
      ReachedStep(h, s.calls, c, s'.calls[c].added, i);
    }
  }

  lemma OrKeepsClaims<K>(h: Hashing<K>, b0: seq<bool>, s: Sys<K>, c: nat)
    requires Sane(h) && |b0| == h.numBits && SysInv(h, b0, s) && Enabled(h, s, Or1(c))
    ensures var s' := Next(h, s, Or1(c));
            && WordsOk(s'.words, h.numBits) && ClaimsOk(h, b0, s')
            && forall d :: 0 <= d < |s'.calls| ==> (s'.calls[d].added <==> ClaimsCall(s'.claims, d))
  {
    var s' := Next(h, s, Or1(c));
    var p := Pos(h, s.calls[c].key, h.keys[s.calls[c].next]);
    FetchOrSetsBit(s.words, h.numBits, p);
    CapacityCovers(h.numBits);
    ClaimAdded(s.claims, c, p);
    assert BitAt(s.words, p) ==> s'.claims == s.claims;
    assert !BitAt(s.words, p) ==> !ClaimsBit(s.claims, p);
    forall i | 0 <= i < h.numBits
      ensures i / WORD < |s'.words| && (ClaimsBit(s'.claims, i) <==> BitAt(s'.words, i) && !b0[i])
    {
      WordInRange(i, h.numBits);
    }
  }

  lemma StepKeepsInv<K>(h: Hashing<K>, b0: seq<bool>, s: Sys<K>, step: Step<K>)
    requires Sane(h) && |b0| == h.numBits && SysInv(h, b0, s) && Enabled(h, s, step)
    ensures SysInv(h, b0, Next(h, s, step))
  {
    match step
    case Begin(key) => BeginKeepsInv(h, b0, s, key);
    case Or1(c) =>
      OrKeepsBits(h, b0, s, c);
      OrKeepsClaims(h, b0, s, c);
  }

  // ---------- whole runs ----------

  /** The states of a run, one more than its steps. */
  ghost predicate Run<K>(h: Hashing<K>, trace: seq<Sys<K>>, steps: seq<Step<K>>)
    requires Sane(h)
  {
    && |trace| == |steps| + 1
    && forall i :: 0 <= i < |steps| ==>
         && WordsOk(trace[i].words, h.numBits) && Enabled(h, trace[i], steps[i])
         && trace[i + 1] == Next(h, trace[i], steps[i])
  }

  ghost predicate Initial<K>(h: Hashing<K>, b0: seq<bool>, s: Sys<K>)
    requires Sane(h) && |b0| == h.numBits
  {
    && s.calls == [] && s.claims == []
    && WordsOk(s.words, h.numBits) && PaddingClear(s.words, h.numBits)
    && h.numBits <= |s.words| * WORD && Decode(s.words, h.numBits) == b0
  }

  lemma InitialInv<K>(h: Hashing<K>, b0: seq<bool>, s: Sys<K>)
    requires Sane(h) && |b0| == h.numBits && Initial(h, b0, s)
    ensures SysInv(h, b0, s)
  {
    forall i | 0 <= i < h.numBits
      ensures i / WORD < |s.words| && BitAt(s.words, i) == b0[i] && !ClaimsBit(s.claims, i) && !Reached(h, s.calls, i)
    {
      assert Decode(s.words, h.numBits)[i] == BitAt(s.words, i);
    }
  }

  lemma {:induction false} RunKeepsInv<K>(h: Hashing<K>, b0: seq<bool>, trace: seq<Sys<K>>, steps: seq<Step<K>>, n: nat)
    requires Sane(h) && |b0| == h.numBits && Run(h, trace, steps) && Initial(h, b0, trace[0]) && n <= |steps|
    ensures SysInv(h, b0, trace[n])
    decreases n
  {
    if n == 0 {
      InitialInv(h, b0, trace[0]);
    } else {
      RunKeepsInv(h, b0, trace, steps, n - 1);
      hide SysInv, Next;
      StepKeepsInv(h, b0, trace[n - 1], steps[n - 1]);
    }
  }

  ghost predicate AllDone<K>(h: Hashing<K>, s: Sys<K>) {
    forall c :: 0 <= c < |s.calls| ==> s.calls[c].next == |h.keys|
  }

  function KeysOf<K>(calls: seq<Call<K>>): (r: seq<K>)
    ensures |r| == |calls| && forall c :: 0 <= c < |calls| ==> r[c] == calls[c].key
  {
    seq(|calls|, c requires 0 <= c < |calls| => calls[c].key)
  }

  /**
   * However the fetch-or steps of concurrent adds interleave, once all calls have
   * returned the words decode to the bits that sequential adds of the same keys give,
   * in whatever order those are made.
   */
  lemma ConcurrentIsSequential<K>(h: Hashing<K>, b0: seq<bool>, trace: seq<Sys<K>>, steps: seq<Step<K>>,
                                  keys: seq<K>, after: seq<bool>)
    requires Sane(h) && |b0| == h.numBits && Run(h, trace, steps) && Initial(h, b0, trace[0])
    requires AllDone(h, trace[|steps|])
    requires forall k :: k in keys <==> k in KeysOf(trace[|steps|].calls)
    requires AddedInTurn(h, b0, keys, after)
    ensures h.numBits <= |trace[|steps|].words| * WORD
    ensures Decode(trace[|steps|].words, h.numBits) == after
  {
    var s := trace[|steps|];
    RunKeepsInv(h, b0, trace, steps, |steps|);
    CapacityCovers(h.numBits);
    AddedInTurnBits(h, b0, keys, after);
    forall i | 0 <= i < h.numBits
      ensures BitAt(s.words, i) == after[i]
    {
      var ks := KeysOf(s.calls);
      SameKeysSameHits(h, keys, ks, i);
      SameKeysSameHits(h, ks, keys, i);
      if Reached(h, s.calls, i) {
        var c :| 0 <= c < |s.calls| && Hits(h, s.calls[c].key, s.calls[c].next, i);
        assert Hits(h, ks[c], |h.keys|, i);
      }
      if HitsAny(h, ks, i) {
        var c :| 0 <= c < |ks| && Hits(h, ks[c], |h.keys|, i);
        assert Hits(h, s.calls[c].key, s.calls[c].next, i);
      }
    }
  }

  /** A call keeps its key and never goes back. */
  lemma {:induction false} CallsPersist<K>(h: Hashing<K>, trace: seq<Sys<K>>, steps: seq<Step<K>>, i: nat, j: nat,
                                           c: nat)
    requires Sane(h) && Run(h, trace, steps) && i <= j <= |steps| && c < |trace[i].calls|
    ensures c < |trace[j].calls|
    ensures trace[j].calls[c].key == trace[i].calls[c].key && trace[i].calls[c].next <= trace[j].calls[c].next
    decreases j - i
  {
    if i < j {
      CallsPersist(h, trace, steps, i, j - 1, c);
      RunStep(h, trace, steps, j - 1);
      hide Run;
      CallPersists(h, trace[j - 1], steps[j - 1], c);
    }
  }

  lemma RunStep<K>(h: Hashing<K>, trace: seq<Sys<K>>, steps: seq<Step<K>>, n: nat)
    requires Sane(h) && Run(h, trace, steps) && n < |steps|
    ensures WordsOk(trace[n].words, h.numBits) && Enabled(h, trace[n], steps[n])
    ensures trace[n + 1] == Next(h, trace[n], steps[n])
  {
  }

  lemma CallPersists<K>(h: Hashing<K>, s: Sys<K>, step: Step<K>, c: nat)
    requires Sane(h) && WordsOk(s.words, h.numBits) && Enabled(h, s, step) && c < |s.calls|
    ensures var s' := Next(h, s, step);
            c < |s'.calls| && s'.calls[c].key == s.calls[c].key && s.calls[c].next <= s'.calls[c].next
  {
  }

  /** Once an add has finished, its key tests positive in every later state. */
  lemma FinishedStaysContained<K>(h: Hashing<K>, b0: seq<bool>, trace: seq<Sys<K>>, steps: seq<Step<K>>, i: nat,
                                  j: nat, c: nat)
    requires Sane(h) && |b0| == h.numBits && Run(h, trace, steps) && Initial(h, b0, trace[0])
    requires i <= j <= |steps| && c < |trace[i].calls| && trace[i].calls[c].next == |h.keys|
    ensures h.numBits <= |trace[j].words| * WORD
    ensures Covered(h, Decode(trace[j].words, h.numBits), trace[i].calls[c].key)
  {
    CallsPersist(h, trace, steps, i, j, c);
    RunKeepsInv(h, b0, trace, steps, j);
    CapacityCovers(h.numBits);
    var s := trace[j];
    forall n | 0 <= n < |h.keys|
      ensures Decode(s.words, h.numBits)[Pos(h, trace[i].calls[c].key, h.keys[n])]
    {
      var p := Pos(h, s.calls[c].key, h.keys[n]);
      assert Hits(h, s.calls[c].key, s.calls[c].next, p);
      assert Reached(h, s.calls, p);
    }
  }

  /**
   * Over a whole run every bit that was turned on was seen as new by exactly one
   * fetch-or, and a call returns true exactly when one of those was its own.
   */
  lemma EachBitClaimedOnce<K>(h: Hashing<K>, b0: seq<bool>, trace: seq<Sys<K>>, steps: seq<Step<K>>)
    requires Sane(h) && |b0| == h.numBits && Run(h, trace, steps) && Initial(h, b0, trace[0])
    ensures var s := trace[|steps|];
            && h.numBits <= |s.words| * WORD
            && (forall i :: 0 <= i < h.numBits ==>
                  (ClaimsBit(s.claims, i) <==> Decode(s.words, h.numBits)[i] && !b0[i]))
            && (forall e, f :: 0 <= e < f < |s.claims| ==> s.claims[e].1 != s.claims[f].1)
            && (forall c :: 0 <= c < |s.calls| ==> (s.calls[c].added <==> ClaimsCall(s.claims, c)))
  {
    RunKeepsInv(h, b0, trace, steps, |steps|);
    CapacityCovers(h.numBits);
  }
}
