/** Who pays whom in every round of a run, in terms of the accounts the chunks were built from. */
module TransferRounds {
  import opened Powers
  import opened TransferChunks

  /** How often chunk c was used before round t, when there are n chunks. */
  function Uses(c: nat, t: nat, n: nat): nat
    requires n > 0
  {
    t / n + if c < t % n then 1 else 0
  }

  lemma UsesNext(c: nat, t: nat, n: nat)
    requires c < n && t > 0
    ensures Uses(c, t, n) == Uses(c, t - 1, n) + if c == (t - 1) % n then 1 else 0
  {
    NextRound(t, n);
  }

  lemma TurnedOnce(i: nat, u: nat, size: nat)
    requires i < size
    ensures ((i + 1) % size + u) % size == (i + (u + 1)) % size
  {
    if i + 1 < size {
      DivModUnique(i + 1, 0, i + 1, size);
    } else {
      DivModUnique(size, 1, 0, size);
      ModSubtract(size + u, size);
    }
  }

  lemma RotatedAt<K>(s: seq<K>, i: nat)
    requires i < |s|
    ensures RotateLeft(s)[i] == s[(i + 1) % |s|]
  {
    DivModUnique(i + 1, if i + 1 < |s| then 0 else 1, if i + 1 < |s| then i + 1 else 0, |s|);
  }

  /** The destinations `now` are those of the start, turned u places to the left. */
  ghost predicate Turned<K>(start: seq<K>, u: nat, now: seq<K>) {
    |now| == |start| && forall i :: 0 <= i < |start| ==> now[i] == start[(i + u) % |start|]
  }

  lemma TurnedNone<K>(start: seq<K>)
    ensures Turned(start, 0, start)
  {
    forall i | 0 <= i < |start|
      ensures i % |start| == i
    {
      DivModUnique(i, 0, i, |start|);
    }
  }

  lemma TurnedMore<K>(start: seq<K>, u: nat, now: seq<K>)
    requires now != [] && Turned(start, u, now)
    ensures Turned(start, u + 1, RotateLeft(now))
  {
    forall i | 0 <= i < |start|
      ensures RotateLeft(now)[i] == start[(i + (u + 1)) % |start|]
    {
      RotatedAt(now, i);
      TurnedOnce(i, u, |start|);
    }
  }

  /** The destinations of a chunk have turned by one place for every use of the chunk, and only then. */
  lemma {:induction false} DestAfter<K>(g: Gen<K>, t: nat, c: nat)
    requires GenOk(g) && g.ix == 0 && !g.reclaim && c < |g.chunks.source|
    ensures |After(g, t).chunks.dest| == |g.chunks.dest|
    ensures Turned(g.chunks.dest[c], Uses(c, t, |g.chunks.source|), After(g, t).chunks.dest[c])
  {
    hide After, Uses, Turned, RotateLeft;
    var n := |g.chunks.source|;
    if t == 0 {
      AfterStart(g);
      TurnedNone(g.chunks.dest[c]);
      NoUses(c, n);
    } else {
      DestAfter(g, t - 1, c);
      ChunksKept(g, t - 1);
      Position(g, t - 1);
      AfterUnroll(g, t);
      UsesNext(c, t, n);
      if c == (t - 1) % n {
        TurnedMore(g.chunks.dest[c], Uses(c, t - 1, n), After(g, t - 1).chunks.dest[c]);
      }
    }
  }

  lemma NoUses(c: nat, n: nat)
    requires n > 0
    ensures Uses(c, 0, n) == 0
  {
    DivModUnique(0, 0, 0, n);
  }

  /**
   * Round t works on chunk t mod n for the (t div n)-th time. Source i pays the destination that the
   * rotations have brought to place i, and is paid back by it in every other pass.
   */
  lemma RoundTransfers<K>(g: Gen<K>, t: nat, i: nat)
    requires GenOk(g) && g.ix == 0 && !g.reclaim
    requires i < |g.chunks.source[t % |g.chunks.source|]|
    ensures var n := |g.chunks.source|;
            var source, dest := g.chunks.source[t % n], g.chunks.dest[t % n];
            var txs := Generated(After(g, t));
            var payee := dest[(i + t / n) % |dest|];
            && |txs| == |source|
            && txs[i] == if (t / n) % 2 == 1 then (payee, source[i]) else (source[i], payee)
  {
    hide After;
    var n := |g.chunks.source|;
    Position(g, t);
    ChunksKept(g, t);
    DestAfter(g, t, t % n);
  }

  lemma BuiltAt<K>(accounts: seq<K>, size: nat, groups: nat, r: Chunks<K>, c: nat, x: nat)
    requires 1 <= groups <= size && BuiltFrom(accounts, size, groups, r) && c < |r.source| && x < size
    ensures var first := c * (2 * size);
            && first + 2 * size <= |accounts| && x % groups < size
            && |r.source[c]| == |r.dest[c]| == size
            && r.source[c][x] == accounts[first + x]
            && r.dest[c][x] == accounts[first + size + x % groups]
  {
    assert ChunkBuilt(accounts, size, groups, c, r.source[c], r.dest[c]);
    hide ChunkAt;
    assert (c + 1) * (2 * size) == c * (2 * size) + 2 * size;
    ElementOfChunk(accounts, size, c, x);
    ElementOfChunk(accounts, size, c, size + x % groups);
  }

  /** The same in account numbers: the payer of transfer i of round t, and the payee. */
  lemma RoundAccounts<K>(accounts: seq<K>, size: nat, groups: nat, g: Gen<K>, t: nat, i: nat)
    requires 1 <= groups <= size && BuiltFrom(accounts, size, groups, g.chunks)
    requires GenOk(g) && g.ix == 0 && !g.reclaim && i < size
    ensures var n := |g.chunks.source|;
            var first := (t % n) * (2 * size);
            var txs := Generated(After(g, t));
            && first + 2 * size <= |accounts| && |txs| == size && ((i + t / n) % size) % groups < size
            && var a, b := accounts[first + i], accounts[first + size + ((i + t / n) % size) % groups];
               txs[i] == if (t / n) % 2 == 1 then (b, a) else (a, b)
  {
    hide BuiltFrom, After, Generated;
    var n := |g.chunks.source|;
    BuiltAt(accounts, size, groups, g.chunks, t % n, i);
    RoundTransfers(g, t, i);
    BuiltAt(accounts, size, groups, g.chunks, t % n, (i + t / n) % size);
  }
}
