/**
 * The generator of benchmark transfers: chunks of source and destination accounts, a
 * rotation of the destinations after every use, and a change of direction after every
 * pass over the chunks.
 */
module TransferChunks {
  import opened Powers
  import opened Sequences

  datatype Chunks<K> = Chunks(source: seq<seq<K>>, dest: seq<seq<K>>)

  /** Destination i of a chunk: the first g accounts of its second half, over and over. */
  function DestChunk<K>(chunk: seq<K>, size: nat, g: nat): (r: seq<K>)
    requires |chunk| == 2 * size && 1 <= g <= size
    ensures |r| == size && forall i :: 0 <= i < size ==> r[i] == chunk[size + i % g]
  {
    seq(size, i requires 0 <= i < size => chunk[size + i % g])
  }

  /** Chunk c of the accounts. */
  function ChunkAt<K>(accounts: seq<K>, size: nat, c: nat): (r: seq<K>)
    requires (c + 1) * (2 * size) <= |accounts|
    ensures |r| == 2 * size
  {
    assert (c + 1) * (2 * size) == c * (2 * size) + 2 * size;
    accounts[c * (2 * size)..c * (2 * size) + 2 * size]
  }

  /** The chunks are the accounts in order, half sources and half destinations. */
  ghost predicate BuiltFrom<K>(accounts: seq<K>, size: nat, g: nat, r: Chunks<K>)
    requires 1 <= g <= size
  {
    && |r.source| == |r.dest|
    && forall c :: 0 <= c < |r.source| ==> ChunkBuilt(accounts, size, g, c, r.source[c], r.dest[c])
  }

  ghost predicate ChunkBuilt<K>(accounts: seq<K>, size: nat, g: nat, c: nat, source: seq<K>, dest: seq<K>)
    requires 1 <= g <= size
  {
    && (c + 1) * (2 * size) <= |accounts|
    && source == ChunkAt(accounts, size, c)[..size]
    && dest == DestChunk(ChunkAt(accounts, size, c), size, g)
  }

  /** The number of whole chunks. */
  function ChunkCount(accounts: nat, size: nat): nat
    requires size >= 1
  {
    if accounts < 2 * size then 0 else 1 + ChunkCount(accounts - 2 * size, size)
  }

  lemma {:induction false} ChunkCountIsQuotient(accounts: nat, size: nat)
    requires size >= 1
    ensures ChunkCount(accounts, size) == accounts / (2 * size)
  {
    var m, q := 2 * size, ChunkCount(accounts, size);
    WholeChunks(accounts, size);
    DivModUnique(accounts, q, accounts - q * m, m);
  }

  lemma {:induction false} WholeChunks(accounts: nat, size: nat)
    requires size >= 1
    ensures 0 <= accounts - ChunkCount(accounts, size) * (2 * size) < 2 * size
  {
    var m := 2 * size;
    if accounts >= m {
      WholeChunks(accounts - m, size);
      var q := ChunkCount(accounts - m, size);
      assert (q + 1) * m == q * m + m;
    }
  }

  lemma ChunkFits(accounts: nat, size: nat, c: nat)
    requires size >= 1 && c < ChunkCount(accounts, size)
    ensures (c + 1) * (2 * size) <= accounts
  {
    hide ChunkCount;
    WholeChunks(accounts, size);
    var q := ChunkCount(accounts, size);
    if c + 1 < q { MulMono(c + 1, q, 2 * size); }
  }

  /** Splits accounts into chunks; what does not fill a chunk is left over. */
  method NewWithConflictGroups<K>(accounts: seq<K>, size: nat, g: nat) returns (r: Chunks<K>)
    requires 1 <= g <= size
    ensures |r.source| == ChunkCount(|accounts|, size) && BuiltFrom(accounts, size, g, r)
  {
    hide ChunkBuilt, ChunkCount;
    var n := ChunkCount(|accounts|, size);
    var source: seq<seq<K>>, dest: seq<seq<K>> := [], [];
    for c := 0 to n
      invariant |source| == |dest| == c
      invariant forall d :: 0 <= d < c ==> ChunkBuilt(accounts, size, g, d, source[d], dest[d])
    {
      ChunkFits(|accounts|, size, c);
      var s, d := SplitChunk(accounts, size, g, c);
      source := source + [s];
      dest := dest + [d];
    }
    r := Chunks(source, dest);
  }

  method SplitChunk<K>(accounts: seq<K>, size: nat, g: nat, c: nat) returns (source: seq<K>, dest: seq<K>)
    requires 1 <= g <= size && (c + 1) * (2 * size) <= |accounts|
    ensures ChunkBuilt(accounts, size, g, c, source, dest)
  {
    var chunk := ChunkAt(accounts, size, c);
    source, dest := chunk[..size], DestChunk(chunk, size, g);
  }

  // ---------- one transfer round ----------

  function RotateLeft<K>(s: seq<K>): (r: seq<K>)
    requires s != []
    ensures |r| == |s| && multiset(r) == multiset(s)
  {
    assert s == [s[0]] + s[1..];
    s[1..] + [s[0]]
  }

  /** Who pays whom one lamport. */
  function Pairs<K>(source: seq<K>, dest: seq<K>, reclaim: bool): (r: seq<(K, K)>)
    requires |source| == |dest|
    ensures |r| == |source|
  {
    seq(|source|, i requires 0 <= i < |source| => if reclaim then (dest[i], source[i]) else (source[i], dest[i]))
  }

  /** What an account gains from the pairs: received less sent. */
  ghost function Gain<K>(pairs: seq<(K, K)>, k: K): int {
    if pairs == [] then 0
    else
      var (from, to) := pairs[|pairs| - 1];
      Gain(pairs[..|pairs| - 1], k) + (if to == k then 1 else 0) - (if from == k then 1 else 0)
  }

  /** How much more often k is a destination than a source. */
  ghost function Surplus<K>(source: seq<K>, dest: seq<K>, k: K): int {
    multiset(dest)[k] as int - multiset(source)[k] as int
  }

  /** A round forward gives each destination one per occurrence and takes one per source; a reclaim is its opposite. */
  lemma {:induction false} GainOfPairs<K>(source: seq<K>, dest: seq<K>, reclaim: bool, k: K)
    requires |source| == |dest|
    ensures Gain(Pairs(source, dest, reclaim), k) ==
            if reclaim then -Surplus(source, dest, k) else Surplus(source, dest, k)
    decreases |source|
  {
    if source != [] {
      var n := |source| - 1;
      GainOfPairs(source[..n], dest[..n], reclaim, k);
      assert source == source[..n] + [source[n]] && dest == dest[..n] + [dest[n]];
      assert Pairs(source, dest, reclaim)[..n] == Pairs(source[..n], dest[..n], reclaim);
    }
  }

  // ---------- the generator ----------

  datatype Gen<K> = Gen(chunks: Chunks<K>, ix: nat, reclaim: bool)

  ghost predicate GenOk<K>(g: Gen<K>) {
    && 0 < |g.chunks.source| == |g.chunks.dest| && g.ix < |g.chunks.source|
    && forall c :: 0 <= c < |g.chunks.source| ==> 0 < |g.chunks.source[c]| == |g.chunks.dest[c]|
  }

  function Generated<K>(g: Gen<K>): seq<(K, K)>
    requires GenOk(g)
  {
    Pairs(g.chunks.source[g.ix], g.chunks.dest[g.ix], g.reclaim)
  }

  function Advanced<K>(g: Gen<K>): Gen<K>
    requires GenOk(g)
  {
    var dest := g.chunks.dest[g.ix := RotateLeft(g.chunks.dest[g.ix])];
    var ix := (g.ix + 1) % |g.chunks.source|;
    Gen(g.chunks.(dest := dest), ix, if ix == 0 then !g.reclaim else g.reclaim)
  }

  class TransactionChunkGenerator<K> {
    var chunks: Chunks<K>
    var chunkIndex: nat
    var reclaim: bool

    ghost function View(): Gen<K>
      reads this
    {
      Gen(chunks, chunkIndex, reclaim)
    }

    constructor (accounts: seq<K>, size: nat, g: nat)
      requires 1 <= g <= size
      ensures View().ix == 0 && !View().reclaim && (GenOk(View()) <==> 2 * size <= |accounts|)
      ensures |chunks.source| == |accounts| / (2 * size) && BuiltFrom(accounts, size, g, chunks)
    {
      ChunkCountIsQuotient(|accounts|, size);
      var c := NewWithConflictGroups(accounts, size, g);
      chunks := c;
      chunkIndex := 0;
      reclaim := false;
    }

    method Generate() returns (txs: seq<(K, K)>)
      requires GenOk(View())
      ensures txs == Generated(View())
    {
      txs := Pairs(chunks.source[chunkIndex], chunks.dest[chunkIndex], reclaim);
    }

    method Advance()
      requires GenOk(View())
      modifies this
      ensures View() == Advanced(old(View()))
    {
      chunks := chunks.(dest := chunks.dest[chunkIndex := RotateLeft(chunks.dest[chunkIndex])]);
      chunkIndex := (chunkIndex + 1) % |chunks.source|;
      if chunkIndex == 0 {
        reclaim := !reclaim;
      }
    }
  }

  // ---------- runs ----------

  lemma AdvancedOk<K>(g: Gen<K>)
    requires GenOk(g)
    ensures GenOk(Advanced(g))
  {
  }

  /** The generator after t rounds. */
  ghost function After<K>(g: Gen<K>, t: nat): (r: Gen<K>)
    requires GenOk(g)
    ensures GenOk(r)
  {
    if t == 0 then g
    else
      AdvancedOk(After(g, t - 1));
      Advanced(After(g, t - 1))
  }

  /** What account k has gained after t rounds. */
  ghost function Net<K>(g: Gen<K>, t: nat, k: K): int
    requires GenOk(g)
  {
    if t == 0 then 0 else Net(g, t - 1, k) + Gain(Generated(After(g, t - 1)), k)
  }

  /** The lamports of chunk c are at its destinations. */
  predicate IsOut(c: nat, ix: nat, reclaim: bool) {
    (c < ix) != reclaim
  }

  /** What k has when exactly the lamports of the chunks that are out have moved; chunks below n. */
  ghost function Expected<K>(chunks: Chunks<K>, n: nat, ix: nat, reclaim: bool, k: K): int
    requires n <= |chunks.source| == |chunks.dest|
  {
    if n == 0 then 0
    else
      Expected(chunks, n - 1, ix, reclaim, k) +
      if IsOut(n - 1, ix, reclaim) then Surplus(chunks.source[n - 1], chunks.dest[n - 1], k) else 0
  }

  /** Only the number of occurrences matters, so rotating a chunk changes nothing. */
  lemma {:induction false} ExpectedRotate<K>(a: Chunks<K>, b: Chunks<K>, n: nat, ix: nat, reclaim: bool, k: K)
    requires n <= |a.source| == |a.dest| == |b.dest| && a.source == b.source
    requires forall c :: 0 <= c < |a.dest| ==> multiset(a.dest[c]) == multiset(b.dest[c])
    ensures Expected(a, n, ix, reclaim, k) == Expected(b, n, ix, reclaim, k)
    decreases n
  {
    if n > 0 { ExpectedRotate(a, b, n - 1, ix, reclaim, k); }
  }

  /** Moving on from chunk ix changes whether that chunk is out, and no other. */
  lemma {:induction false} ExpectedNext<K>(chunks: Chunks<K>, n: nat, ix: nat, reclaim: bool, k: K)
    requires n <= |chunks.source| == |chunks.dest| && ix < |chunks.source|
    ensures Expected(chunks, n, ix + 1, reclaim, k) ==
            Expected(chunks, n, ix, reclaim, k) +
            (if ix >= n then 0
             else if reclaim then -Surplus(chunks.source[ix], chunks.dest[ix], k)
             else Surplus(chunks.source[ix], chunks.dest[ix], k))
    decreases n
  {
    if n > 0 { ExpectedNext(chunks, n - 1, ix, reclaim, k); }
  }

  /** The end of a pass is the start of the next one in the other direction. */
  lemma {:induction false} ExpectedWrap<K>(chunks: Chunks<K>, n: nat, reclaim: bool, k: K)
    requires n <= |chunks.source| == |chunks.dest|
    ensures Expected(chunks, n, |chunks.source|, reclaim, k) == Expected(chunks, n, 0, !reclaim, k)
    decreases n
  {
    if n > 0 { ExpectedWrap(chunks, n - 1, reclaim, k); }
  }

  ghost function ExpectedAt<K>(g: Gen<K>, k: K): int
    requires GenOk(g)
  {
    Expected(g.chunks, |g.chunks.source|, g.ix, g.reclaim, k)
  }

  lemma NextChunk<K>(g: Gen<K>)
    requires GenOk(g)
    ensures GenOk(Advanced(g)) && Advanced(g).chunks.source == g.chunks.source
    ensures forall c :: 0 <= c < |g.chunks.dest| ==> multiset(Advanced(g).chunks.dest[c]) == multiset(g.chunks.dest[c])
    ensures if g.ix + 1 == |g.chunks.source| then Advanced(g).ix == 0 && Advanced(g).reclaim == !g.reclaim
            else Advanced(g).ix == g.ix + 1 && Advanced(g).reclaim == g.reclaim
  {
    var n := |g.chunks.source|;
    DivModUnique(g.ix + 1, if g.ix + 1 == n then 1 else 0, if g.ix + 1 == n then 0 else g.ix + 1, n);
  }

  lemma RoundMovesExpected<K>(g: Gen<K>, k: K)
    requires GenOk(g)
    ensures GenOk(Advanced(g))
    ensures ExpectedAt(Advanced(g), k) == ExpectedAt(g, k) + Gain(Generated(g), k)
  {
    NextChunk(g);
    hide Expected, Gain, Pairs, Advanced, Surplus;
    var n := |g.chunks.source|;
    var g' := Advanced(g);
    GainOfPairs(g.chunks.source[g.ix], g.chunks.dest[g.ix], g.reclaim, k);
    ExpectedNext(g.chunks, n, g.ix, g.reclaim, k);
    ExpectedRotate(g.chunks, g'.chunks, n, g'.ix, g'.reclaim, k);
    if g.ix + 1 == n {
      ExpectedWrap(g.chunks, n, g.reclaim, k);
    }
  }

  lemma {:induction false} ChunksKept<K>(g: Gen<K>, t: nat)
    requires GenOk(g)
    ensures After(g, t).chunks.source == g.chunks.source && |After(g, t).chunks.dest| == |g.chunks.dest|
    ensures forall c :: 0 <= c < |g.chunks.dest| ==> multiset(After(g, t).chunks.dest[c]) == multiset(g.chunks.dest[c])
  {
    if t > 0 {
      ChunksKept(g, t - 1);
      NextChunk(After(g, t - 1));
      hide Advanced;
    }
  }

  /** At every point of a run the lamports that have moved are exactly those of the chunks that are out. */
  lemma {:induction false} NetIsExpected<K>(g: Gen<K>, t: nat, k: K)
    requires GenOk(g) && g.ix == 0 && !g.reclaim
    ensures Net(g, t, k) == Expected(g.chunks, |g.chunks.source|, After(g, t).ix, After(g, t).reclaim, k)
  {
    hide *;
    if t == 0 {
      RunStart(g, k);
      ExpectedNone(g.chunks, |g.chunks.source|, k);
    } else {
      NetIsExpected(g, t - 1, k);
      RunUnroll(g, t, k);
      ChunksKept(g, t - 1);
      ChunksKept(g, t);
      ExpectedAtStart(g, After(g, t - 1), k);
      ExpectedAtStart(g, After(g, t), k);
      RoundMovesExpected(After(g, t - 1), k);
    }
  }

  lemma RunStart<K>(g: Gen<K>, k: K)
    requires GenOk(g)
    ensures After(g, 0) == g && Net(g, 0, k) == 0 && |g.chunks.dest| == |g.chunks.source|
  {
  }

  /** One more round. */
  lemma RunUnroll<K>(g: Gen<K>, t: nat, k: K)
    requires GenOk(g) && t > 0
    ensures GenOk(After(g, t - 1)) && GenOk(After(g, t))
    ensures After(g, t) == Advanced(After(g, t - 1))
    ensures Net(g, t, k) == Net(g, t - 1, k) + Gain(Generated(After(g, t - 1)), k)
  {
  }

  lemma ExpectedAtStart<K>(g: Gen<K>, p: Gen<K>, k: K)
    requires GenOk(g) && GenOk(p) && p.chunks.source == g.chunks.source && |p.chunks.dest| == |g.chunks.dest|
    requires forall c :: 0 <= c < |g.chunks.dest| ==> multiset(p.chunks.dest[c]) == multiset(g.chunks.dest[c])
    ensures Expected(g.chunks, |g.chunks.source|, p.ix, p.reclaim, k) == ExpectedAt(p, k)
  {
    ExpectedRotate(g.chunks, p.chunks, |g.chunks.source|, p.ix, p.reclaim, k);
  }

  lemma {:induction false} ExpectedNone<K>(chunks: Chunks<K>, n: nat, k: K)
    requires n <= |chunks.source| == |chunks.dest|
    ensures Expected(chunks, n, 0, false, k) == 0
  {
    if n > 0 { ExpectedNone(chunks, n - 1, k); }
  }

  /** The pass round t belongs to, and the chunk it works on, when there are n chunks. */
  function PassOf(t: nat, n: nat): nat
    requires n > 0
  {
    t / n
  }

  function ChunkOf(t: nat, n: nat): nat
    requires n > 0
  {
    t % n
  }

  lemma NextRound(t: nat, n: nat)
    requires t > 0 && n > 0
    ensures if ChunkOf(t - 1, n) + 1 == n then PassOf(t, n) == PassOf(t - 1, n) + 1 && ChunkOf(t, n) == 0
            else PassOf(t, n) == PassOf(t - 1, n) && ChunkOf(t, n) == ChunkOf(t - 1, n) + 1
  {
    var q, r := (t - 1) / n, (t - 1) % n;
    if r + 1 == n {
      assert t == (q + 1) * n;
      DivModUnique(t, q + 1, 0, n);
    } else {
      DivModUnique(t, q, r + 1, n);
    }
  }

  /** Round t works on its chunk, and the direction is the parity of the pass. */
  lemma {:induction false} Position<K>(g: Gen<K>, t: nat)
    requires GenOk(g) && g.ix == 0 && !g.reclaim
    ensures var n := |g.chunks.source|;
            After(g, t).ix == ChunkOf(t, n) && After(g, t).reclaim == (PassOf(t, n) % 2 == 1)
  {
    hide After, Advanced, ChunkOf, PassOf;
    var n := |g.chunks.source|;
    if t == 0 {
      AfterStart(g);
    } else {
      Position(g, t - 1);
      ChunksKept(g, t - 1);
      AfterUnroll(g, t);
      NextChunk(After(g, t - 1));
      NextRound(t, n);
    }
  }

  lemma AfterStart<K>(g: Gen<K>)
    requires GenOk(g)
    ensures After(g, 0) == g
    ensures ChunkOf(0, |g.chunks.source|) == 0 && PassOf(0, |g.chunks.source|) == 0
  {
    DivModUnique(0, 0, 0, |g.chunks.source|);
  }

  lemma AfterUnroll<K>(g: Gen<K>, t: nat)
    requires GenOk(g) && t > 0
    ensures GenOk(After(g, t - 1)) && After(g, t) == Advanced(After(g, t - 1))
  {
  }

  /** After every two full passes every account is back where it started. */
  lemma TwoPassesBalance<K>(g: Gen<K>, passes: nat, k: K)
    requires GenOk(g) && g.ix == 0 && !g.reclaim
    ensures Net(g, 2 * passes * |g.chunks.source|, k) == 0
  {
    var n := |g.chunks.source|;
    var t := 2 * passes * n;
    DivModUnique(t, 2 * passes, 0, n);
    Position(g, t);
    NetIsExpected(g, t, k);
    ExpectedNone(g.chunks, n, k);
  }

  /** The same by the number of rounds: a whole and even number of passes leaves every account even. */
  lemma EvenPassesBalance<K>(g: Gen<K>, t: nat, k: K)
    requires GenOk(g) && g.ix == 0 && !g.reclaim
    ensures var n := |g.chunks.source|; ChunkOf(t, n) == 0 && PassOf(t, n) % 2 == 0 ==> Net(g, t, k) == 0
  {
    hide After, Net, ChunkOf, PassOf, Expected;
    Position(g, t);
    NetIsExpected(g, t, k);
    ExpectedNone(g.chunks, |g.chunks.source|, k);
  }

  // ---------- single accounts ----------

  /** An account that only chunk c uses has moved by what chunk c gives it, if that chunk is out. */
  lemma {:induction false} ExpectedSingle<K>(chunks: Chunks<K>, n: nat, ix: nat, reclaim: bool, k: K, c: nat)
    requires n <= |chunks.source| == |chunks.dest| && c < |chunks.source|
    requires forall d :: 0 <= d < |chunks.source| && d != c ==> Surplus(chunks.source[d], chunks.dest[d], k) == 0
    ensures Expected(chunks, n, ix, reclaim, k) ==
            if c < n && IsOut(c, ix, reclaim) then Surplus(chunks.source[c], chunks.dest[c], k) else 0
  {
    if n > 0 { ExpectedSingle(chunks, n - 1, ix, reclaim, k, c); }
  }

  lemma SameCell(c: nat, x: nat, d: nat, y: nat, m: nat)
    requires x < m && y < m && c * m + x == d * m + y
    ensures c == d && x == y
  {
    DivModUnique(c * m + x, c, x, m);
    DivModUnique(c * m + x, d, y, m);
  }

  lemma ElementOfChunk<K>(accounts: seq<K>, size: nat, c: nat, x: nat)
    requires (c + 1) * (2 * size) <= |accounts| && x < 2 * size
    ensures c * (2 * size) + x < |accounts|
    ensures ChunkAt(accounts, size, c)[x] == accounts[c * (2 * size) + x]
  {
    var m := 2 * size;
    assert (c + 1) * m == c * m + m;
  }

  /** Element y of chunk d is account number d * 2 * size + y, and no two numbers name the same account. */
  lemma InChunk<K>(accounts: seq<K>, size: nat, c: nat, x: nat, d: nat, y: nat)
    requires Distinct(accounts) && x < 2 * size && y < 2 * size
    requires (c + 1) * (2 * size) <= |accounts| && (d + 1) * (2 * size) <= |accounts|
    ensures ChunkAt(accounts, size, d)[y] == ChunkAt(accounts, size, c)[x] <==> c == d && x == y
  {
    hide ChunkAt;
    var m := 2 * size;
    ElementOfChunk(accounts, size, d, y);
    ElementOfChunk(accounts, size, c, x);
    if c * m + x == d * m + y { SameCell(c, x, d, y, m); }
  }

  lemma {:induction false} CountOnce<K>(s: seq<K>, i: nat)
    requires i < |s| && Distinct(s)
    ensures multiset(s)[s[i]] == 1
  {
    var a, b := s[..i], s[i + 1..];
    assert s == a + [s[i]] + b;
    assert s[i] !in a && s[i] !in b;
    assert multiset(a)[s[i]] == 0 && multiset(b)[s[i]] == 0;
  }

  lemma SourceSurplus<K>(accounts: seq<K>, size: nat, g: nat, r: Chunks<K>, c: nat, x: nat, d: nat)
    requires 1 <= g <= size && Distinct(accounts) && BuiltFrom(accounts, size, g, r)
    requires c < |r.source| && d < |r.source| && x < size
    ensures Surplus(r.source[d], r.dest[d], r.source[c][x]) == if d == c then -1 else 0
  {
    var k := r.source[c][x];
    forall y | 0 <= y < size
      ensures r.source[d][y] == k <==> d == c && y == x
      ensures r.dest[d][y] != k
    {
      assert ChunkBuilt(accounts, size, g, c, r.source[c], r.dest[c]);
      assert ChunkBuilt(accounts, size, g, d, r.source[d], r.dest[d]);
      InChunk(accounts, size, c, x, d, y);
      InChunk(accounts, size, c, x, d, size + y % g);
    }
    assert k !in r.dest[d];
    if d == c {
      assert ChunkBuilt(accounts, size, g, c, r.source[c], r.dest[c]);
      forall i, j | 0 <= i < j < size ensures r.source[c][i] != r.source[c][j] {
        InChunk(accounts, size, c, i, c, j);
      }
      CountOnce(r.source[c], x);
    } else {
      assert k !in r.source[d];
    }
  }

  lemma DestSurplus<K>(accounts: seq<K>, size: nat, g: nat, r: Chunks<K>, c: nat, x: nat, d: nat)
    requires 1 <= g <= size && Distinct(accounts) && BuiltFrom(accounts, size, g, r)
    requires c < |r.source| && d < |r.source| && x < size
    ensures Surplus(r.source[d], r.dest[d], r.dest[c][x]) == if d == c then multiset(r.dest[c])[r.dest[c][x]] else 0
  {
    var k := r.dest[c][x];
    forall y | 0 <= y < size
      ensures r.source[d][y] != k
      ensures d != c ==> r.dest[d][y] != k
    {
      assert ChunkBuilt(accounts, size, g, c, r.source[c], r.dest[c]);
      assert ChunkBuilt(accounts, size, g, d, r.source[d], r.dest[d]);
      InChunk(accounts, size, c, size + x % g, d, y);
      InChunk(accounts, size, c, size + x % g, d, size + y % g);
    }
    assert k !in r.source[d];
    if d != c { assert k !in r.dest[d]; }
  }

  /** At every point of a run a source account is one lamport down or even, according to its chunk. */
  lemma SourceAccount<K>(accounts: seq<K>, size: nat, groups: nat, g: Gen<K>, t: nat, c: nat, x: nat)
    requires 1 <= groups <= size && Distinct(accounts) && BuiltFrom(accounts, size, groups, g.chunks)
    requires GenOk(g) && g.ix == 0 && !g.reclaim && c < |g.chunks.source| && x < size
    ensures Net(g, t, g.chunks.source[c][x]) == if IsOut(c, After(g, t).ix, After(g, t).reclaim) then -1 else 0
  {
    var k := g.chunks.source[c][x];
    forall d | 0 <= d < |g.chunks.source|
      ensures Surplus(g.chunks.source[d], g.chunks.dest[d], k) == if d == c then -1 else 0
    {
      SourceSurplus(accounts, size, groups, g.chunks, c, x, d);
    }
    NetIsExpected(g, t, k);
    ExpectedSingle(g.chunks, |g.chunks.source|, After(g, t).ix, After(g, t).reclaim, k, c);
  }

  /** A destination account is up by its number of occurrences in its chunk, or even, despite all rotations. */
  lemma DestAccount<K>(accounts: seq<K>, size: nat, groups: nat, g: Gen<K>, t: nat, c: nat, x: nat)
    requires 1 <= groups <= size && Distinct(accounts) && BuiltFrom(accounts, size, groups, g.chunks)
    requires GenOk(g) && g.ix == 0 && !g.reclaim && c < |g.chunks.source| && x < size
    ensures var k := g.chunks.dest[c][x];
            Net(g, t, k) == if IsOut(c, After(g, t).ix, After(g, t).reclaim) then multiset(g.chunks.dest[c])[k] else 0
  {
    var k := g.chunks.dest[c][x];
    forall d | 0 <= d < |g.chunks.source|
      ensures Surplus(g.chunks.source[d], g.chunks.dest[d], k) == if d == c then multiset(g.chunks.dest[c])[k] else 0
    {
      DestSurplus(accounts, size, groups, g.chunks, c, x, d);
    }
    NetIsExpected(g, t, k);
    ExpectedSingle(g.chunks, |g.chunks.source|, After(g, t).ix, After(g, t).reclaim, k, c);
  }

  // ---------- a run with balances ----------

  ghost predicate Known<K>(chunks: Chunks<K>, balances: map<K, int>) {
    && (forall c, k :: 0 <= c < |chunks.source| && k in chunks.source[c] ==> k in balances)
    && (forall c, k :: 0 <= c < |chunks.dest| && k in chunks.dest[c] ==> k in balances)
  }

  /** Carries out the transfers of one round. */
  method Send<K>(balances: map<K, int>, txs: seq<(K, K)>) returns (after: map<K, int>)
    requires forall i :: 0 <= i < |txs| ==> txs[i].0 in balances && txs[i].1 in balances
    ensures after.Keys == balances.Keys
    ensures forall k :: k in balances ==> after[k] == balances[k] + Gain(txs, k)
  {
    after := balances;
    for i := 0 to |txs|
      invariant after.Keys == balances.Keys
      invariant forall k :: k in balances ==> after[k] == balances[k] + Gain(txs[..i], k)
    {
      var (from, to) := txs[i];
      assert txs[..i + 1][..i] == txs[..i];
      after := after[from := after[from] - 1];
      after := after[to := after[to] + 1];
    }
    assert txs[..|txs|] == txs;
  }

  lemma GeneratedKnown<K>(g: Gen<K>, balances: map<K, int>)
    requires GenOk(g) && Known(g.chunks, balances)
    ensures var txs := Generated(g); forall i :: 0 <= i < |txs| ==> txs[i].0 in balances && txs[i].1 in balances
  {
    var source, dest := g.chunks.source[g.ix], g.chunks.dest[g.ix];
    assert forall i :: 0 <= i < |source| ==> source[i] in source && dest[i] in dest;
  }

  lemma AdvancedKnown<K>(g: Gen<K>, balances: map<K, int>)
    requires GenOk(g) && Known(g.chunks, balances)
    ensures Known(Advanced(g).chunks, balances)
  {
  }

  /**
   * Rounds of generating, sending and advancing. Every account ends up by its net gain,
   * and after an even number of passes exactly where it started.
   */
  method GenerateChunkedTransfers<K>(gen: TransactionChunkGenerator<K>, rounds: nat, balances: map<K, int>)
    returns (after: map<K, int>)
    requires GenOk(gen.View()) && gen.View().ix == 0 && !gen.View().reclaim && Known(gen.chunks, balances)
    modifies gen
    ensures GenOk(old(gen.View())) && gen.View() == After(old(gen.View()), rounds)
    ensures after.Keys == balances.Keys
    ensures forall k :: k in balances ==> after[k] == balances[k] + Net(old(gen.View()), rounds, k)
    ensures var n := |old(gen.chunks).source|;
            ChunkOf(rounds, n) == 0 && PassOf(rounds, n) % 2 == 0 ==> after == balances
  {
    hide Known, Generated, Gain, Advanced, ChunkOf, PassOf;
    ghost var g := gen.View();
    AfterStart(g);
    after := balances;
    for t := 0 to rounds
      invariant GenOk(gen.View()) && gen.View() == After(g, t) && Known(gen.chunks, balances)
      invariant after.Keys == balances.Keys
      invariant forall k :: k in balances ==> after[k] == balances[k] + Net(g, t, k)
    {
      forall k | k in balances ensures Net(g, t + 1, k) == Net(g, t, k) + Gain(Generated(After(g, t)), k) {
        RunUnroll(g, t + 1, k);
      }
      AfterUnroll(g, t + 1);
      GeneratedKnown(gen.View(), balances);
      AdvancedKnown(gen.View(), balances);
      var txs := gen.Generate();
      after := Send(after, txs);
      gen.Advance();
    }
    forall k | k in balances
      ensures ChunkOf(rounds, |g.chunks.source|) == 0 && PassOf(rounds, |g.chunks.source|) % 2 == 0 ==>
        after[k] == balances[k]
    {
      EvenPassesBalance(g, rounds, k);
    }
  }
}
