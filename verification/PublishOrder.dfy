/**
 * The order in which workspace packages are published: first a check for packages that
 * depend on each other directly, then repeated removal of the packages that depend on
 * none of those left.
 */
module PublishOrder {
  import opened Sequences

  /** For each package of the workspace the packages it depends on, some of them outside. */
  type Dependencies = map<string, seq<string>>

  /** a depends on b, both among `names`. */
  ghost predicate DependsOn(deps: Dependencies, names: set<string>, a: string, b: string) {
    a in names && b in names && a in deps && b in deps[a]
  }

  /** Each element depends on the next. */
  ghost predicate Walk(deps: Dependencies, names: set<string>, w: seq<string>) {
    && (forall i :: 0 <= i < |w| ==> w[i] in names)
    && forall i :: 0 <= i < |w| - 1 ==> DependsOn(deps, names, w[i], w[i + 1])
  }

  ghost predicate Cycle(deps: Dependencies, names: set<string>, w: seq<string>) {
    |w| >= 2 && w[0] == w[|w| - 1] && Walk(deps, names, w)
  }

  ghost predicate HasCycle(deps: Dependencies, names: set<string>) {
    exists w :: Cycle(deps, names, w)
  }

  /** p waits for a package that is still there. */
  ghost predicate Blocked(deps: Dependencies, names: set<string>, p: string) {
    p in deps && exists d :: d in deps[p] && d in names
  }

  // ---------- the direct check ----------

  ghost predicate DirectCycle(deps: Dependencies) {
    exists p, d :: p in deps && d in deps[p] && d in deps && p in deps[d]
  }

  lemma DirectCycleIsCycle(deps: Dependencies)
    requires DirectCycle(deps)
    ensures HasCycle(deps, deps.Keys)
  {
    var p, d :| p in deps && d in deps[p] && d in deps && p in deps[d];
    assert DependsOn(deps, deps.Keys, p, d) && DependsOn(deps, deps.Keys, d, p);
    assert Cycle(deps, deps.Keys, [p, d, p]);
  }

  /** Looks for two packages that depend on each other, or one that depends on itself. */
  method FindDirectCycle(order: seq<string>, deps: Dependencies) returns (found: bool)
    requires forall p :: p in order <==> p in deps
    ensures found <==> DirectCycle(deps)
  {
    found := false;
    for i := 0 to |order|
      invariant found ==> DirectCycle(deps)
      invariant !found ==> forall j, d :: 0 <= j < i && d in deps[order[j]] && d in deps ==> order[j] !in deps[d]
    {
      assert order[i] in order;
      var ds := deps[order[i]];
      for k := 0 to |ds|
        invariant found ==> DirectCycle(deps)
        invariant !found ==> forall j, d :: 0 <= j < i && d in deps[order[j]] && d in deps ==> order[j] !in deps[d]
        invariant !found ==> forall l :: 0 <= l < k && ds[l] in deps ==> order[i] !in deps[ds[l]]
      {
        if ds[k] in deps && order[i] in deps[ds[k]] {
          found := true;
        }
      }
    }
    if DirectCycle(deps) {
      var p, d :| p in deps && d in deps[p] && d in deps && p in deps[d];
      assert p in order;
      var j :| 0 <= j < |order| && order[j] == p;
    }
  }

  // ---------- the layered removal ----------

  /** Removing packages that wait for nobody keeps every cycle. */
  lemma CycleSurvives(deps: Dependencies, names: set<string>, names': set<string>, w: seq<string>)
    requires Cycle(deps, names, w)
    requires forall p :: p in names && Blocked(deps, names, p) ==> p in names'
    ensures Cycle(deps, names', w)
  {
    forall i | 0 <= i < |w|
      ensures w[i] in names'
    {
      var next := if i < |w| - 1 then w[i + 1] else w[1];
      assert DependsOn(deps, names, w[i], next) by {
        if i == |w| - 1 { assert DependsOn(deps, names, w[0], w[1]); }
      }
      assert Blocked(deps, names, w[i]);
    }
    forall i | 0 <= i < |w| - 1
      ensures DependsOn(deps, names', w[i], w[i + 1])
    {
      assert DependsOn(deps, names, w[i], w[i + 1]);
    }
  }

  lemma CycleWidens(deps: Dependencies, names: set<string>, names': set<string>)
    requires names <= names' && HasCycle(deps, names)
    ensures HasCycle(deps, names')
  {
    var w :| Cycle(deps, names, w);
    forall i | 0 <= i < |w| - 1
      ensures DependsOn(deps, names', w[i], w[i + 1])
    {
      assert DependsOn(deps, names, w[i], w[i + 1]);
    }
    assert Cycle(deps, names', w);
  }

  /** When everyone waits for someone, walks can be as long as one likes. */
  lemma {:induction false} LongWalk(deps: Dependencies, names: set<string>, n: nat) returns (w: seq<string>)
    requires names != {} && forall p :: p in names ==> Blocked(deps, names, p)
    ensures |w| == n + 1 && Walk(deps, names, w)
  {
    if n == 0 {
      var p :| p in names;
      w := [p];
    } else {
      var v := LongWalk(deps, names, n - 1);
      var last := v[|v| - 1];
      assert Blocked(deps, names, last);
      var d :| d in deps[last] && d in names;
      w := v + [d];
      assert DependsOn(deps, names, last, d);
      forall i | 0 <= i < |w| - 1
        ensures DependsOn(deps, names, w[i], w[i + 1])
      {
        if i < |v| - 1 { assert DependsOn(deps, names, v[i], v[i + 1]); }
      }
    }
  }

  /** A round that can remove nothing has met a cycle. */
  lemma StuckHasCycle(deps: Dependencies, names: set<string>)
    requires names != {} && forall p :: p in names ==> Blocked(deps, names, p)
    ensures HasCycle(deps, names)
  {
    var w := LongWalk(deps, names, |names|);
    var i, j := Pigeonhole(w, names);
    var c := w[i..j + 1];
    forall k | 0 <= k < |c| - 1
      ensures DependsOn(deps, names, c[k], c[k + 1])
    {
      assert DependsOn(deps, names, w[i + k], w[i + k + 1]);
    }
    assert Cycle(deps, names, c);
  }

  /** Every package depends only on earlier ones and on packages outside `names`. */
  ghost predicate InOrder(deps: Dependencies, names: set<string>, sorted: seq<string>) {
    forall j, d :: 0 <= j < |sorted| && sorted[j] in deps && d in deps[sorted[j]] && d in names ==> d in sorted[..j]
  }

  method IsBlocked(deps: Dependencies, left: seq<string>, p: string) returns (r: bool)
    requires p in deps
    ensures r <==> Blocked(deps, ElementsOf(left), p)
  {
    for i := 0 to |deps[p]|
      invariant forall k :: 0 <= k < i ==> deps[p][k] !in left
    {
      if deps[p][i] in left {
        assert deps[p][i] in deps[p] && deps[p][i] in ElementsOf(left);
        return true;
      }
    }
    r := false;
  }

  /** Those packages of s that wait for one of `names`, or those that do not, in the order of s. */
  ghost function Kept(deps: Dependencies, names: set<string>, s: seq<string>, blocked: bool): (r: seq<string>)
    ensures |r| <= |s|
    decreases |s|
  {
    if s == [] then []
    else
      var n := |s| - 1;
      Kept(deps, names, s[..n], blocked) + if Blocked(deps, names, s[n]) == blocked then [s[n]] else []
  }

  lemma KeptPush(deps: Dependencies, names: set<string>, s: seq<string>, n: nat, blocked: bool)
    requires n < |s|
    ensures Kept(deps, names, s[..n + 1], blocked) ==
            Kept(deps, names, s[..n], blocked) + if Blocked(deps, names, s[n]) == blocked then [s[n]] else []
  {
    hide Blocked;
    assert s[..n + 1][..n] == s[..n];
  }

  /** s was dealt out to w and r; only s itself can be in w when nothing is in r. */
  ghost predicate Dealt<K>(s: seq<K>, w: seq<K>, r: seq<K>) {
    |w| + |r| == |s| && multiset(w) + multiset(r) == multiset(s) && (r == [] ==> w == s)
  }

  lemma DealtMore<K>(s: seq<K>, w: seq<K>, r: seq<K>, x: K)
    requires Dealt(s, w, r)
    ensures Dealt(s + [x], w + [x], r) && Dealt(s + [x], w, r + [x])
  {
  }

  lemma DealtNone<K>(s: seq<K>)
    requires s == []
    ensures Dealt(s, [], [])
  {
  }

  lemma {:induction false} KeptSplits(deps: Dependencies, names: set<string>, s: seq<string>)
    ensures Dealt(s, Kept(deps, names, s, true), Kept(deps, names, s, false))
    decreases |s|
  {
    hide Blocked, Kept, Dealt;
    if s == [] {
      KeptNothing(deps, names, s);
      DealtNone(s);
    } else {
      var n := |s| - 1;
      var front := s[..n];
      KeptSplits(deps, names, front);
      KeptLast(deps, names, s, true);
      KeptLast(deps, names, s, false);
      DealtMore(front, Kept(deps, names, front, true), Kept(deps, names, front, false), s[n]);
      FrontAndLast(s);
    }
  }

  lemma FrontAndLast<K>(s: seq<K>)
    requires s != []
    ensures s == s[..|s| - 1] + [s[|s| - 1]]
  {
  }

  lemma KeptLast(deps: Dependencies, names: set<string>, s: seq<string>, blocked: bool)
    requires s != []
    ensures var n := |s| - 1;
            Kept(deps, names, s, blocked) ==
            if Blocked(deps, names, s[n]) == blocked then Kept(deps, names, s[..n], blocked) + [s[n]]
            else Kept(deps, names, s[..n], blocked)
  {
    hide Blocked;
  }

  lemma {:induction false} KeptElements(deps: Dependencies, names: set<string>, s: seq<string>, blocked: bool)
    ensures forall p :: p in Kept(deps, names, s, blocked) <==> p in s && Blocked(deps, names, p) == blocked
    ensures Distinct(s) ==> Distinct(Kept(deps, names, s, blocked))
    decreases |s|
  {
    hide Blocked;
    if s != [] {
      var n := |s| - 1;
      KeptElements(deps, names, s[..n], blocked);
      assert s == s[..n] + [s[n]];
    }
  }

  /** The packages layer by layer: first those that wait for nobody, then those that waited only for these, .. */
  ghost function Layered(deps: Dependencies, left: seq<string>): seq<string>
    decreases |left|
  {
    var ready := Kept(deps, ElementsOf(left), left, false);
    if ready == [] then []
    else
      KeptSplits(deps, ElementsOf(left), left);
      ready + Layered(deps, Kept(deps, ElementsOf(left), left, true))
  }

  /** One pass: the packages that wait for nobody, and the others, both in the given order. */
  method Layer(deps: Dependencies, left: seq<string>) returns (ready: seq<string>, rest: seq<string>)
    requires forall p :: p in left ==> p in deps
    requires Distinct(left)
    ensures multiset(ready) + multiset(rest) == multiset(left) && Distinct(rest)
    ensures forall p :: p in ready <==> p in left && !Blocked(deps, ElementsOf(left), p)
    ensures forall p :: p in rest <==> p in left && Blocked(deps, ElementsOf(left), p)
    ensures ready == Kept(deps, ElementsOf(left), left, false) && rest == Kept(deps, ElementsOf(left), left, true)
  {
    hide Blocked, Distinct, Kept;
    ready, rest := [], [];
    ghost var names := ElementsOf(left);
    KeptNothing(deps, names, left[..0]);
    for i := 0 to |left|
      invariant ready == Kept(deps, names, left[..i], false) && rest == Kept(deps, names, left[..i], true)
    {
      KeptPush(deps, names, left, i, false);
      KeptPush(deps, names, left, i, true);
      var b := IsBlocked(deps, left, left[i]);
      if b {
        rest := rest + [left[i]];
      } else {
        ready := ready + [left[i]];
      }
    }
    assert left[..|left|] == left;
    KeptSplits(deps, names, left);
    KeptElements(deps, names, left, false);
    KeptElements(deps, names, left, true);
  }

  lemma KeptNothing(deps: Dependencies, names: set<string>, s: seq<string>)
    requires s == []
    ensures forall blocked :: Kept(deps, names, s, blocked) == []
  {
  }

  datatype Outcome = Published(order: seq<string>) | Circular

  lemma LayerKeepsOrder(deps: Dependencies, sorted: seq<string>, left: seq<string>, ready: seq<string>)
    requires InOrder(deps, deps.Keys, sorted)
    requires forall p :: p in deps ==> p in sorted || p in left
    requires forall p :: p in ready ==> !Blocked(deps, ElementsOf(left), p)
    ensures InOrder(deps, deps.Keys, sorted + ready)
  {
    var all := sorted + ready;
    forall j, d | 0 <= j < |all| && all[j] in deps && d in deps[all[j]] && d in deps.Keys
      ensures d in all[..j]
    {
      if j < |sorted| {
        assert all[..j] == sorted[..j];
      } else {
        assert all[j] in ready;
        assert d !in ElementsOf(left);
        assert all[..j] == sorted + all[|sorted|..j];
      }
    }
  }

  /** What a pass without a cycle removes: at least one package. */
  lemma LayerProgress(deps: Dependencies, left: seq<string>, ready: seq<string>)
    requires left != [] && (forall p :: p in left ==> p in deps)
    requires forall p :: p in left && !Blocked(deps, ElementsOf(left), p) ==> p in ready
    requires !HasCycle(deps, deps.Keys)
    ensures |ready| >= 1
  {
    var names := ElementsOf(left);
    assert left[0] in names;
    if ready == [] {
      StuckHasCycle(deps, names);
      CycleWidens(deps, names, deps.Keys);
    }
  }

  lemma LayerKeepsCycles(deps: Dependencies, left: seq<string>, rest: seq<string>)
    requires forall p :: p in left && Blocked(deps, ElementsOf(left), p) ==> p in rest
    requires HasCycle(deps, ElementsOf(left))
    ensures HasCycle(deps, ElementsOf(rest))
  {
    var w :| Cycle(deps, ElementsOf(left), w);
    CycleSurvives(deps, ElementsOf(left), ElementsOf(rest), w);
  }

  /** What holds between passes, `used` of them done. */
  ghost predicate Progress(deps: Dependencies, order: seq<string>, sorted: seq<string>, left: seq<string>, used: nat) {
    && multiset(sorted) + multiset(left) == multiset(order) && Distinct(left)
    && InOrder(deps, deps.Keys, sorted)
    && (HasCycle(deps, deps.Keys) ==> HasCycle(deps, ElementsOf(left)))
    && (HasCycle(deps, deps.Keys) || |left| + used <= |order|)
  }

  lemma ProgressStarts(deps: Dependencies, order: seq<string>)
    requires Distinct(order) && forall p :: p in order <==> p in deps
    ensures Progress(deps, order, [], order, 0)
  {
    assert ElementsOf(order) == deps.Keys;
  }

  lemma ProgressContinues(deps: Dependencies, order: seq<string>, sorted: seq<string>, left: seq<string>, used: nat,
                          ready: seq<string>, rest: seq<string>)
    requires (forall p :: p in order <==> p in deps) && Progress(deps, order, sorted, left, used) && left != []
    requires multiset(ready) + multiset(rest) == multiset(left) && Distinct(rest)
    requires forall p :: p in ready <==> p in left && !Blocked(deps, ElementsOf(left), p)
    requires forall p :: p in rest <==> p in left && Blocked(deps, ElementsOf(left), p)
    ensures Progress(deps, order, sorted + ready, rest, used + 1)
  {
    hide HasCycle, Blocked, InOrder, Distinct;
    Partition(deps, order, sorted, left);
    assert |ready| + |rest| == |left| by { assert |multiset(ready) + multiset(rest)| == |multiset(left)|; }
    LayerKeepsOrder(deps, sorted, left, ready);
    if HasCycle(deps, deps.Keys) {
      LayerKeepsCycles(deps, left, rest);
    } else {
      LayerProgress(deps, left, ready);
    }
  }

  /** Running out of passes with packages left means there is a cycle. */
  lemma OutOfPasses(deps: Dependencies, order: seq<string>, sorted: seq<string>, left: seq<string>)
    requires Progress(deps, order, sorted, left, Square(|order|)) && left != []
    ensures HasCycle(deps, deps.Keys)
  {
    hide Square, HasCycle, InOrder, Distinct;
    assert |multiset(order)| == |multiset(sorted)| + |multiset(left)|;
    SquareAtLeast(|order|);
  }

  function Square(n: nat): nat {
    n * n
  }

  lemma SquareAtLeast(n: nat)
    ensures Square(n) >= n
  {
  }

  /** Removes layer after layer, at most n * n times. */
  method OrderLayers(order: seq<string>, deps: Dependencies) returns (r: Outcome)
    requires Distinct(order) && forall p :: p in order <==> p in deps
    ensures r.Circular? <==> HasCycle(deps, deps.Keys)
    ensures r.Published? ==> multiset(r.order) == multiset(order) && InOrder(deps, deps.Keys, r.order)
    ensures r.Published? ==> r.order == Layered(deps, order)
  {
    var sorted: seq<string>, left := [], order;
    var maxIterations := Square(|order|);
    ghost var used := 0;
    ProgressStarts(deps, order);
    hide Progress, HasCycle, Blocked, InOrder, Distinct, Square, Layered;
    while left != []
      invariant sorted + Layered(deps, left) == Layered(deps, order)
      invariant Progress(deps, order, sorted, left, used) && used + maxIterations == Square(|order|)
      decreases maxIterations
    {
      if maxIterations == 0 {
        OutOfPasses(deps, order, sorted, left);
        return Circular;
      }
      maxIterations := maxIterations - 1;
      LeftIsKnown(deps, order, sorted, left, used);
      var ready, rest := Layer(deps, left);
      ProgressContinues(deps, order, sorted, left, used, ready, rest);
      LayeredNext(deps, left, sorted);
      sorted, left, used := sorted + ready, rest, used + 1;
    }
    Finished(deps, order, sorted, used);
    LayeredNone(deps);
    r := Published(sorted);
  }

  lemma LayeredNext(deps: Dependencies, left: seq<string>, sorted: seq<string>)
    ensures var ready := Kept(deps, ElementsOf(left), left, false);
            var rest := Kept(deps, ElementsOf(left), left, true);
            sorted + Layered(deps, left) == (sorted + ready) + Layered(deps, rest)
  {
    hide Kept;
    var ready, rest := Kept(deps, ElementsOf(left), left, false), Kept(deps, ElementsOf(left), left, true);
    assert ready != [] ==> Layered(deps, left) == ready + Layered(deps, rest);
    assert ready == [] ==> Layered(deps, left) == [] && rest == left by { KeptSplits(deps, ElementsOf(left), left); }
    hide Layered;
    Associates(sorted, ready, Layered(deps, rest));
  }

  lemma Associates<K>(a: seq<K>, b: seq<K>, c: seq<K>)
    ensures a + (b + c) == (a + b) + c
  {
  }

  lemma LayeredNone(deps: Dependencies)
    ensures Layered(deps, []) == []
  {
  }

  lemma LeftIsKnown(deps: Dependencies, order: seq<string>, sorted: seq<string>, left: seq<string>, used: nat)
    requires (forall p :: p in order <==> p in deps) && Progress(deps, order, sorted, left, used)
    ensures Distinct(left) && forall p :: p in left ==> p in deps
  {
    Partition(deps, order, sorted, left);
  }

  lemma Finished(deps: Dependencies, order: seq<string>, sorted: seq<string>, used: nat)
    requires Progress(deps, order, sorted, [], used)
    ensures multiset(sorted) == multiset(order) && InOrder(deps, deps.Keys, sorted) && !HasCycle(deps, deps.Keys)
  {
    hide InOrder;
    NoCycleInNothing(deps, []);
    assert multiset(sorted) + multiset([]) == multiset(sorted);
  }

  lemma NoCycleInNothing(deps: Dependencies, left: seq<string>)
    requires left == []
    ensures !HasCycle(deps, ElementsOf(left))
  {
  }

  lemma Partition(deps: Dependencies, order: seq<string>, sorted: seq<string>, left: seq<string>)
    requires (forall p :: p in order <==> p in deps) && multiset(sorted) + multiset(left) == multiset(order)
    ensures forall p :: p in deps <==> p in sorted || p in left
  {
    forall p
      ensures p in deps <==> p in sorted || p in left
    {
      assert p in order <==> p in multiset(order);
      assert p in sorted <==> p in multiset(sorted);
      assert p in left <==> p in multiset(left);
    }
  }

  /**
   * The script fails exactly when the packages have a dependency cycle, a package that
   * depends on itself included. Otherwise it prints every package once, after all the
   * packages it depends on.
   */
  method GetPackages(order: seq<string>, deps: Dependencies) returns (r: Outcome)
    requires Distinct(order) && forall p :: p in order <==> p in deps
    ensures r.Circular? <==> HasCycle(deps, deps.Keys)
    ensures r.Published? ==> multiset(r.order) == multiset(order) && InOrder(deps, deps.Keys, r.order)
    ensures r.Published? ==> r.order == Layered(deps, order)
  {
    var direct := FindDirectCycle(order, deps);
    if direct {
      DirectCycleIsCycle(deps);
      r := Circular;
    } else {
      r := OrderLayers(order, deps);
    }
  }
}
