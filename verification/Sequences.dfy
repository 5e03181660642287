/** Shared vocabulary for sequences. */
module Sequences {

  ghost predicate Distinct<K>(s: seq<K>) {
    forall i, j :: 0 <= i < j < |s| ==> s[i] != s[j]
  }

  lemma DistinctAppend<K>(a: seq<K>, b: seq<K>)
    requires Distinct(a) && Distinct(b) && forall k :: k in a ==> k !in b
    ensures Distinct(a + b)
  {
    forall i, j | 0 <= i < j < |a + b|
      ensures (a + b)[i] != (a + b)[j]
    {
      if i < |a| <= j { assert a[i] in a && b[j - |a|] in b; }
    }
  }

  lemma TailIn<K>(s: seq<K>, i: nat)
    requires i <= |s|
    ensures forall k :: k in s[i..] ==> k in s
  {
  }

  ghost function ElementsOf<K>(s: seq<K>): set<K>
  {
    set k | k in s
  }

  lemma {:induction false} DistinctCard<K>(s: seq<K>)
    requires Distinct(s)
    ensures |ElementsOf(s)| == |s|
    decreases |s|
  {
    if s == [] {
      assert ElementsOf(s) == {};
    } else {
      var n := |s| - 1;
      DistinctCard(s[..n]);
      assert s == s[..n] + [s[n]];
      assert ElementsOf(s) == ElementsOf(s[..n]) + {s[n]};
      assert s[n] !in s[..n];
    }
  }

  /** A sequence longer than the set its elements come from repeats one of them. */
  lemma Pigeonhole<K>(s: seq<K>, a: set<K>) returns (i: nat, j: nat)
    requires (forall k :: k in s ==> k in a) && |s| > |a|
    ensures i < j < |s| && s[i] == s[j]
  {
    if Distinct(s) {
      DistinctCard(s);
      SubsetCard(ElementsOf(s), a);
      assert false;
    } else {
      i, j :| 0 <= i < j < |s| && s[i] == s[j];
    }
  }

  lemma {:induction false} SubsetCard<K>(a: set<K>, b: set<K>)
    requires a <= b
    ensures |a| <= |b|
    decreases a
  {
    if a != {} {
      var x :| x in a;
      SubsetCard(a - {x}, b - {x});
    }
  }
}
