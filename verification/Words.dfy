/** 64-bit words as numbers, with the bit operations a filter needs. */
module Words {
  import opened Powers

  const WORD: nat := 64

  function Bit(w: nat, i: nat): bool
    decreases i
  {
    if i == 0 then w % 2 == 1 else Bit(w / 2, i - 1)
  }

  function Or(a: nat, b: nat): nat
    decreases a + b
  {
    if a == 0 && b == 0 then 0
    else (if a % 2 == 1 || b % 2 == 1 then 1 else 0) + 2 * Or(a / 2, b / 2)
  }

  function And(a: nat, b: nat): nat
    decreases a + b
  {
    if a == 0 && b == 0 then 0
    else (if a % 2 == 1 && b % 2 == 1 then 1 else 0) + 2 * And(a / 2, b / 2)
  }

  function PopCount(w: nat): nat {
    if w == 0 then 0 else w % 2 + PopCount(w / 2)
  }

  lemma {:induction false} ZeroHasNoBits(i: nat)
    ensures !Bit(0, i)
  {
    if i > 0 { ZeroHasNoBits(i - 1); }
  }

  /** Bit i of a word is the parity of its quotient by 2^i. */
  lemma {:induction false} BitIsDigit(w: nat, i: nat, q: nat, r: nat)
    requires w == q * Pow2(i) + r && r < Pow2(i)
    ensures Bit(w, i) <==> q % 2 == 1
    decreases i
  {
    if i > 0 {
      var p := Pow2(i - 1);
      assert Pow2(i) == 2 * p;
      hide Pow2;
      assert w == 2 * (q * p) + r by { assert q * (2 * p) == 2 * (q * p); }
      BitIsDigit(w / 2, i - 1, q, r / 2);
    }
  }

  lemma {:induction false} OrBit(a: nat, b: nat, i: nat)
    ensures Bit(Or(a, b), i) <==> Bit(a, i) || Bit(b, i)
    decreases i
  {
    if a == 0 && b == 0 {
      ZeroHasNoBits(i);
    } else {
      assert Or(a, b) / 2 == Or(a / 2, b / 2);
      if i > 0 { OrBit(a / 2, b / 2, i - 1); }
    }
  }

  lemma {:induction false} OrBound(a: nat, b: nat, n: nat)
    requires a < Pow2(n) && b < Pow2(n)
    ensures Or(a, b) < Pow2(n)
    decreases n
  {
    if n > 0 && !(a == 0 && b == 0) { OrBound(a / 2, b / 2, n - 1); }
  }

  lemma {:induction false} MaskBit(i: nat, j: nat)
    ensures Bit(Pow2(i), j) <==> i == j
    decreases j
  {
    if i == 0 {
      if j > 0 { ZeroHasNoBits(j - 1); }
    } else {
      assert Pow2(i) / 2 == Pow2(i - 1);
      if j > 0 { MaskBit(i - 1, j - 1); }
    }
  }

  lemma {:induction false} AndZero(a: nat)
    ensures And(a, 0) == 0
    decreases a
  {
    if a > 0 { AndZero(a / 2); }
  }

  /** Masking with a single bit is zero exactly when that bit is clear. */
  lemma {:induction false} AndMask(a: nat, i: nat)
    ensures And(a, Pow2(i)) == if Bit(a, i) then Pow2(i) else 0
    decreases i
  {
    if i == 0 {
      AndZero(a / 2);
    } else {
      assert Pow2(i) / 2 == Pow2(i - 1) && Pow2(i) % 2 == 0;
      AndMask(a / 2, i - 1);
    }
  }

  // ---------- counting ----------

  function CountTrue(bits: seq<bool>): nat {
    if bits == [] then 0 else CountTrue(bits[..|bits| - 1]) + if bits[|bits| - 1] then 1 else 0
  }

  lemma {:induction false} CountAppend(a: seq<bool>, b: seq<bool>)
    ensures CountTrue(a + b) == CountTrue(a) + CountTrue(b)
    decreases |b|
  {
    if b == [] {
      assert a + b == a;
    } else {
      var n := |b| - 1;
      assert (a + b)[..|a + b| - 1] == a + b[..n];
      CountAppend(a, b[..n]);
    }
  }

  /** Setting a clear bit adds one. */
  lemma CountSet(bits: seq<bool>, i: nat)
    requires i < |bits| && !bits[i]
    ensures CountTrue(bits[i := true]) == CountTrue(bits) + 1
  {
    var a, b := bits[..i], bits[i + 1..];
    assert bits == a + [false] + b && bits[i := true] == a + [true] + b;
    CountAppend(a + [false], b);
    CountAppend(a, [false]);
    CountAppend(a + [true], b);
    CountAppend(a, [true]);
    assert CountTrue([true]) == 1 && CountTrue([false]) == 0;
  }

  lemma {:induction false} CountBound(bits: seq<bool>)
    ensures CountTrue(bits) <= |bits|
    decreases |bits|
  {
    if bits != [] { CountBound(bits[..|bits| - 1]); }
  }

  lemma {:induction false} CountNone(bits: seq<bool>)
    ensures CountTrue(bits) == 0 <==> forall i :: 0 <= i < |bits| ==> !bits[i]
    decreases |bits|
  {
    if bits != [] {
      var n := |bits| - 1;
      CountNone(bits[..n]);
      assert forall i :: 0 <= i < n ==> bits[..n][i] == bits[i];
    }
  }

  /** The low n bits of a word, lowest first. */
  function WordBits(w: nat, n: nat): (r: seq<bool>)
    ensures |r| == n && forall i :: 0 <= i < n ==> r[i] == Bit(w, i)
  {
    if n == 0 then [] else [w % 2 == 1] + WordBits(w / 2, n - 1)
  }

  lemma {:induction false} PopCountIsCount(w: nat, n: nat)
    requires w < Pow2(n)
    ensures PopCount(w) == CountTrue(WordBits(w, n))
    decreases n
  {
    if n > 0 {
      PopCountIsCount(w / 2, n - 1);
      var head := [w % 2 == 1];
      CountAppend(head, WordBits(w / 2, n - 1));
      assert CountTrue([true]) == 1 && CountTrue([false]) == 0;
      assert head == [true] || head == [false];
    }
  }

  /** The number whose lowest bits are these. */
  function FromBits(bits: seq<bool>): nat {
    if bits == [] then 0 else (if bits[0] then 1 else 0) + 2 * FromBits(bits[1..])
  }

  lemma {:induction false} FromBitsBit(bits: seq<bool>, i: nat)
    ensures Bit(FromBits(bits), i) <==> i < |bits| && bits[i]
    decreases i
  {
    if bits == [] {
      ZeroHasNoBits(i);
    } else {
      assert FromBits(bits) / 2 == FromBits(bits[1..]);
      if i > 0 { FromBitsBit(bits[1..], i - 1); }
    }
  }

  lemma {:induction false} FromBitsBound(bits: seq<bool>, n: nat)
    requires |bits| <= n
    ensures FromBits(bits) < Pow2(n)
    decreases |bits|
  {
    if bits != [] { FromBitsBound(bits[1..], n - 1); }
  }
}
