/** Token amounts as decimal strings: exact, with and without trailing zeros. */
module DecimalStrings {
  import opened Powers

  function Pow10(n: nat): (r: nat)
    ensures r >= 1
  {
    if n == 0 then 1 else 10 * Pow10(n - 1)
  }

  // ---------- digits ----------

  function DigitChar(d: nat): (c: char)
    requires d < 10
    ensures IsDigit(c) && DigitValue(c) == d
  {
    '0' + d as char
  }

  predicate IsDigit(c: char) {
    '0' <= c <= '9'
  }

  function DigitValue(c: char): nat
    requires IsDigit(c)
  {
    c as nat - '0' as nat
  }

  predicate AllDigits(s: string) {
    forall i :: 0 <= i < |s| ==> IsDigit(s[i])
  }

  /** The usual notation, without leading zeros. */
  function ToDecimal(n: nat): (r: string)
    ensures |r| >= 1 && AllDigits(r)
  {
    if n < 10 then [DigitChar(n)] else ToDecimal(n / 10) + [DigitChar(n % 10)]
  }

  function ParseNat(s: string): nat
    requires AllDigits(s)
  {
    if s == [] then 0 else 10 * ParseNat(s[..|s| - 1]) + DigitValue(s[|s| - 1])
  }

  lemma {:induction false} ToDecimalParses(n: nat)
    ensures ParseNat(ToDecimal(n)) == n
  {
    if n >= 10 {
      ToDecimalParses(n / 10);
      var s := ToDecimal(n);
      assert s[..|s| - 1] == ToDecimal(n / 10);
    }
  }

  /** No zero in front, except for the digit 0 itself. */
  predicate NoLeadingZero(s: string) {
    |s| > 1 ==> s[0] != '0'
  }

  lemma {:induction false} ToDecimalLeads(n: nat)
    ensures NoLeadingZero(ToDecimal(n)) && (n > 0 ==> ToDecimal(n)[0] != '0')
  {
    if n >= 10 {
      ToDecimalLeads(n / 10);
    }
  }

  function Zeros(n: nat): (r: string)
    ensures |r| == n && AllDigits(r) && forall i :: 0 <= i < n ==> r[i] == '0'
  {
    seq(n, _ => '0')
  }

  /** Zeros on the left up to the given width. */
  function PadLeft(s: string, width: nat): (r: string)
    requires AllDigits(s)
    ensures AllDigits(r) && |r| >= |s| && |r| >= width && (|r| > width ==> r == s)
  {
    if |s| >= width then s else Zeros(width - |s|) + s
  }

  lemma {:induction false} LeadingZeros(n: nat, s: string)
    requires AllDigits(s)
    ensures ParseNat(Zeros(n) + s) == ParseNat(s)
    decreases n + |s|
  {
    var t := Zeros(n) + s;
    if s == [] {
      if n > 0 {
        assert t[..n - 1] == Zeros(n - 1) + [];
        LeadingZeros(n - 1, []);
      }
    } else {
      assert t[..|t| - 1] == Zeros(n) + s[..|s| - 1];
      LeadingZeros(n, s[..|s| - 1]);
    }
  }

  lemma {:induction false} TrailingZeros(s: string, n: nat)
    requires AllDigits(s)
    ensures ParseNat(s + Zeros(n)) == ParseNat(s) * Pow10(n)
    decreases n
  {
    var t := s + Zeros(n);
    if n == 0 {
      assert t == s;
    } else {
      assert t[..|t| - 1] == s + Zeros(n - 1);
      TrailingZeros(s, n - 1);
      var v, p := ParseNat(s), Pow10(n - 1);
      MulAssoc(10, v, p);
      Commute(10, v);
      MulAssoc(v, 10, p);
    }
  }

  // ---------- printing ----------

  function InsertPoint(s: string, at: nat): string
    requires at <= |s|
  {
    s[..at] + "." + s[at..]
  }

  function RealNumberString(amount: nat, decimals: nat): string {
    if decimals > 0 then
      // at least one digit before the point
      var s := PadLeft(ToDecimal(amount), decimals + 1);
      InsertPoint(s, |s| - decimals)
    else
      ToDecimal(amount)
  }

  function TrimEnd(s: string, c: char): (r: string)
    ensures |r| <= |s| && r == s[..|r|]
    ensures r != [] ==> r[|r| - 1] != c
    ensures forall i :: |r| <= i < |s| ==> s[i] == c
  {
    if s != [] && s[|s| - 1] == c then TrimEnd(s[..|s| - 1], c) else s
  }

  function RealNumberStringTrimmed(amount: nat, decimals: nat): string {
    var s := RealNumberString(amount, decimals);
    if decimals > 0 then TrimEnd(TrimEnd(s, '0'), '.') else s
  }

  // ---------- reading ----------

  /** The number digits / 10^places. */
  datatype Decimal = Decimal(digits: nat, places: nat)

  /** s is written as `whole`, or as `whole` and `fraction` with a point between them. */
  ghost predicate Written(s: string, whole: string, fraction: string) {
    && AllDigits(whole) && AllDigits(fraction) && whole != []
    && s == if fraction == [] then whole else whole + "." + fraction
  }

  ghost function ValueOf(whole: string, fraction: string): Decimal
    requires AllDigits(whole) && AllDigits(fraction)
  {
    assert AllDigits(whole + fraction);
    Decimal(ParseNat(whole + fraction), |fraction|)
  }

  /** A string can be read in one way only. */
  lemma ReadUnique(s: string, w: string, f: string, w': string, f': string)
    requires Written(s, w, f) && Written(s, w', f')
    ensures w == w' && f == f'
  {
    if |w| < |w'| {
      PointAfterWhole(s, w, f, w', f');
    } else if |w'| < |w| {
      PointAfterWhole(s, w', f', w, f);
    } else {
      assert s[..|w|] == w && s[..|w'|] == w';
      if f != [] { assert s[|w| + 1..] == f; }
      if f' != [] { assert s[|w'| + 1..] == f'; }
    }
  }

  lemma PointAfterWhole(s: string, w: string, f: string, w': string, f': string)
    requires Written(s, w, f) && Written(s, w', f')
    ensures |w| >= |w'|
  {
    NoDigitAfterWhole(s, w, f);
    if |w| < |w'| { DigitInWhole(s, w', f', |w|); }
  }

  lemma NoDigitAfterWhole(s: string, w: string, f: string)
    requires Written(s, w, f)
    ensures |s| >= |w| && (|s| > |w| ==> s[|w|] == '.')
  {
  }

  lemma DigitInWhole(s: string, w: string, f: string, i: nat)
    requires Written(s, w, f) && i < |w|
    ensures i < |s| && IsDigit(s[i])
  {
    assert s[i] == w[i];
  }

  // ---------- what is printed is what was meant ----------

  lemma PadKeepsValue(amount: nat, width: nat)
    ensures ParseNat(PadLeft(ToDecimal(amount), width)) == amount
  {
    ToDecimalParses(amount);
    var t := ToDecimal(amount);
    hide ToDecimal, ParseNat;
    if |t| < width { LeadingZeros(width - |t|, t); }
  }

  /** Read back, the string is the amount over ten to the number of decimals, digit for digit. */
  lemma PrintsExactly(amount: nat, decimals: nat) returns (whole: string, fraction: string)
    ensures Written(RealNumberString(amount, decimals), whole, fraction)
    ensures ValueOf(whole, fraction) == Decimal(amount, decimals)
    ensures |whole| > 1 ==> whole[0] != '0'
  {
    hide ToDecimal, ParseNat, PadLeft;
    ToDecimalLeads(amount);
    if decimals == 0 {
      ToDecimalParses(amount);
      whole, fraction := ToDecimal(amount), [];
      assert whole + fraction == whole;
    } else {
      PadKeepsValue(amount, decimals + 1);
      var s := PadLeft(ToDecimal(amount), decimals + 1);
      whole, fraction := s[..|s| - decimals], s[|s| - decimals..];
      assert whole + fraction == s;
    }
  }

  lemma {:induction false} TrimKeepsFront(front: string, back: string)
    requires front != [] && front[|front| - 1] != '0'
    ensures TrimEnd(front + back, '0') == front + TrimEnd(back, '0')
    decreases |back|
  {
    var s := front + back;
    if back == [] {
      assert s == front;
    } else {
      assert s[|s| - 1] == back[|back| - 1];
      if back[|back| - 1] == '0' {
        assert s[..|s| - 1] == front + back[..|back| - 1];
        TrimKeepsFront(front, back[..|back| - 1]);
      }
    }
  }

  /** Trimming keeps the value and leaves neither a trailing zero after the point nor a dangling point. */
  lemma TrimmedIsExact(amount: nat, decimals: nat) returns (whole: string, fraction: string)
    ensures Written(RealNumberStringTrimmed(amount, decimals), whole, fraction)
    ensures |fraction| <= decimals
    ensures ValueOf(whole, fraction).digits * Pow10(decimals - |fraction|) == amount
    ensures fraction != [] ==> fraction[|fraction| - 1] != '0'
    ensures |whole| > 1 ==> whole[0] != '0'
  {
    hide RealNumberString, ParseNat, TrimEnd;
    var f: string;
    whole, f := PrintsExactly(amount, decimals);
    if decimals == 0 {
      fraction := f;
    } else {
      fraction := TrimEnd(f, '0');
      TrimAfterPoint(whole, f);
      DroppedZeros(whole, f);
    }
  }

  /** Trimming zeros and then points from a number with a fraction. */
  lemma TrimAfterPoint(whole: string, f: string)
    requires AllDigits(whole) && AllDigits(f) && whole != []
    ensures AllDigits(TrimEnd(f, '0'))
    ensures Written(TrimEnd(TrimEnd(whole + "." + f, '0'), '.'), whole, TrimEnd(f, '0'))
  {
    var fraction := TrimEnd(f, '0');
    var t := (whole + ".") + fraction;
    TrimKeepsFront(whole + ".", f);
    assert (whole + ".") + f == whole + "." + f;
    if fraction == [] {
      assert t == whole + ".";
      assert t[..|t| - 1] == whole;
      assert TrimEnd(whole, '.') == whole;
    } else {
      assert t[|t| - 1] == fraction[|fraction| - 1];
    }
  }

  lemma DroppedZeros(whole: string, f: string)
    requires AllDigits(whole) && AllDigits(f)
    ensures AllDigits(TrimEnd(f, '0'))
    ensures ValueOf(whole, f).digits == ValueOf(whole, TrimEnd(f, '0')).digits * Pow10(|f| - |TrimEnd(f, '0')|)
  {
    hide ParseNat;
    var fraction := TrimEnd(f, '0');
    var n := |f| - |fraction|;
    assert f == fraction + Zeros(n);
    assert whole + f == (whole + fraction) + Zeros(n);
    TrailingZeros(whole + fraction, n);
  }

  /** Different amounts print differently. */
  lemma PrintingInjective(a: nat, b: nat, decimals: nat)
    requires RealNumberString(a, decimals) == RealNumberString(b, decimals)
    ensures a == b
  {
    hide RealNumberString, ParseNat, Written;
    var w, f := PrintsExactly(a, decimals);
    var w', f' := PrintsExactly(b, decimals);
    ReadUnique(RealNumberString(a, decimals), w, f, w', f');
  }

  lemma TrimmedInjective(a: nat, b: nat, decimals: nat)
    requires RealNumberStringTrimmed(a, decimals) == RealNumberStringTrimmed(b, decimals)
    ensures a == b
  {
    hide RealNumberStringTrimmed, ValueOf, Pow10, Written;
    var w, f := TrimmedIsExact(a, decimals);
    var w', f' := TrimmedIsExact(b, decimals);
    ReadUnique(RealNumberStringTrimmed(a, decimals), w, f, w', f');
  }

  /** No decimal with the same value has fewer digits after the point than the trimmed form. */
  lemma TrimmedIsShortest(amount: nat, decimals: nat, whole: string, fraction: string, digits: nat, places: nat)
    requires Written(RealNumberStringTrimmed(amount, decimals), whole, fraction)
    requires places <= decimals && digits * Pow10(decimals - places) == amount
    ensures |fraction| <= places
  {
    hide RealNumberStringTrimmed, ParseNat, Pow10;
    var w, f := TrimmedIsExact(amount, decimals);
    assert w == whole && f == fraction by {
      ReadUnique(RealNumberStringTrimmed(amount, decimals), whole, fraction, w, f);
    }
    if |f| > places {
      assert (w + f)[|w + f| - 1] == f[|f| - 1];
      LastDigit(w + f);
      EndsInZero(digits, places, ValueOf(w, f).digits, |f|, decimals);
    }
  }

  /** A number written with more places than needed ends in zero. */
  lemma EndsInZero(x: nat, p: nat, y: nat, q: nat, d: nat)
    requires p < q <= d && x * Pow10(d - p) == y * Pow10(d - q)
    ensures y % 10 == 0
  {
    var n := q - p;
    Pow10Add(n, d - q);
    assert d - p == n + (d - q);
    MulAssoc(x, Pow10(n), Pow10(d - q));
    CancelRight(x * Pow10(n), y, Pow10(d - q));
    MulAssoc(x, 10, Pow10(n - 1));
    assert y == 10 * (x * Pow10(n - 1)) by { Commute(x, 10); MulAssoc(10, x, Pow10(n - 1)); }
  }

  lemma Commute(a: nat, b: nat)
    ensures a * b == b * a
  {
  }

  lemma {:induction false} Pow10Add(a: nat, b: nat)
    ensures Pow10(a + b) == Pow10(a) * Pow10(b)
  {
    if a > 0 {
      Pow10Add(a - 1, b);
      assert Pow10(a + b) == 10 * Pow10(a - 1 + b);
    }
  }

  lemma CancelRight(a: nat, b: nat, m: nat)
    requires m >= 1 && a * m == b * m
    ensures a == b
  {
    if a != b { MulInjective(a, b, m); }
  }

  lemma LastDigit(s: string)
    requires AllDigits(s) && s != []
    ensures ParseNat(s) % 10 == DigitValue(s[|s| - 1])
  {
    var x, d := ParseNat(s[..|s| - 1]), DigitValue(s[|s| - 1]);
    assert ParseNat(s) == 10 * x + d;
    hide ParseNat;
    DivModUnique(10 * x + d, x, d, 10);
  }

  // ---------- and it is the only such string ----------

  lemma {:induction false} ParseBounds(s: string)
    requires AllDigits(s)
    ensures ParseNat(s) < Pow10(|s|)
    ensures s != [] && s[0] != '0' ==> Pow10(|s| - 1) <= ParseNat(s)
    decreases |s|
  {
    if s != [] {
      ParseBounds(s[..|s| - 1]);
    }
  }

  lemma {:induction false} SameDigits(s: string, t: string)
    requires AllDigits(s) && AllDigits(t) && |s| == |t| && ParseNat(s) == ParseNat(t)
    ensures s == t
    decreases |s|
  {
    if s != [] {
      var n := |s| - 1;
      LastDigit(s);
      LastDigit(t);
      assert s == s[..n] + [s[n]] && t == t[..n] + [t[n]];
      SameDigits(s[..n], t[..n]);
    }
  }

  lemma {:induction false} Pow10Mono(a: nat, b: nat)
    requires a <= b
    ensures Pow10(a) <= Pow10(b)
    decreases b
  {
    if a < b {
      Pow10Mono(a, b - 1);
    }
  }

  lemma NotLonger(w: string, f: string, w': string, f': string)
    requires AllDigits(w) && AllDigits(f) && AllDigits(w') && AllDigits(f') && w' != []
    requires NoLeadingZero(w) && ValueOf(w, f) == ValueOf(w', f')
    ensures |w| <= |w'|
  {
    hide ParseNat, Pow10;
    if |w| > |w'| {
      ParseBounds(w + f);
      ParseBounds(w' + f');
      Pow10Mono(|w' + f'|, |w + f| - 1);
    }
  }

  /** A value and a number of places have one notation without needless zeros in front. */
  lemma NotationUnique(w: string, f: string, w': string, f': string)
    requires AllDigits(w) && AllDigits(f) && AllDigits(w') && AllDigits(f') && w != [] && w' != []
    requires NoLeadingZero(w) && NoLeadingZero(w') && ValueOf(w, f) == ValueOf(w', f')
    ensures w == w' && f == f'
  {
    hide ParseNat;
    NotLonger(w, f, w', f');
    NotLonger(w', f', w, f);
    SameDigits(w + f, w' + f');
    assert (w + f)[..|w|] == w && (w' + f')[..|w|] == w';
    assert (w + f)[|w|..] == f && (w' + f')[|w|..] == f';
  }

  /** The printed string is the only one with this value, this many decimals and no needless zero in front. */
  lemma PrintedUnique(amount: nat, decimals: nat, s: string, whole: string, fraction: string)
    requires Written(s, whole, fraction) && NoLeadingZero(whole)
    requires ValueOf(whole, fraction) == Decimal(amount, decimals)
    ensures s == RealNumberString(amount, decimals)
  {
    hide ValueOf, RealNumberString;
    var w, f := PrintsExactly(amount, decimals);
    NotationUnique(whole, fraction, w, f);
  }

  lemma NotMorePlaces(amount: nat, decimals: nat, w: string, f: string, w': string, f': string)
    requires AllDigits(w) && AllDigits(f) && AllDigits(w') && AllDigits(f')
    requires |f| <= decimals && |f'| <= decimals
    requires ValueOf(w, f).digits * Pow10(decimals - |f|) == amount
    requires ValueOf(w', f').digits * Pow10(decimals - |f'|) == amount
    requires f != [] ==> f[|f| - 1] != '0'
    ensures |f| <= |f'|
  {
    hide ParseNat, Pow10;
    if |f| > |f'| {
      assert (w + f)[|w + f| - 1] == f[|f| - 1];
      LastDigit(w + f);
      EndsInZero(ValueOf(w', f').digits, |f'|, ValueOf(w, f).digits, |f|, decimals);
    }
  }

  /** The trimmed string is the only one with this value and no needless zero in front or at the end. */
  lemma TrimmedUnique(amount: nat, decimals: nat, s: string, whole: string, fraction: string)
    requires Written(s, whole, fraction) && NoLeadingZero(whole) && |fraction| <= decimals
    requires ValueOf(whole, fraction).digits * Pow10(decimals - |fraction|) == amount
    requires fraction != [] ==> fraction[|fraction| - 1] != '0'
    ensures s == RealNumberStringTrimmed(amount, decimals)
  {
    hide ParseNat, Pow10, RealNumberStringTrimmed;
    var w, f := TrimmedIsExact(amount, decimals);
    NotMorePlaces(amount, decimals, w, f, whole, fraction);
    NotMorePlaces(amount, decimals, whole, fraction, w, f);
    CancelRight(ValueOf(whole, fraction).digits, ValueOf(w, f).digits, Pow10(decimals - |f|));
    NotationUnique(whole, fraction, w, f);
  }
}
