/** Decimal rendering of non-negative integers as Python's format
    specification `{i:0Nd}` produces it, and reading such text back. */
module Decimal {
  import opened Order

  predicate IsDigit(c: char)
  {
    '0' <= c <= '9'
  }

  predicate AllDigits(s: string)
  {
    forall i :: 0 <= i < |s| ==> IsDigit(s[i])
  }

  function DigitChar(d: nat): (c: char)
    requires d < 10
    ensures IsDigit(c)
  {
    ('0' as int + d) as char
  }

  function DigitValue(c: char): nat
    requires IsDigit(c)
  {
    c as int - '0' as int
  }

  function Pow10(k: nat): (p: nat)
    ensures p >= 1
  {
    if k == 0 then 1 else 10 * Pow10(k - 1)
  }

  /** The shortest decimal rendering of `n` (`str(n)`). */
  function Digits(n: nat): (s: string)
    ensures |s| >= 1 && AllDigits(s)
    decreases n
  {
    if n < 10 then [DigitChar(n)] else Digits(n / 10) + [DigitChar(n % 10)]
  }

  function Zeros(k: nat): (s: string)
    ensures |s| == k && AllDigits(s)
  {
    if k == 0 then "" else "0" + Zeros(k - 1)
  }

  /** `f"{n:0{width}d}"`: the decimal rendering of `n`, padded on the left
      with zeros to `width` characters when it is shorter. */
  function ZeroPad(n: nat, width: nat): (s: string)
    ensures AllDigits(s)
  {
    var d := Digits(n);
    if |d| < width then Zeros(width - |d|) + d else d
  }

  /** The number a string of decimal digits denotes (leading zeros allowed). */
  function Value(s: string): nat
    requires AllDigits(s)
  {
    if s == [] then 0 else DigitValue(s[0]) * Pow10(|s| - 1) + Value(s[1..])
  }

  lemma MulMonotone(d: nat, e: nat, p: nat)
    requires d <= e
    ensures d * p <= e * p
  {
  }

  /** Moving one decimal place: `d * 10p + (10v + e) == 10 (d p + v) + e`. */
  lemma ShiftDigit(d: nat, p: nat, v: nat, e: nat)
    ensures d * (10 * p) + (10 * v + e) == 10 * (d * p + v) + e
  {
  }

  /** A leading digit `d` before a remainder below `p` stays below `10p`. */
  lemma BelowNextPow(d: nat, p: nat, v: nat)
    requires d < 10 && v < p
    ensures d * p + v < 10 * p
  {
    MulMonotone(d + 1, 10, p);
  }

  /** A number of `k` digits is below `10^k`. */
  lemma {:induction false} ValueBelowPow(s: string)
    requires AllDigits(s)
    ensures Value(s) < Pow10(|s|)
  {
    if s != [] {
      ValueBelowPow(s[1..]);
      BelowNextPow(DigitValue(s[0]), Pow10(|s| - 1), Value(s[1..]));
    }
  }

  /** Appending a digit multiplies the value by ten and adds the digit. */
  lemma {:induction false} ValueSnoc(s: string, c: char)
    requires AllDigits(s) && IsDigit(c)
    ensures AllDigits(s + [c]) && Value(s + [c]) == 10 * Value(s) + DigitValue(c)
  {
    var t := s + [c];
    assert AllDigits(t);
    if s != [] {
      assert t[1..] == s[1..] + [c];
      ValueSnoc(s[1..], c);
      var d, p, v := DigitValue(s[0]), Pow10(|s| - 1), Value(s[1..]);
      assert t[0] == s[0];
      assert Value(t) == d * Pow10(|t| - 1) + (10 * v + DigitValue(c));
      ShiftDigit(d, p, v, DigitValue(c));
    }
  }

  /** Reading back the rendering of `n` gives `n`. */
  lemma {:induction false} DigitsValue(n: nat)
    ensures Value(Digits(n)) == n
    decreases n
  {
    if n >= 10 {
      DigitsValue(n / 10);
      ValueSnoc(Digits(n / 10), DigitChar(n % 10));
    }
  }

  /** Leading zeros do not change the value. */
  lemma {:induction false} ZerosValue(k: nat, s: string)
    requires AllDigits(s)
    ensures AllDigits(Zeros(k) + s) && Value(Zeros(k) + s) == Value(s)
  {
    assert AllDigits(Zeros(k) + s);
    if k > 0 {
      var t := Zeros(k) + s;
      assert t[0] == '0' && DigitValue(t[0]) == 0;
      assert t[1..] == Zeros(k - 1) + s;
      ZerosValue(k - 1, s);
      assert 0 * Pow10(|t| - 1) == 0;
      assert Value(t) == Value(t[1..]);
    } else {
      assert Zeros(k) + s == s;
    }
  }

  /** The zero-padded rendering reads back as `n`, whatever the width. */
  lemma ZeroPadValue(n: nat, width: nat)
    ensures Value(ZeroPad(n, width)) == n
  {
    DigitsValue(n);
    var d := Digits(n);
    if |d| < width {
      ZerosValue(width - |d|, d);
    }
  }

  /** A number below `10^k` has at most `k` digits. */
  lemma {:induction false} DigitsLength(n: nat, k: nat)
    requires k > 0 && n < Pow10(k)
    ensures |Digits(n)| <= k
    decreases n
  {
    if n >= 10 {
      assert k > 1;
      DigitsLength(n / 10, k - 1);
    }
  }

  /** Below `10^width`, the zero-padded rendering has exactly `width` characters. */
  lemma ZeroPadLength(n: nat, width: nat)
    requires width > 0 && n < Pow10(width)
    ensures |ZeroPad(n, width)| == width
  {
    DigitsLength(n, width);
  }

  /** The leading digit `d` of a `k`-digit string puts its value in
      `[d * 10^(k-1), (d + 1) * 10^(k-1))`. */
  lemma LeadingDigitBounds(s: string)
    requires AllDigits(s) && s != []
    ensures var d, p := DigitValue(s[0]), Pow10(|s| - 1);
      d * p <= Value(s) < (d + 1) * p
  {
    ValueBelowPow(s[1..]);
  }

  /** Two digit strings of the same length compare as strings as their values do. */
  lemma {:induction false} EqualLengthValueOrder(a: string, b: string)
    requires AllDigits(a) && AllDigits(b) && |a| == |b| && Value(a) < Value(b)
    ensures LexLess(a, b)
  {
    var p := Pow10(|a| - 1);
    var da, db := DigitValue(a[0]), DigitValue(b[0]);
    LeadingDigitBounds(a);
    LeadingDigitBounds(b);
    if da > db {
      MulMonotone(db + 1, da, p);
      assert false;
    } else if da == db {
      assert a[0] == b[0];
      EqualLengthValueOrder(a[1..], b[1..]);
    }
  }

  /** Below `10^width`, zero-padded renderings sort as the numbers do. */
  lemma ZeroPadOrder(i: nat, j: nat, width: nat)
    requires width > 0 && i < j < Pow10(width)
    ensures LexLess(ZeroPad(i, width), ZeroPad(j, width))
  {
    ZeroPadLength(i, width);
    ZeroPadLength(j, width);
    ZeroPadValue(i, width);
    ZeroPadValue(j, width);
    EqualLengthValueOrder(ZeroPad(i, width), ZeroPad(j, width));
  }

  /** Distinct numbers have distinct zero-padded renderings, at any width. */
  lemma ZeroPadInjective(i: nat, j: nat, width: nat)
    requires ZeroPad(i, width) == ZeroPad(j, width)
    ensures i == j
  {
    ZeroPadValue(i, width);
    ZeroPadValue(j, width);
  }
}
