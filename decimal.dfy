/**
 Decimal rendering of non-negative integers as Python's format specification
 `{n:0W}` produces it (at least W characters, padded on the left with '0'),
 and the reading back of such a rendering.
 */
module Decimal {

  function Pow10(n: nat): (r: nat)
    ensures r >= 1
  {
    if n == 0 then 1 else 10 * Pow10(n - 1)
  }

  lemma {:induction false} Pow10Monotone(a: nat, b: nat)
    ensures a <= b ==> Pow10(a) <= Pow10(b)
    decreases b
  {
    if a < b {
      Pow10Monotone(a, b - 1);
    }
  }

  predicate IsDigit(c: char) {
    '0' <= c <= '9'
  }

  /** Every character of `s` is a decimal digit. */
  predicate AllDigits(s: string) {
    s == [] || (AllDigits(s[..|s| - 1]) && IsDigit(s[|s| - 1]))
  }

  function DigitChar(d: nat): (c: char)
    requires d < 10
    ensures IsDigit(c)
  {
    ('0' as int + d) as char
  }

  function DigitValue(c: char): (d: nat)
    requires IsDigit(c)
    ensures d < 10
  {
    c as int - '0' as int
  }

  /** The number a string of decimal digits denotes (leading zeros allowed). */
  function Value(s: string): nat
    requires AllDigits(s)
  {
    if s == [] then 0 else Value(s[..|s| - 1]) * 10 + DigitValue(s[|s| - 1])
  }

  /** A fixed-width field of digits is determined by the number it denotes. */
  lemma {:induction false} SameWidthSameValue(a: string, b: string)
    requires AllDigits(a) && AllDigits(b) && |a| == |b|
    ensures Value(a) == Value(b) <==> a == b
    decreases |a|
  {
    if a != [] && Value(a) == Value(b) {
      var ia, ib := a[..|a| - 1], b[..|b| - 1];
      var da, db := DigitValue(a[|a| - 1]), DigitValue(b[|b| - 1]);
      assert Value(ia) * 10 + da == Value(ib) * 10 + db;
      assert da == db && Value(ia) == Value(ib);
      SameWidthSameValue(ia, ib);
      assert a[|a| - 1] == b[|b| - 1];
      assert a == ia + [a[|a| - 1]] && b == ib + [b[|b| - 1]];
    }
  }

  /** The shortest decimal rendering of `n`: Python's `str(n)`. */
  function Digits(n: nat): (r: string)
    ensures r != [] && AllDigits(r)
    ensures Value(r) == n
    ensures n < Pow10(|r|)
    ensures |r| == 1 || Pow10(|r| - 1) <= n
  {
    if n < 10 then
      [DigitChar(n)]
    else
      var init := Digits(n / 10);
      var r := init + [DigitChar(n % 10)];
      assert r[..|r| - 1] == init;
      r
  }

  /** A number below `10^w` needs at most `w` digits. */
  lemma DigitsFit(n: nat, w: nat)
    ensures w >= 1 && n < Pow10(w) ==> |Digits(n)| <= w
  {
    Pow10Monotone(w, |Digits(n)| - 1);
  }

  function Zeros(k: nat): (z: string)
    ensures |z| == k && AllDigits(z)
  {
    if k == 0 then [] else Zeros(k - 1) + ['0']
  }

  /** A string of zeros denotes 0. */
  lemma {:induction false} ValueZeros(k: nat)
    ensures Value(Zeros(k)) == 0
  {
    if k > 0 {
      ValueZeros(k - 1);
      assert Zeros(k)[..k - 1] == Zeros(k - 1);
    }
  }

  /** Leading zeros do not change the value. */
  lemma {:induction false} ValueLeadingZeros(k: nat, d: string)
    requires AllDigits(d)
    ensures AllDigits(Zeros(k) + d) && Value(Zeros(k) + d) == Value(d)
    decreases |d|
  {
    var z := Zeros(k);
    if d == [] {
      assert z + d == z;
      ValueZeros(k);
    } else {
      var init, last := d[..|d| - 1], d[|d| - 1];
      ValueLeadingZeros(k, init);
      var zd := z + d;
      assert zd[..|zd| - 1] == z + init && zd[|zd| - 1] == last;
      assert Value(zd) == Value(z + init) * 10 + DigitValue(last);
    }
  }

  /** `f"{n:0{width}}"`: `n` in decimal, left-padded with '0' to `width`. */
  function ZeroPad(n: nat, width: nat): (r: string)
    ensures AllDigits(r) && Value(r) == n
    ensures |r| >= width
    ensures width >= 1 && n < Pow10(width) ==> |r| == width
  {
    var d := Digits(n);
    DigitsFit(n, width);
    if |d| >= width then d
    else
      ValueLeadingZeros(width - |d|, d);
      Zeros(width - |d|) + d
  }
}
