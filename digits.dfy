/**
 * Decimal rendering of positive integers (JavaScript's `Number.prototype.toString`
 * for integers below 1e21), the numeric value of a string of decimal digits, and
 * the lexicographic string order JavaScript uses for `<` on strings.
 */
module Digits {

  predicate IsDigit(c: char) {
    '0' <= c <= '9'
  }

  predicate IsDigits(s: string) {
    forall k :: 0 <= k < |s| ==> IsDigit(s[k])
  }

  function DigitChar(d: nat): (c: char)
    requires d < 10
    ensures IsDigit(c)
  {
    ('0' as int + d) as char
  }

  function DigitValue(c: char): (d: nat)
    requires IsDigit(c)
    ensures d < 10
  {
    (c as int - '0' as int) as nat
  }

  function Pow10(k: nat): (p: nat)
    ensures p >= 1
  {
    if k == 0 then 1 else 10 * Pow10(k - 1)
  }

  /** The number a string of decimal digits denotes, most significant digit first. */
  function Value(s: string): nat
    requires IsDigits(s)
  {
    if s == [] then 0 else DigitValue(s[0]) * Pow10(|s| - 1) + Value(s[1..])
  }

  lemma BoundArith(a: nat, v: nat, p: nat)
    requires a < 10 && v < p
    ensures a * p + v < 10 * p
  {
  }

  lemma SnocArith(a: nat, p: nat, v: nat, d: nat)
    ensures a * (10 * p) + (10 * v + d) == 10 * (a * p + v) + d
  {
  }

  /** A digit string of length k denotes a number below 10^k. */
  lemma {:induction false} ValueBound(s: string)
    requires IsDigits(s)
    ensures Value(s) < Pow10(|s|)
  {
    if s != [] {
      ValueBound(s[1..]);
      BoundArith(DigitValue(s[0]), Value(s[1..]), Pow10(|s| - 1));
    }
  }

  /** Appending a digit multiplies the value by ten and adds the digit. */
  lemma {:induction false} ValueSnoc(s: string, c: char)
    requires IsDigits(s) && IsDigit(c)
    ensures IsDigits(s + [c])
    ensures Value(s + [c]) == 10 * Value(s) + DigitValue(c)
  {
    if s == [] {
      assert [c][1..] == [];
    } else {
      assert (s + [c])[1..] == s[1..] + [c];
      ValueSnoc(s[1..], c);
      assert Value(s + [c]) == DigitValue(s[0]) * Pow10(|s|) + Value(s[1..] + [c]);
      SnocArith(DigitValue(s[0]), Pow10(|s| - 1), Value(s[1..]), DigitValue(c));
    }
  }

  /** Leading zeros do not change the value of a digit string. */
  lemma {:induction false} ValueLeadingZeros(z: string, s: string)
    requires IsDigits(s)
    requires forall k :: 0 <= k < |z| ==> z[k] == '0'
    ensures IsDigits(z + s) && Value(z + s) == Value(s)
  {
    if z != [] {
      assert (z + s)[1..] == z[1..] + s;
      assert (z + s)[0] == '0';
      ValueLeadingZeros(z[1..], s);
      assert Value(z + s) == DigitValue('0') * Pow10(|z + s| - 1) + Value(z[1..] + s);
    } else {
      assert z + s == s;
    }
  }

  /** The decimal representation of `n`, without leading zeros (as JavaScript prints it). */
  function Decimal(n: nat): string {
    if n < 10 then [DigitChar(n)] else Decimal(n / 10) + [DigitChar(n % 10)]
  }

  /** `Decimal(n)` is a non-empty digit string without leading zero that denotes `n`. */
  lemma {:induction false} DecimalDigits(n: nat)
    ensures |Decimal(n)| >= 1 && IsDigits(Decimal(n))
    ensures Value(Decimal(n)) == n
    ensures |Decimal(n)| > 1 ==> Decimal(n)[0] != '0'
  {
    if n >= 10 {
      DecimalDigits(n / 10);
      ValueSnoc(Decimal(n / 10), DigitChar(n % 10));
    }
  }

  /** A larger number never has fewer decimal digits. */
  lemma {:induction false} DecimalLengthMonotone(a: nat, b: nat)
    requires a <= b
    ensures |Decimal(a)| <= |Decimal(b)|
  {
    if a >= 10 {
      DecimalLengthMonotone(a / 10, b / 10);
    }
  }

  /**
   * JavaScript's string comparison `s < t`: the first differing character decides,
   * and a proper prefix is smaller than the string it begins.
   */
  predicate LexLess(s: string, t: string) {
    if s == [] then t != []
    else if t == [] then false
    else if s[0] != t[0] then s[0] < t[0]
    else LexLess(s[1..], t[1..])
  }

  /** With the lower tail bounded by p, a smaller leading digit gives a smaller number. */
  lemma HeadDigitDecides(a: nat, x: nat, b: nat, y: nat, p: nat)
    requires a < b && x < p
    ensures a * p + x < b * p + y
  {
    calc {
      a * p + x;
    <
      a * p + p;
    ==
      (a + 1) * p;
    <=  { assert a + 1 <= b; }
      b * p;
    }
  }

  /** On digit strings of one length, string order and numeric order agree. */
  lemma {:induction false} LexLessIffValueLess(s: string, t: string)
    requires IsDigits(s) && IsDigits(t) && |s| == |t|
    ensures LexLess(s, t) <==> Value(s) < Value(t)
  {
    if s != [] {
      var p := Pow10(|s| - 1);
      ValueBound(s[1..]);
      ValueBound(t[1..]);
      if s[0] == t[0] {
        LexLessIffValueLess(s[1..], t[1..]);
      } else if s[0] < t[0] {
        HeadDigitDecides(DigitValue(s[0]), Value(s[1..]), DigitValue(t[0]), Value(t[1..]), p);
      } else {
        HeadDigitDecides(DigitValue(t[0]), Value(t[1..]), DigitValue(s[0]), Value(s[1..]), p);
      }
    }
  }

  /** Behind two different prefixes of one length, whatever follows does not matter. */
  lemma {:induction false} LexLessAppend(p: string, x: string, q: string, y: string)
    requires |p| == |q| && p != q
    ensures LexLess(p + x, q + y) <==> LexLess(p, q)
  {
    assert p != [];
    if p[0] == q[0] {
      assert p[1..] != q[1..] by {
        assert p == [p[0]] + p[1..] && q == [q[0]] + q[1..];
      }
      assert (p + x)[1..] == p[1..] + x;
      assert (q + y)[1..] == q[1..] + y;
      LexLessAppend(p[1..], x, q[1..], y);
    }
  }
}
