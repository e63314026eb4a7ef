/** Decimal digit strings: their value, the fixed-width numeral of a number, and
    the fact that text order is numeric order at equal width. */
module Decimal {
  function Pow10(k: nat): (p: nat)
    ensures p >= 1
  {
    if k == 0 then 1 else 10 * Pow10(k - 1)
  }

  function DigitChar(d: int): (c: char)
    requires 0 <= d < 10
    ensures IsDigit(c) && DigitValue(c) == d
  {
    (48 + d) as char
  }

  predicate IsDigit(c: char) { '0' <= c <= '9' }

  function DigitValue(c: char): (d: int)
    requires IsDigit(c)
    ensures 0 <= d < 10
  {
    c as int - 48
  }

  predicate AllDigits(s: string) { forall i :: 0 <= i < |s| ==> IsDigit(s[i]) }

  /** The number a digit string denotes. */
  function NatOf(s: string): nat
    requires AllDigits(s)
  {
    if |s| == 0 then 0 else 10 * NatOf(s[..|s| - 1]) + DigitValue(s[|s| - 1])
  }

  /** The k low decimal digits of n, most significant first. */
  function Digits(n: nat, k: nat): (s: string)
    ensures |s| == k && AllDigits(s)
  {
    if k == 0 then "" else Digits(n / 10, k - 1) + [DigitChar(n % 10)]
  }

  /** Dictionary order on character strings. */
  predicate LexLess(s: string, t: string) {
    |t| > 0 && (|s| == 0 || s[0] < t[0] || (s[0] == t[0] && LexLess(s[1..], t[1..])))
  }

  lemma Pow10Add(a: nat, b: nat)
    ensures Pow10(a + b) == Pow10(a) * Pow10(b)
  {
    if a == 0 {
    } else {
      Pow10Add(a - 1, b);
    }
  }

  lemma {:induction false} NatOfDigits(n: nat, k: nat)
    requires n < Pow10(k)
    ensures NatOf(Digits(n, k)) == n
  {
    if k == 0 {
    } else {
      NatOfDigits(n / 10, k - 1);
      assert Digits(n, k)[..k - 1] == Digits(n / 10, k - 1);
    }
  }

  lemma {:induction false} DigitsOfNat(s: string)
    requires AllDigits(s)
    ensures NatOf(s) < Pow10(|s|) && Digits(NatOf(s), |s|) == s
  {
    if |s| == 0 {
    } else {
      var r := s[..|s| - 1];
      DigitsOfNat(r);
      assert NatOf(s) / 10 == NatOf(r);
      assert s == r + [s[|s| - 1]];
    }
  }

  lemma MulTen(a: int, p: int)
    ensures 10 * (a * p) == a * (10 * p)
  {
  }

  lemma {:induction false} NatOfConcat(s: string, t: string)
    requires AllDigits(s) && AllDigits(t)
    ensures AllDigits(s + t)
    ensures NatOf(s + t) == NatOf(s) * Pow10(|t|) + NatOf(t)
  {
    if |t| == 0 {
      assert s + t == s;
    } else {
      var r := t[..|t| - 1];
      NatOfConcat(s, r);
      assert (s + t)[..|s + t| - 1] == s + r;
      MulTen(NatOf(s), Pow10(|r|));
    }
  }

  lemma NatOfFirst(s: string)
    requires |s| > 0 && AllDigits(s)
    ensures NatOf(s) == DigitValue(s[0]) * Pow10(|s| - 1) + NatOf(s[1..])
  {
    assert s == [s[0]] + s[1..];
    assert [s[0]][..0] == "";
    assert NatOf([s[0]]) == DigitValue(s[0]);
    NatOfConcat([s[0]], s[1..]);
  }

  lemma HeadAndTail(s: string, k: nat)
    requires AllDigits(s) && |s| == k + 1
    ensures NatOf(s) == DigitValue(s[0]) * Pow10(k) + NatOf(s[1..]) && NatOf(s[1..]) < Pow10(k)
    ensures s == [s[0]] + s[1..]
  {
    NatOfFirst(s);
    DigitsOfNat(s[1..]);
    assert |s[1..]| == k;
  }

  lemma HighDigitDecides(a: int, x: nat, b: int, y: nat, p: nat)
    requires x < p && y < p
    ensures a * p + x < b * p + y <==> a < b || (a == b && x < y)
    ensures a * p + x == b * p + y ==> a == b && x == y
  {
    if a < b {
      assert (a + 1) * p <= b * p;
    } else if b < a {
      assert (b + 1) * p <= a * p;
    }
  }

  /** At equal width, text order is numeric order. */
  lemma {:induction false} LexIsNumeric(s: string, t: string)
    requires |s| == |t| && AllDigits(s) && AllDigits(t)
    ensures LexLess(s, t) <==> NatOf(s) < NatOf(t)
    ensures NatOf(s) == NatOf(t) ==> s == t
  {
    if |s| == 0 {
    } else {
      HeadAndTail(s, |s| - 1);
      HeadAndTail(t, |s| - 1);
      LexIsNumeric(s[1..], t[1..]);
      HighDigitDecides(DigitValue(s[0]), NatOf(s[1..]), DigitValue(t[0]), NatOf(t[1..]), Pow10(|s| - 1));
    }
  }

  lemma {:induction false} LexConcat(p: string, s: string, q: string, t: string)
    requires |p| == |q|
    ensures LexLess(p + s, q + t) <==> LexLess(p, q) || (p == q && LexLess(s, t))
  {
    if |p| == 0 {
      assert p + s == s && q + t == t;
    } else {
      assert (p + s)[1..] == p[1..] + s && (q + t)[1..] == q[1..] + t;
      assert p == [p[0]] + p[1..] && q == [q[0]] + q[1..];
      LexConcat(p[1..], s, q[1..], t);
    }
  }

  lemma {:induction false} LexTotal(s: string, t: string)
    requires |s| == |t| && !LexLess(s, t) && !LexLess(t, s)
    ensures s == t
  {
    if |s| > 0 {
      LexTotal(s[1..], t[1..]);
      assert s == [s[0]] + s[1..] && t == [t[0]] + t[1..];
    }
  }
}
