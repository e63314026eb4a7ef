/** Digit strings in bases 58 and 256: values, powers and shortest numerals. */
module Numerals {
  import opened Bytes

  datatype Base = B58 | B256

  function Size(b: Base): nat { if b == B58 then 58 else 256 }
  function Times(b: Base, x: int): int { if b == B58 then 58 * x else 256 * x }
  function Over(b: Base, x: int): int { if b == B58 then x / 58 else x / 256 }
  function Rest(b: Base, x: int): int { if b == B58 then x % 58 else x % 256 }

  function Pow(b: Base, k: nat): (p: nat)
    ensures p >= 1
  {
    if k == 0 then 1 else Times(b, Pow(b, k - 1))
  }

  /** The value of a digit string, most significant digit first. */
  function Value(s: seq<int>, b: Base): int {
    if |s| == 0 then 0 else Times(b, Value(s[..|s| - 1], b)) + s[|s| - 1]
  }

  ghost predicate InBase(s: seq<int>, b: Base) { forall i :: 0 <= i < |s| ==> 0 <= s[i] < Size(b) }

  /** The shortest digit string of n. */
  function Numeral(n: nat, b: Base): (s: seq<int>)
    ensures InBase(s, b) && (n > 0 ==> |s| > 0 && s[0] != 0)
  {
    if n == 0 then [] else Numeral(Over(b, n), b) + [Rest(b, n)]
  }

  lemma {:induction false} NumeralValue(n: nat, b: Base)
    ensures Value(Numeral(n, b), b) == n
  {
    if n == 0 {
    } else {
      NumeralValue(Over(b, n), b);
      assert Numeral(n, b)[..|Numeral(n, b)| - 1] == Numeral(Over(b, n), b);
    }
  }

  lemma {:induction false} ValueBound(s: seq<int>, b: Base)
    requires InBase(s, b)
    ensures 0 <= Value(s, b) < Pow(b, |s|)
    ensures |s| > 0 && s[0] != 0 ==> Value(s, b) > 0
  {
    if |s| > 0 {
      ValueBound(s[..|s| - 1], b);
    }
  }

  lemma OverRest(b: Base, x: int, d: int)
    requires 0 <= d < Size(b)
    ensures Over(b, Times(b, x) + d) == x && Rest(b, Times(b, x) + d) == d
  {
  }

  lemma NumeralSnoc(n: nat, b: Base, x: nat, d: int)
    requires n > 0 && n == Times(b, x) + d && 0 <= d < Size(b)
    ensures Numeral(n, b) == Numeral(x, b) + [d]
  {
    OverRest(b, x, d);
  }

  lemma ValueSnoc(s: seq<int>, d: int, b: Base)
    ensures Value(s + [d], b) == Times(b, Value(s, b)) + d
  {
    assert (s + [d])[..|s|] == s;
  }

  lemma NumeralLast(s: seq<int>, r: seq<int>, v: nat, n: nat, b: Base)
    requires |s| > 0 && r == s[..|s| - 1] && Numeral(v, b) == r && 0 <= s[|s| - 1] < Size(b)
    requires n > 0 && n == Times(b, v) + s[|s| - 1]
    ensures Numeral(n, b) == s
  {
    NumeralSnoc(n, b, v, s[|s| - 1]);
    assert s == r + [s[|s| - 1]];
  }

  /** A digit string without leading zero is the shortest one of its value. */
  lemma {:induction false} NumeralUnique(s: seq<int>, b: Base)
    requires InBase(s, b) && (|s| > 0 ==> s[0] != 0)
    ensures Value(s, b) >= 0 && Numeral(Value(s, b), b) == s
  {
    ValueBound(s, b);
    if |s| > 0 {
      var r := s[..|s| - 1];
      NumeralUnique(r, b);
      NumeralLast(s, r, Value(r, b), Value(s, b), b);
    }
  }

  lemma TimesAssoc(b: Base, x: int, p: int)
    ensures Times(b, x * p) == x * Times(b, p) == Times(b, x) * p
  {
  }

  lemma {:induction false} ValueConcat(s: seq<int>, t: seq<int>, b: Base)
    ensures Value(s + t, b) == Value(s, b) * Pow(b, |t|) + Value(t, b)
  {
    if |t| == 0 {
      assert s + t == s;
    } else {
      var r := t[..|t| - 1];
      ValueConcat(s, r, b);
      assert (s + t)[..|s + t| - 1] == s + r;
      TimesAssoc(b, Value(s, b), Pow(b, |r|));
    }
  }

  lemma ValueCons(d: int, t: seq<int>, b: Base)
    ensures Value([d] + t, b) == d * Pow(b, |t|) + Value(t, b)
  {
    assert [d][..0] == [] && Value([d], b) == d;
    ValueConcat([d], t, b);
  }

  lemma {:induction false} ValueDropZeros(z: nat, s: seq<int>, b: Base)
    ensures Value(Zeros(z) + s, b) == Value(s, b)
  {
    if |s| > 0 {
      ValueDropZeros(z, s[..|s| - 1], b);
      assert (Zeros(z) + s)[..z + |s| - 1] == Zeros(z) + s[..|s| - 1];
    } else if z > 0 {
      ValueDropZeros(z - 1, s, b);
      assert (Zeros(z) + s)[..z - 1] == Zeros(z - 1) + s;
    }
  }

  lemma BytesInBase(s: seq<byte>)
    ensures InBase(s, B256)
  {
  }

  lemma {:induction false} PowAdd(b: Base, i: nat, j: nat)
    ensures Pow(b, i + j) == Pow(b, i) * Pow(b, j)
  {
    if i > 0 {
      PowAdd(b, i - 1, j);
      TimesAssoc(b, Pow(b, i - 1), Pow(b, j));
    }
  }

  lemma {:induction false} PowMono(b: Base, m: nat, n: nat)
    requires m <= n
    ensures Pow(b, m) <= Pow(b, n)
    decreases n
  {
    if m < n {
      PowMono(b, m, n - 1);
    }
  }

  /** Eight bytes hold 64 bits. */
  lemma EightBytes()
    ensures Pow(B256, 8) == 0x1_0000_0000_0000_0000
  {
    assert Pow(B256, 4) == 0x1_0000_0000 by { assert Pow(B256, 2) == 0x1_0000; }
    PowAdd(B256, 4, 4);
  }

  /** A number below b^k has at most k digits. */
  lemma {:induction false} NumeralLength(n: nat, b: Base, k: nat)
    requires n < Pow(b, k)
    ensures |Numeral(n, b)| <= k
  {
    if n == 0 {
    } else {
      assert k > 0;
      NumeralLength(Over(b, n), b, k - 1);
    }
  }
}
