/** The text of a token amount and what it denotes: the printed form is the unique
    canonical decimal of amount / 10^decimals, and comparing texts the way
    libsol/printer.c does is comparing those numbers. */
module Amounts {
  import opened Bytes
  import opened Decimal

  // ---------- decimal texts ----------

  /** Position of the dot, or the length if there is none. */
  function DotAt(t: string): (p: nat)
    ensures p <= |t| && (forall i :: 0 <= i < p ==> t[i] != '.') && (p < |t| ==> t[p] == '.')
  {
    if |t| == 0 || t[0] == '.' then 0 else 1 + DotAt(t[1..])
  }

  function IntPart(t: string): string { t[..DotAt(t)] }

  function FracPart(t: string): string { if DotAt(t) < |t| then t[DotAt(t) + 1..] else "" }

  /** Digits, optionally followed by a dot and more digits. */
  predicate IsDecimal(t: string) {
    && |IntPart(t)| > 0 && AllDigits(IntPart(t)) && AllDigits(FracPart(t))
    && (DotAt(t) < |t| ==> |FracPart(t)| > 0)
  }

  predicate NoLeadingZero(t: string) { |IntPart(t)| > 1 ==> t[0] != '0' }

  predicate NoTrailingZero(t: string) { |FracPart(t)| > 0 ==> t[|t| - 1] != '0' }

  predicate Canonical(t: string) { IsDecimal(t) && NoLeadingZero(t) && NoTrailingZero(t) }

  /** The digits of a decimal text as one number: the text denotes this number
      divided by 10^|FracPart|. */
  function Scaled(t: string): nat
    requires IsDecimal(t)
  {
    NatOf(IntPart(t) + FracPart(t))
  }

  predicate Denotes(t: string, n: nat, d: nat)
    requires IsDecimal(t)
  {
    Scaled(t) * Pow10(d) == n * Pow10(|FracPart(t)|)
  }

  /** t >= u as numbers. */
  predicate NumericGe(t: string, u: string)
    requires IsDecimal(t) && IsDecimal(u)
  {
    Scaled(t) * Pow10(|FracPart(u)|) >= Scaled(u) * Pow10(|FracPart(t)|)
  }

  lemma {:induction false} DotAtIs(t: string, p: nat)
    requires p <= |t| && (forall i :: 0 <= i < p ==> t[i] != '.') && (p < |t| ==> t[p] == '.')
    ensures DotAt(t) == p
  {
    if p > 0 {
      DotAtIs(t[1..], p - 1);
    }
  }

  lemma PartsOf(i: string, f: string)
    requires AllDigits(i)
    ensures IntPart(i + "." + f) == i && FracPart(i + "." + f) == f && DotAt(i + "." + f) == |i|
    ensures IntPart(i) == i && FracPart(i) == "" && DotAt(i) == |i|
  {
    DotAtIs(i + "." + f, |i|);
    DotAtIs(i, |i|);
  }

  lemma TextOfParts(t: string)
    requires IsDecimal(t)
    ensures t == if |FracPart(t)| > 0 then IntPart(t) + "." + FracPart(t) else IntPart(t)
  {
  }

  // ---------- the printed text ----------

  function NumDigits(n: nat): (k: nat)
    ensures k >= 1
  {
    if n < 10 then 1 else 1 + NumDigits(n / 10)
  }

  lemma {:induction false} NumDigitsIs(n: nat, k: nat)
    ensures n < Pow10(k) && k >= 1 <==> NumDigits(n) <= k
  {
    if k <= 1 {
      assert Pow10(1) == 10;
    } else if n >= 10 {
      NumDigitsIs(n / 10, k - 1);
    } else {
      assert Pow10(k) >= 10;
    }
  }

  /** Digits printed: at least one before the dot. */
  function Width(n: nat, decimals: nat): (w: nat)
    ensures w > decimals
  {
    if NumDigits(n) > decimals then NumDigits(n) else decimals + 1
  }

  /** All the digits with the dot in place, before trimming. */
  function RawText(n: nat, decimals: nat): (t: string)
    ensures |t| == Width(n, decimals) + 1
  {
    var d := Digits(n, Width(n, decimals));
    d[..|d| - decimals] + "." + d[|d| - decimals..]
  }

  function TrimZeros(t: string): (r: string)
    ensures |r| <= |t| && r == t[..|r|] && (|t| > 0 ==> |r| > 0)
  {
    if |t| > 1 && t[|t| - 1] == '0' then TrimZeros(t[..|t| - 1]) else t
  }

  function TrimDot(t: string): string {
    if |t| > 0 && t[|t| - 1] == '.' then t[..|t| - 1] else t
  }

  function AmountText(n: nat, decimals: nat): string { TrimDot(TrimZeros(RawText(n, decimals))) }

  lemma {:induction false} TrimFraction(i: string, f: string, z: nat)
    requires |i| > 0 && (|f| > 0 ==> f[|f| - 1] != '0')
    ensures TrimZeros(i + "." + f + Digits(0, z)) == i + "." + f
  {
    var t := i + "." + f;
    if z == 0 {
      assert t + Digits(0, 0) == t;
      assert t[|t| - 1] == if |f| > 0 then f[|f| - 1] else '.';
    } else {
      assert Digits(0, z) == Digits(0, z - 1) + ['0'];
      assert (t + Digits(0, z))[..|t| + z - 1] == t + Digits(0, z - 1);
      TrimFraction(i, f, z - 1);
    }
  }

  /** Any digit string is a part without trailing zero followed by zeros. */
  lemma {:induction false} SplitZeros(f: string) returns (r: string, z: nat)
    requires AllDigits(f)
    ensures AllDigits(r) && f == r + Digits(0, z) && (|r| > 0 ==> r[|r| - 1] != '0')
  {
    if |f| > 0 && f[|f| - 1] == '0' {
      r, z := SplitZeros(f[..|f| - 1]);
      assert Digits(0, z + 1) == Digits(0, z) + ['0'];
      assert f == f[..|f| - 1] + ['0'];
      z := z + 1;
    } else {
      r, z := f, 0;
    }
  }

  lemma {:induction false} ZerosValue(z: nat)
    ensures NatOf(Digits(0, z)) == 0
  {
    NatOfDigits(0, z);
  }

  lemma TopDigit(n: nat, w: nat)
    requires w >= 1 && Pow10(w - 1) <= n < Pow10(w)
    ensures Digits(n, w)[0] != '0'
  {
    var s := Digits(n, w);
    NatOfDigits(n, w);
    NatOfFirst(s);
    DigitsOfNat(s[1..]);
  }

  /** The integer part has no redundant leading zero. */
  lemma FirstDigit(n: nat, decimals: nat, i: string, f: string)
    requires Digits(n, Width(n, decimals)) == i + f && |f| == decimals && |i| > 1
    ensures i[0] != '0'
  {
    var w := Width(n, decimals);
    NumDigitsIs(n, w);
    NumDigitsIs(n, w - 1);
    TopDigit(n, w);
    assert Digits(n, w)[0] == i[0];
  }

  lemma MulAssoc(a: int, b: int, c: int)
    ensures a * (b * c) == (a * b) * c == (a * c) * b
  {
  }

  lemma TrimDotOf(i: string, r: string)
    requires |r| > 0 ==> r[|r| - 1] != '.'
    ensures TrimDot(i + "." + r) == if |r| > 0 then i + "." + r else i
  {
    if |r| == 0 {
      assert i + "." + r == i + ".";
    }
  }

  lemma TrimText(i: string, f: string, r: string, z: nat)
    requires |i| > 0 && f == r + Digits(0, z) && (|r| > 0 ==> r[|r| - 1] != '0' && r[|r| - 1] != '.')
    ensures TrimDot(TrimZeros(i + "." + f)) == if |r| > 0 then i + "." + r else i
  {
    TrimFraction(i, r, z);
    Regroup(i + "." + f, i + ".", f, r, Digits(0, z));
    TrimDotOf(i, r);
  }

  /** The printed text, part by part: z trailing zeros of the fraction are dropped. */
  lemma AmountParts(n: nat, decimals: nat) returns (i: string, r: string, z: nat)
    ensures AllDigits(i) && AllDigits(r) && |i| == Width(n, decimals) - decimals && |r| + z == decimals
    ensures Digits(n, Width(n, decimals)) == (i + r) + Digits(0, z)
    ensures |r| > 0 ==> r[|r| - 1] != '0'
    ensures AmountText(n, decimals) == if |r| > 0 then i + "." + r else i
  {
    var w := Width(n, decimals);
    var s := Digits(n, w);
    i := s[..w - decimals];
    var f := s[w - decimals..];
    r, z := SplitZeros(f);
    TrimText(i, f, r, z);
    Regroup(s, i, f, r, Digits(0, z));
  }

  lemma Regroup(s: string, i: string, f: string, r: string, p: string)
    requires s == i + f && f == r + p
    ensures s == (i + r) + p
  {
  }

  lemma PrintedParts(t: string, i: string, r: string)
    requires AllDigits(i) && AllDigits(r) && |i| > 0 && t == if |r| > 0 then i + "." + r else i
    ensures IntPart(t) == i && FracPart(t) == r && IsDecimal(t)
    ensures |i| > 1 ==> t[0] == i[0]
    ensures |r| > 0 ==> t[|t| - 1] == r[|r| - 1]
  {
    PartsOf(i, r);
  }

  /** The printed text is the canonical decimal of n / 10^decimals. */
  lemma AmountTextDenotes(n: nat, decimals: nat)
    ensures Canonical(AmountText(n, decimals)) && Denotes(AmountText(n, decimals), n, decimals)
    ensures |AmountText(n, decimals)| <= Width(n, decimals) + 1
  {
    var i, r, z := AmountParts(n, decimals);
    LeadingDigit(n, decimals, i, r, z);
    DigitsAreAll(n, decimals);
    TextMeaning(AmountText(n, decimals), n, decimals, i, r, z);
  }

  lemma TextMeaning(t: string, n: nat, decimals: nat, i: string, r: string, z: nat)
    requires AllDigits(i) && AllDigits(r) && |i| > 0 && |r| + z == decimals
    requires t == if |r| > 0 then i + "." + r else i
    requires (|i| > 1 ==> i[0] != '0') && (|r| > 0 ==> r[|r| - 1] != '0')
    requires n == NatOf((i + r) + Digits(0, z))
    ensures Canonical(t) && Denotes(t, n, decimals)
    ensures |t| <= |i| + decimals + 1
  {
    PrintedParts(t, i, r);
    AmountValue(n, i + r, |r|, z, decimals);
  }

  lemma LeadingDigit(n: nat, decimals: nat, i: string, r: string, z: nat)
    requires |r| + z == decimals && Digits(n, Width(n, decimals)) == (i + r) + Digits(0, z)
    ensures |i| > 1 ==> i[0] != '0'
  {
    var f := r + Digits(0, z);
    assert (i + r) + Digits(0, z) == i + f;
    if |i| > 1 {
      FirstDigit(n, decimals, i, f);
    }
  }

  lemma DigitsAreAll(n: nat, decimals: nat)
    ensures NatOf(Digits(n, Width(n, decimals))) == n
  {
    NumDigitsIs(n, Width(n, decimals));
    NatOfDigits(n, Width(n, decimals));
  }

  lemma ScaleShift(v: nat, z: nat, k: nat)
    ensures v * Pow10(z + k) == v * Pow10(z) * Pow10(k)
  {
    Pow10Add(z, k);
    MulAssoc(v, Pow10(z), Pow10(k));
  }

  lemma PaddedValue(s: string, z: nat)
    requires AllDigits(s)
    ensures AllDigits(s + Digits(0, z)) && NatOf(s + Digits(0, z)) == NatOf(s) * Pow10(z)
  {
    NatOfConcat(s, Digits(0, z));
    ZerosValue(z);
  }

  lemma AmountValue(n: nat, s: string, k: nat, z: nat, d: nat)
    requires AllDigits(s) && n == NatOf(s + Digits(0, z)) && d == k + z
    ensures NatOf(s) * Pow10(d) == n * Pow10(k)
  {
    PaddedValue(s, z);
    ScaleShift(NatOf(s), z, k);
  }

  // ---------- comparison of texts ----------

  function PadTo(f: string, m: nat): (p: string)
    requires |f| <= m
    ensures |p| == m
  {
    f + Digits(0, m - |f|)
  }

  function Longer(t: string, u: string): nat {
    if |FracPart(t)| > |FracPart(u)| then |FracPart(t)| else |FracPart(u)|
  }

  /** All digits of t with the fraction padded with zeros to m places. */
  function Aligned(t: string, m: nat): string
    requires |FracPart(t)| <= m
  {
    IntPart(t) + PadTo(FracPart(t), m)
  }

  /** What amount_as_string_is_greater_or_equal compares: first the lengths of the
      integer parts, then the digits in dictionary order. */
  predicate TextGe(t: string, u: string) {
    if |IntPart(t)| != |IntPart(u)| then |IntPart(t)| > |IntPart(u)|
    else !LexLess(Aligned(t, Longer(t, u)), Aligned(u, Longer(t, u)))
  }

  lemma AlignedValue(t: string, m: nat)
    requires IsDecimal(t) && |FracPart(t)| <= m
    ensures AllDigits(Aligned(t, m))
    ensures NatOf(Aligned(t, m)) == Scaled(t) * Pow10(m - |FracPart(t)|)
  {
    assert Aligned(t, m) == (IntPart(t) + FracPart(t)) + Digits(0, m - |FracPart(t)|);
    PaddedValue(IntPart(t) + FracPart(t), m - |FracPart(t)|);
  }

  lemma Cancel(x: int, y: int, p: nat)
    requires p > 0
    ensures x * p >= y * p <==> x >= y
  {
    if x >= y {
      MulMono(y, x, p);
    } else {
      MulMono(x + 1, y, p);
      assert (x + 1) * p == x * p + p;
    }
  }

  /** Comparing at the common scale m is comparing cross-multiplied values. */
  lemma CommonScale(s: nat, a: nat, v: nat, b: nat)
    ensures var m := if a > b then a else b;
            s * Pow10(m - a) >= v * Pow10(m - b) <==> s * Pow10(b) >= v * Pow10(a)
  {
    if a > b {
      Pow10Add(a - b, b);
      MulAssoc(v, Pow10(a - b), Pow10(b));
      Cancel(s, v * Pow10(a - b), Pow10(b));
    } else {
      Pow10Add(b - a, a);
      MulAssoc(s, Pow10(b - a), Pow10(a));
      Cancel(s * Pow10(b - a), v, Pow10(a));
    }
  }

  lemma AlignedCompare(t: string, u: string, m: nat)
    requires IsDecimal(t) && IsDecimal(u) && |IntPart(t)| == |IntPart(u)|
    requires |FracPart(t)| <= m && |FracPart(u)| <= m
    ensures LexLess(Aligned(t, m), Aligned(u, m))
       <==> Scaled(t) * Pow10(m - |FracPart(t)|) < Scaled(u) * Pow10(m - |FracPart(u)|)
  {
    AlignedValue(t, m);
    AlignedValue(u, m);
    LexIsNumeric(Aligned(t, m), Aligned(u, m));
  }

  lemma SameLengthCompare(t: string, u: string)
    requires IsDecimal(t) && IsDecimal(u) && |IntPart(t)| == |IntPart(u)|
    ensures TextGe(t, u) <==> NumericGe(t, u)
  {
    AlignedCompare(t, u, Longer(t, u));
    CommonScale(Scaled(t), |FracPart(t)|, Scaled(u), |FracPart(u)|);
  }

  lemma {:induction false} Pow10Mono(a: nat, b: nat)
    requires a <= b
    ensures Pow10(a) <= Pow10(b)
  {
    if a < b {
      Pow10Mono(a, b - 1);
    }
  }

  lemma LeadingDigitBound(s: string)
    requires AllDigits(s) && |s| > 0 && s[0] != '0'
    ensures NatOf(s) >= Pow10(|s| - 1)
  {
    NatOfFirst(s);
    MulMono(1, DigitValue(s[0]), Pow10(|s| - 1));
  }

  lemma ScaledBounds(t: string)
    requires IsDecimal(t)
    ensures Scaled(t) < Pow10(|IntPart(t)| + |FracPart(t)|)
    ensures |IntPart(t)| > 1 && NoLeadingZero(t) ==> Scaled(t) >= Pow10(|IntPart(t)| - 1 + |FracPart(t)|)
  {
    var s := IntPart(t) + FracPart(t);
    DigitsOfNat(s);
    if |IntPart(t)| > 1 && NoLeadingZero(t) {
      assert s[0] == t[0];
      LeadingDigitBound(s);
    }
  }

  lemma CrossBound(s: nat, v: nat, i: nat, f: nat, g: nat)
    requires s >= Pow10(i + f) && v < Pow10(i + g)
    ensures s * Pow10(g) > v * Pow10(f)
  {
    Pow10Add(i + f, g);
    Pow10Add(i + g, f);
    Cancel(s, Pow10(i + f), Pow10(g));
    Cancel(v, Pow10(i + g), Pow10(f));
  }

  /** A longer integer part without redundant leading zero is a greater number. */
  lemma LongerIsGreater(t: string, u: string)
    requires IsDecimal(t) && IsDecimal(u) && |IntPart(t)| > |IntPart(u)| && NoLeadingZero(t)
    ensures NumericGe(t, u) && !NumericGe(u, t)
  {
    ScaledBounds(t);
    ScaledBounds(u);
    var i := |IntPart(u)|;
    Pow10Mono(i + |FracPart(t)|, |IntPart(t)| - 1 + |FracPart(t)|);
    CrossBound(Scaled(t), Scaled(u), i, |FracPart(t)|, |FracPart(u)|);
  }

  /** Comparing texts is comparing numbers when their integer parts are equally long, or
      the longer one has no redundant leading zero; so whenever neither text has one. */
  lemma CompareNumeric(t: string, u: string)
    requires IsDecimal(t) && IsDecimal(u)
    requires |IntPart(t)| > |IntPart(u)| ==> NoLeadingZero(t)
    requires |IntPart(t)| < |IntPart(u)| ==> NoLeadingZero(u)
    ensures TextGe(t, u) <==> NumericGe(t, u)
  {
    if |IntPart(t)| == |IntPart(u)| {
      SameLengthCompare(t, u);
    } else if |IntPart(t)| > |IntPart(u)| {
      LongerIsGreater(t, u);
    } else {
      LongerIsGreater(u, t);
    }
  }

  lemma CrossScale(s: nat, v: nat, x: nat, y: nat, pd: nat, pe: nat, pf: nat, pg: nat)
    requires pd > 0 && pe > 0 && pf > 0 && pg > 0
    requires s * pd == x * pf && v * pe == y * pg
    ensures s * pg >= v * pf <==> x * pe >= y * pd
  {
    calc {
      (s * pg) * (pd * pe);
      { Shuffle(s, pg, pd, pe); }
      (s * pd) * (pg * pe);
      (x * pf) * (pg * pe);
      { Shuffle(x, pf, pe, pg); assert pg * pe == pe * pg; }
      (x * pe) * (pf * pg);
    }
    calc {
      (v * pf) * (pd * pe);
      { Shuffle(v, pf, pe, pd); assert pd * pe == pe * pd; }
      (v * pe) * (pf * pd);
      (y * pg) * (pf * pd);
      { Shuffle(y, pg, pd, pf); assert pf * pd == pd * pf && pg * pf == pf * pg; }
      (y * pd) * (pf * pg);
    }
    PosMul(pd, pe);
    PosMul(pf, pg);
    Cancel(s * pg, v * pf, pd * pe);
    Cancel(x * pe, y * pd, pf * pg);
  }

  lemma PosMul(a: int, b: int)
    requires a > 0 && b > 0
    ensures a * b > 0
  {
  }

  lemma Shuffle(a: int, b: int, c: int, d: int)
    ensures (a * b) * (c * d) == (a * c) * (b * d)
  {
    assert (a * b) * (c * d) == a * (b * (c * d)) == a * (c * (b * d));
  }

  /** Comparing two printed amounts is comparing x / 10^d with y / 10^e. */
  lemma PrintedCompare(x: nat, d: nat, y: nat, e: nat)
    ensures TextGe(AmountText(x, d), AmountText(y, e)) <==> x * Pow10(e) >= y * Pow10(d)
  {
    var t, u := AmountText(x, d), AmountText(y, e);
    AmountTextDenotes(x, d);
    AmountTextDenotes(y, e);
    CompareNumeric(t, u);
    CrossScale(Scaled(t), Scaled(u), x, y, Pow10(d), Pow10(e), Pow10(|FracPart(t)|), Pow10(|FracPart(u)|));
  }

  lemma LastOfPad(f: string, m: nat)
    requires |f| <= m
    ensures |f| < m ==> PadTo(f, m)[m - 1] == '0'
    ensures |f| == m ==> PadTo(f, m) == f
  {
  }

  lemma PaddedEqual(f: string, g: string, m: nat)
    requires |f| <= m && |g| <= m && (|f| == m || |g| == m) && PadTo(f, m) == PadTo(g, m)
    requires (|f| > 0 ==> f[|f| - 1] != '0') && (|g| > 0 ==> g[|g| - 1] != '0')
    ensures f == g
  {
    LastOfPad(f, m);
    LastOfPad(g, m);
  }

  lemma AlignedParts(t: string, u: string, m: nat)
    requires |FracPart(t)| <= m && |FracPart(u)| <= m && |IntPart(t)| == |IntPart(u)|
    requires Aligned(t, m) == Aligned(u, m)
    ensures IntPart(t) == IntPart(u) && PadTo(FracPart(t), m) == PadTo(FracPart(u), m)
  {
    var i := |IntPart(t)|;
    assert Aligned(t, m)[..i] == IntPart(t) && Aligned(u, m)[..i] == IntPart(u);
    assert Aligned(t, m)[i..] == PadTo(FracPart(t), m) && Aligned(u, m)[i..] == PadTo(FracPart(u), m);
  }

  lemma TextGeBothWays(t: string, u: string)
    requires TextGe(t, u) && TextGe(u, t)
    ensures |IntPart(t)| == |IntPart(u)| && Aligned(t, Longer(t, u)) == Aligned(u, Longer(t, u))
  {
    LexTotal(Aligned(t, Longer(t, u)), Aligned(u, Longer(t, u)));
  }

  lemma LastDigit(t: string)
    requires IsDecimal(t) && |FracPart(t)| > 0
    ensures t[|t| - 1] == FracPart(t)[|FracPart(t)| - 1]
  {
  }

  /** A number has at most one canonical text. */
  lemma CanonicalUnique(t: string, u: string)
    requires Canonical(t) && Canonical(u) && NumericGe(t, u) && NumericGe(u, t)
    ensures t == u
  {
    CompareNumeric(t, u);
    CompareNumeric(u, t);
    TextGeBothWays(t, u);
    AlignedParts(t, u, Longer(t, u));
    CanonicalParts(t, u);
  }

  lemma CanonicalParts(t: string, u: string)
    requires Canonical(t) && Canonical(u) && IntPart(t) == IntPart(u)
    requires PadTo(FracPart(t), Longer(t, u)) == PadTo(FracPart(u), Longer(t, u))
    ensures t == u
  {
    if |FracPart(t)| > 0 { LastDigit(t); }
    if |FracPart(u)| > 0 { LastDigit(u); }
    PaddedEqual(FracPart(t), FracPart(u), Longer(t, u));
    TextOfParts(t);
    TextOfParts(u);
  }

  /** Two printed amounts are the same text exactly when they are the same number. */
  lemma PrintedEqual(x: nat, d: nat, y: nat, e: nat)
    ensures AmountText(x, d) == AmountText(y, e) <==> x * Pow10(e) == y * Pow10(d)
  {
    PrintedCompare(x, d, y, e);
    PrintedCompare(y, e, x, d);
    var t, u := AmountText(x, d), AmountText(y, e);
    AmountTextDenotes(x, d);
    AmountTextDenotes(y, e);
    CompareNumeric(t, u);
    CompareNumeric(u, t);
    if x * Pow10(e) == y * Pow10(d) {
      CanonicalUnique(t, u);
    }
  }

  // ---------- redundant leading zeros ----------

  predicate Nines(s: string) { forall i :: 0 <= i < |s| ==> s[i] == '9' }

  lemma {:induction false} NinesValue(s: string)
    requires Nines(s)
    ensures AllDigits(s) && NatOf(s) == Pow10(|s|) - 1
  {
    if |s| > 0 {
      NinesValue(s[..|s| - 1]);
    }
  }

  function NineDigits(n: nat): (s: string)
    ensures |s| == n && Nines(s)
  {
    seq(n, _ => '9')
  }

  /** Nines in one place less than i, and one more than f decimals of them. */
  function NinesText(i: nat, f: nat): string
    requires i > 1
  {
    NineDigits(i - 1) + "." + NineDigits(f + 1)
  }

  lemma NinesTextParts(i: nat, f: nat, u: string)
    requires i > 1 && u == NinesText(i, f)
    ensures IsDecimal(u) && NoLeadingZero(u) && |IntPart(u)| == i - 1 && |FracPart(u)| == f + 1
    ensures Scaled(u) == Pow10(i + f) - 1
  {
    NinesParts(NineDigits(i - 1), NineDigits(f + 1), i + f);
  }

  /** A smaller number that the text comparison puts below t all the same: nines in
      one place less, and in one more decimal. */
  function NinesBelow(t: string): string
    requires |IntPart(t)| > 1
  {
    NinesText(|IntPart(t)|, |FracPart(t)|)
  }

  lemma DecimalOfParts(i: string, f: string)
    requires AllDigits(i) && AllDigits(f) && |i| > 0 && |f| > 0 && i[0] != '0'
    ensures IntPart(i + "." + f) == i && FracPart(i + "." + f) == f
    ensures IsDecimal(i + "." + f) && NoLeadingZero(i + "." + f) && Scaled(i + "." + f) == NatOf(i + f)
  {
    PartsOf(i, f);
    assert (i + "." + f)[0] == i[0];
  }

  lemma NinesParts(i: string, f: string, w: nat)
    requires Nines(i) && Nines(f) && |i| > 0 && |f| > 0 && w == |i| + |f|
    ensures IntPart(i + "." + f) == i && FracPart(i + "." + f) == f
    ensures IsDecimal(i + "." + f) && NoLeadingZero(i + "." + f)
    ensures Scaled(i + "." + f) == Pow10(w) - 1
  {
    NinesDigits(i);
    NinesDigits(f);
    DecimalOfParts(i, f);
    NinesOfConcat(i, f, w);
  }

  lemma NinesDigits(s: string)
    requires Nines(s)
    ensures AllDigits(s) && (|s| > 0 ==> s[0] != '0')
  {
  }

  lemma NinesOfConcat(i: string, f: string, w: nat)
    requires Nines(i) && Nines(f) && w == |i| + |f|
    ensures AllDigits(i + f) && NatOf(i + f) == Pow10(w) - 1
  {
    NinesValue(i + f);
    assert |i + f| == w;
  }

  lemma NinesBelowParts(t: string)
    requires |IntPart(t)| > 1
    ensures var u := NinesBelow(t);
            && IsDecimal(u) && NoLeadingZero(u) && |IntPart(u)| == |IntPart(t)| - 1
            && |FracPart(u)| == |FracPart(t)| + 1 && Scaled(u) == Pow10(|IntPart(t)| + |FracPart(t)|) - 1
  {
    NinesTextParts(|IntPart(t)|, |FracPart(t)|, NinesBelow(t));
  }

  lemma ZeroLedBound(s: string)
    requires AllDigits(s) && |s| > 0 && s[0] == '0'
    ensures NatOf(s) < Pow10(|s| - 1)
  {
    NatOfFirst(s);
    DigitsOfNat(s[1..]);
  }

  /** A text with a redundant leading zero is put above a greater number when it comes
      first, and that number below it when it comes second. */
  lemma ZeroLedMiscompared(t: string)
    requires IsDecimal(t) && !NoLeadingZero(t)
    ensures var u := NinesBelow(t);
            && IsDecimal(u) && NoLeadingZero(u) && TextGe(t, u) && !NumericGe(t, u)
            && !TextGe(u, t) && NumericGe(u, t)
  {
    NinesBelowParts(t);
    var u := NinesBelow(t);
    var s := IntPart(t) + FracPart(t);
    assert s[0] == t[0];
    ZeroLedBound(s);
    ZeroLedProducts(Scaled(t), Scaled(u), |IntPart(t)| - 1, |FracPart(t)|);
  }

  lemma ZeroLedProducts(s: nat, v: nat, i: nat, f: nat)
    requires s < Pow10(i + f) && v == Pow10(i + f + 1) - 1
    ensures s * Pow10(f + 1) < v * Pow10(f)
  {
    assert Pow10(f + 1) == 10 * Pow10(f) && v == 10 * Pow10(i + f) - 1;
    assert s * (10 * Pow10(f)) == (10 * s) * Pow10(f);
    Cancel(10 * s, v, Pow10(f));
  }

  ghost predicate ComparedAsNumbers(t: string, u: string)
    requires IsDecimal(t) && IsDecimal(u)
  {
    TextGe(t, u) <==> NumericGe(t, u)
  }

  /** Exactly when a text in the first place is compared as a number with every text
      without redundant leading zeros: when it has none itself. */
  lemma FirstComparesNumericallyIff(t: string)
    requires IsDecimal(t)
    ensures NoLeadingZero(t) <==> forall u: string :: IsDecimal(u) && NoLeadingZero(u) ==> ComparedAsNumbers(t, u)
  {
    if NoLeadingZero(t) {
      forall u: string | IsDecimal(u) && NoLeadingZero(u)
        ensures ComparedAsNumbers(t, u)
      {
        CompareNumeric(t, u);
      }
    } else {
      ZeroLedMiscompared(t);
      assert !ComparedAsNumbers(t, NinesBelow(t));
    }
  }

  /** The same for a text in the second place. */
  lemma SecondComparesNumericallyIff(u: string)
    requires IsDecimal(u)
    ensures NoLeadingZero(u) <==> forall t: string :: IsDecimal(t) && NoLeadingZero(t) ==> ComparedAsNumbers(t, u)
  {
    if NoLeadingZero(u) {
      forall t: string | IsDecimal(t) && NoLeadingZero(t)
        ensures ComparedAsNumbers(t, u)
      {
        CompareNumeric(t, u);
      }
    } else {
      ZeroLedMiscompared(u);
      assert !ComparedAsNumbers(NinesBelow(u), u);
    }
  }

  /** A text without leading zeros may still be miscompared with one that has them. */
  lemma ZeroLedSecond()
    ensures IsDecimal("10") && IsDecimal("007") && NoLeadingZero("10")
    ensures !TextGe("10", "007") && NumericGe("10", "007")
  {
    DotAtIs("10", 2);
    DotAtIs("007", 3);
    assert "10"[..1] == "1" && "007"[..2] == "00" && "00"[..1] == "0";
    assert "10" + "" == "10" && "007" + "" == "007";
  }
}
