/** amount_as_string_is_greater_or_equal of libsol/printer.c, and the swap checks of
    src/swap/handle_swap_sign_transaction.c that rely on it. */
module AmountCompare {
  import opened Bytes
  import opened Decimal
  import opened Amounts
  import opened Printer

  /** strchr(s, ' '), as an index; the length when there is no space. */
  function SpaceAt(s: string): (p: nat)
    ensures p <= |s| && (forall i :: 0 <= i < p ==> s[i] != ' ') && (p < |s| ==> s[p] == ' ')
  {
    if |s| == 0 || s[0] == ' ' then 0 else 1 + SpaceAt(s[1..])
  }

  function NumberOf(s: string): string { s[..SpaceAt(s)] }

  function TickerOf(s: string): string { if SpaceAt(s) < |s| then s[SpaceAt(s) + 1..] else "" }

  /** Both texts name the same non-empty ticker, both numbers are well formed, and the
      first is at least the second. */
  predicate AmountGe(a: Option<string>, b: Option<string>) {
    && a.Some? && b.Some? && TickerOf(a.value) != "" && TickerOf(a.value) == TickerOf(b.value)
    && IsDecimal(NumberOf(a.value)) && IsDecimal(NumberOf(b.value))
    && TextGe(NumberOf(a.value), NumberOf(b.value))
  }

  /** IsDecimal, character by character: one dot at most, neither first nor last. */
  ghost predicate DecimalShape(t: string, p: nat) {
    0 < p && p != |t| - 1 && forall i :: 0 <= i < |t| && i != p ==> IsDigit(t[i])
  }

  lemma DecimalHasShape(t: string)
    requires IsDecimal(t)
    ensures DecimalShape(t, DotAt(t))
  {
    var p := DotAt(t);
    forall i | 0 <= i < |t| && i != p
      ensures IsDigit(t[i])
    {
      if i < p {
        assert IntPart(t)[i] == t[i];
      } else {
        assert FracPart(t)[i - p - 1] == t[i];
      }
    }
  }

  lemma ShapeIsDecimal(t: string, p: nat)
    requires p <= |t| && DecimalShape(t, p) && (p < |t| ==> t[p] == '.')
    ensures IsDecimal(t) && DotAt(t) == p
  {
    DotAtIs(t, p);
  }

  /** A decimal text consists of digits, with a dot between two of them or none. */
  lemma DecimalIff(t: string)
    ensures IsDecimal(t) <==>
              exists p :: 0 < p <= |t| && (p < |t| ==> t[p] == '.' && p < |t| - 1)
                          && forall i :: 0 <= i < |t| && i != p ==> '0' <= t[i] <= '9'
  {
    if IsDecimal(t) {
      DecimalHasShape(t);
      assert forall i :: 0 <= i < |t| && i != DotAt(t) ==> IsDigit(t[i]);
    }
    if p :| 0 < p <= |t| && (p < |t| ==> t[p] == '.' && p < |t| - 1)
            && forall i :: 0 <= i < |t| && i != p ==> '0' <= t[i] <= '9'
    {
      ShapeIsDecimal(t, p);
    }
  }

  lemma SplitAtSpace(s: string, x: string, t: string)
    requires s == x + " " + t && IsDecimal(x)
    ensures NumberOf(s) == x && TickerOf(s) == t
  {
    DecimalHasShape(x);
    assert forall i :: 0 <= i < |x| ==> s[i] == x[i] && (IsDigit(x[i]) || i == DotAt(x));
    assert s[|x|] == ' ';
  }

  /** The texts are the numbers x and y, a space, and one ticker t that is not empty. */
  ghost predicate Quote(a: string, b: string, x: string, y: string, t: string) {
    a == x + " " + t && b == y + " " + t && t != "" && IsDecimal(x) && IsDecimal(y)
  }

  /** Two texts compare as greater or equal exactly when they are two quotes with one ticker
      and the first number is the greater or equal text. */
  lemma GeIff(a: string, b: string)
    ensures AmountGe(Some(a), Some(b)) <==> exists x, y, t :: Quote(a, b, x, y, t) && TextGe(x, y)
    ensures !AmountGe(None, Some(b)) && !AmountGe(Some(a), None) && !AmountGe(None, None)
  {
    if AmountGe(Some(a), Some(b)) {
      QuoteOf(a, b);
    }
    if x, y, t :| Quote(a, b, x, y, t) && TextGe(x, y) {
      SplitAtSpace(a, x, t);
      SplitAtSpace(b, y, t);
    }
  }

  lemma {:induction false} QuoteOf(a: string, b: string)
    requires TickerOf(a) == TickerOf(b) != "" && IsDecimal(NumberOf(a)) && IsDecimal(NumberOf(b))
    ensures Quote(a, b, NumberOf(a), NumberOf(b), TickerOf(a))
  {
    Rejoined(a, SpaceAt(a));
    Rejoined(b, SpaceAt(b));
  }

  lemma {:induction false} Rejoined(s: string, p: nat)
    requires p < |s| && s[p] == ' '
    ensures s == s[..p] + " " + s[p + 1..]
  {
  }

  /** A second dot, a dot at either end or a foreign character. */
  lemma NotDecimalAt(t: string, i: nat)
    requires i < |t| && !IsDigit(t[i])
    requires t[i] != '.' || i == 0 || i == |t| - 1 || (exists j :: 0 <= j < i && t[j] == '.')
    ensures !IsDecimal(t)
  {
    if IsDecimal(t) {
      DecimalHasShape(t);
    }
  }

  /** validate_numeric_part: the position of the dot, or -1. */
  method ValidateNumericPart(str: string, numLen: nat) returns (r: int)
    requires numLen <= |str| && numLen <= INT_MAX
    ensures r == if IsDecimal(str[..numLen]) then DotAt(str[..numLen]) else -1
  {
    ghost var t := str[..numLen];
    var dotPos := numLen;
    var hasDot := false;
    if numLen == 0 {
      return -1;
    }
    for i := 0 to numLen
      invariant 0 < dotPos <= numLen && dotPos != numLen - 1
      invariant if hasDot then dotPos < i && t[dotPos] == '.' else dotPos == numLen
      invariant forall j :: 0 <= j < i && j != dotPos ==> IsDigit(t[j])
    {
      assert str[i] == t[i];
      if str[i] == '.' {
        if hasDot {
          NotDecimalAt(t, i);
          return -1;
        }
        if i == 0 {
          NotDecimalAt(t, i);
          return -1;
        }
        if i == numLen - 1 {
          NotDecimalAt(t, i);
          return -1;
        }
        dotPos := i;
        hasDot := true;
      } else if str[i] < '0' || str[i] > '9' {
        NotDecimalAt(t, i);
        return -1;
      }
    }
    ShapeIsDecimal(t, dotPos);
    return dotPos;
  }

  /** The first differing character decides. */
  lemma {:induction false} FirstDifference(s: string, t: string, k: nat)
    requires k < |s| == |t| && s[..k] == t[..k] && s[k] != t[k]
    ensures LexLess(s, t) <==> s[k] < t[k]
  {
    if k > 0 {
      assert s[0] == s[..k][0] == t[..k][0] == t[0];
      assert s[1..][..k - 1] == s[..k][1..] && t[1..][..k - 1] == t[..k][1..];
      FirstDifference(s[1..], t[1..], k - 1);
    }
  }

  lemma {:induction false} NotLexLess(s: string)
    ensures !LexLess(s, s)
  {
    if |s| > 0 {
      NotLexLess(s[1..]);
    }
  }

  lemma {:induction false} ZeroDigits(z: nat)
    ensures forall i :: 0 <= i < z ==> Digits(0, z)[i] == '0'
  {
    if z > 0 {
      ZeroDigits(z - 1);
      assert Digits(0, z) == Digits(0, z - 1) + ['0'];
    }
  }

  lemma SamePrefix(s: string, t: string, k: nat)
    requires k < |s| == |t| && s[..k] == t[..k] && s[k] == t[k]
    ensures s[..k + 1] == t[..k + 1]
  {
    assert s[..k + 1] == s[..k] + [s[k]] && t[..k + 1] == t[..k] + [t[k]];
  }

  /** The loop over the integer digits. */
  method CompareInteger(a: string, b: string, dot: nat, ghost s: string, ghost t: string)
    returns (decided: bool, r: bool)
    requires dot <= |a| && dot <= |b| && dot <= |s| == |t| && s[..dot] == a[..dot] && t[..dot] == b[..dot]
    ensures decided ==> r == !LexLess(s, t)
    ensures !decided ==> s[..dot] == t[..dot]
  {
    for i := 0 to dot
      invariant s[..i] == t[..i]
    {
      assert s[i] == s[..dot][i] == a[i] && t[i] == t[..dot][i] == b[i];
      if a[i] != b[i] {
        FirstDifference(s, t, i);
        return true, a[i] > b[i];
      }
      SamePrefix(s, t, i);
    }
    return false, false;
  }

  /** The i-th fractional digit as the program reads it. */
  function FracDigit(t: string, dot: nat, i: nat): char
    requires dot <= |t|
  {
    if dot + 1 + i < |t| then t[dot + 1 + i] else '0'
  }

  lemma PadDigit(f: string, m: nat, i: nat)
    requires |f| <= m && i < m
    ensures PadTo(f, m)[i] == if i < |f| then f[i] else '0'
  {
    ZeroDigits(m - |f|);
  }

  /** s is the number t with its dot at d removed and m fractional digits. */
  ghost predicate Spread(s: string, t: string, d: nat, m: nat) {
    && d <= |t| && |s| == d + m && s[..d] == t[..d]
    && forall i :: 0 <= i < m ==> s[d + i] == FracDigit(t, d, i)
  }

  lemma AlignedDigits(t: string, m: nat)
    requires |FracPart(t)| <= m
    ensures Spread(Aligned(t, m), t, DotAt(t), m)
  {
    var d := DotAt(t);
    assert |IntPart(t)| == d;
    forall i | 0 <= i < m
      ensures Aligned(t, m)[d + i] == FracDigit(t, d, i)
    {
      PadDigit(FracPart(t), m, i);
      assert Aligned(t, m)[d + i] == PadTo(FracPart(t), m)[i];
    }
  }

  /** The loop over the fractional digits, the shorter fraction read as if padded. */
  method CompareFraction(a: string, b: string, dot: nat, maxFrac: nat, ghost s: string, ghost t: string)
    returns (r: bool)
    requires Spread(s, a, dot, maxFrac) && Spread(t, b, dot, maxFrac) && s[..dot] == t[..dot]
    ensures r == !LexLess(s, t)
  {
    for i := 0 to maxFrac
      invariant s[..dot + i] == t[..dot + i]
    {
      var ca, cb := FracDigit(a, dot, i), FracDigit(b, dot, i);
      assert s[dot + i] == ca && t[dot + i] == cb;
      if ca != cb {
        FirstDifference(s, t, dot + i);
        return ca > cb;
      }
      SamePrefix(s, t, dot + i);
    }
    assert s == s[..dot + maxFrac] && t == t[..dot + maxFrac];
    NotLexLess(s);
    return true;
  }

  lemma AlignBoth(a: string, b: string, m: nat) returns (s: string, t: string)
    requires DotAt(a) == DotAt(b) && m == Longer(a, b)
    ensures Spread(s, a, DotAt(a), m) && Spread(t, b, DotAt(a), m)
    ensures TextGe(a, b) <==> !LexLess(s, t)
  {
    s, t := Aligned(a, m), Aligned(b, m);
    AlignedDigits(a, m);
    AlignedDigits(b, m);
    assert |IntPart(a)| == |IntPart(b)|;
  }

  /** The comparison of two well-formed numbers with their dots located. */
  method CompareNumbers(a: string, b: string, aDot: nat, bDot: nat) returns (r: bool)
    requires aDot == DotAt(a) && bDot == DotAt(b)
    ensures r == TextGe(a, b)
  {
    if aDot != bDot {
      return aDot > bDot;
    }
    var aFracLen := if aDot < |a| then |a| - aDot - 1 else 0;
    var bFracLen := if bDot < |b| then |b| - bDot - 1 else 0;
    var maxFrac := if aFracLen > bFracLen then aFracLen else bFracLen;
    ghost var s, t := AlignBoth(a, b, maxFrac);
    var decided;
    decided, r := CompareInteger(a, b, aDot, s, t);
    if !decided {
      r := CompareFraction(a, b, aDot, maxFrac, s, t);
    }
  }

  /** amount_as_string_is_greater_or_equal; None stands for NULL. */
  method AmountAsStringIsGreaterOrEqual(a: Option<string>, b: Option<string>) returns (r: bool)
    requires a.Some? ==> IsCString(a.value) && |a.value| <= INT_MAX
    requires b.Some? ==> IsCString(b.value) && |b.value| <= INT_MAX
    ensures r == AmountGe(a, b)
  {
    if a.None? || b.None? {
      return false;
    }
    var aSpace, bSpace := SpaceAt(a.value), SpaceAt(b.value);
    if aSpace == |a.value| || bSpace == |b.value| {
      return false;
    }
    var aTicker, bTicker := a.value[aSpace + 1..], b.value[bSpace + 1..];
    if aTicker == "" || bTicker == "" {
      return false;
    }
    if aTicker != bTicker {
      return false;
    }
    var aDot := ValidateNumericPart(a.value, aSpace);
    var bDot := ValidateNumericPart(b.value, bSpace);
    if aDot < 0 || bDot < 0 {
      return false;
    }
    r := CompareNumbers(a.value[..aSpace], b.value[..bSpace], aDot, bDot);
  }

  // ---------- printed texts ----------

  lemma {:induction false} SpaceAtIs(s: string, p: nat)
    requires p < |s| && (forall i :: 0 <= i < p ==> s[i] != ' ') && s[p] == ' '
    ensures SpaceAt(s) == p
  {
    if p > 0 {
      SpaceAtIs(s[1..], p - 1);
    }
  }

  lemma DecimalChars(t: string)
    requires IsDecimal(t)
    ensures forall i :: 0 <= i < |t| ==> t[i] != ' ' && t[i] != '\0'
  {
    DecimalHasShape(t);
  }

  lemma QualifiedParts(n: nat, decimals: nat, ticker: string)
    ensures NumberOf(Qualified(n, decimals, Some(ticker))) == AmountText(n, decimals)
    ensures TickerOf(Qualified(n, decimals, Some(ticker))) == ticker
  {
    AmountTextDenotes(n, decimals);
    var t := AmountText(n, decimals);
    DecimalChars(t);
    SpaceAtIs(t + (" " + ticker), |t|);
  }

  /** Comparing printed amounts is comparing numbers: x / 10^d >= y / 10^e. */
  lemma PrintedGe(x: nat, d: nat, y: nat, e: nat, ticker: string)
    requires ticker != ""
    ensures AmountGe(Some(Qualified(x, d, Some(ticker))), Some(Qualified(y, e, Some(ticker))))
       <==> x * Pow10(e) >= y * Pow10(d)
  {
    QualifiedParts(x, d, ticker);
    QualifiedParts(y, e, ticker);
    AmountTextDenotes(x, d);
    AmountTextDenotes(y, e);
    PrintedCompare(x, d, y, e);
  }

  /** Two printed amounts are the same text exactly when ticker and number are the same. */
  lemma PrintedSame(x: nat, d: nat, s: string, y: nat, e: nat, t: string)
    ensures Qualified(x, d, Some(s)) == Qualified(y, e, Some(t))
       <==> s == t && x * Pow10(e) == y * Pow10(d)
  {
    QualifiedParts(x, d, s);
    QualifiedParts(y, e, t);
    PrintedEqual(x, d, y, e);
  }
}
